/** What a request run leaves behind: upstream outcomes, the trace of events, and what the trace keeps. */
module RequestTrace {
  import opened Common
  import opened RequestFlow
  import Retry
  import Backoff

  /** What came back from the upstream once the request was sent. */
  datatype Upstream = TransportError | Response(status: int, readable: bool, classified: Failure, parses: bool)

  /** Answer of the store when an outcome is recorded as uncertain. */
  datatype Marking = Marked | Fenced | MarkFailed

  predicate Success(status: int) { 200 <= status <= 299 }

  /** The upstream may have acted on the request. */
  predicate Ambiguous(u: Upstream) {
    u.TransportError? || !u.readable || Success(u.status) || (u.status >= 500 && !u.classified.replaySafe)
  }

  function UncertainFailure(marking: Marking, retryAt: int): Failure {
    if marking.MarkFailed? then StorageFailure() else Failure(Uncertain, false, Some(RetryAfter(None, Some(retryAt))))
  }

  /** An outcome after which the workflow must not send again. */
  predicate Final(f: Failure) {
    (f.kind.Uncertain? || f.kind.StorageUnavailable?) && !f.replaySafe
  }

  // ---------------------------------------------------------------------------------------------
  // Traces
  // ---------------------------------------------------------------------------------------------

  /** What a run did, in order; only a streaming run commits and delivers while it is going on. */
  datatype Event =
    | Sent(candidate: CandidateID, attempt: int, upstream: Upstream)
    | Waited(attempt: int, at: int)
    | Committed
    | Delivered(last: bool, payload: string)

  function Sends(trace: seq<Event>): nat {
    if trace == [] then 0 else Sends(trace[..|trace| - 1]) + if trace[|trace| - 1].Sent? then 1 else 0
  }

  lemma SendsAppend(trace: seq<Event>, e: Event)
    ensures Sends(trace + [e]) == Sends(trace) + if e.Sent? then 1 else 0
  {
    assert (trace + [e])[..|trace|] == trace;
  }

  /** No upstream request follows one whose outcome is ambiguous. */
  ghost predicate NoResendAfterAmbiguity(trace: seq<Event>) {
    forall i, j :: 0 <= i < j < |trace| && trace[i].Sent? && Ambiguous(trace[i].upstream) ==> !trace[j].Sent?
  }

  ghost predicate NoneAmbiguous(trace: seq<Event>) {
    forall i :: 0 <= i < |trace| && trace[i].Sent? ==> !Ambiguous(trace[i].upstream)
  }

  predicate SameTarget(a: Event, b: Event) {
    a.Sent? && b.Sent? && a.candidate == b.candidate
  }

  /** A candidate is tried again only after a scheduled wait. */
  ghost predicate RepeatsOnlyAfterWaiting(trace: seq<Event>) {
    forall i, j :: 0 <= i < j < |trace| && SameTarget(trace[i], trace[j]) ==>
      exists k :: i < k < j && trace[k].Waited?
  }

  /** Every wait was within both budgets. */
  ghost predicate WaitsWithinBudgets(trace: seq<Event>, policy: Retry.Policy, startedAt: int) {
    forall i :: 0 <= i < |trace| && trace[i].Waited? ==>
      trace[i].attempt < policy.maxAttempts && trace[i].at < startedAt + policy.maxElapsed
  }

  /** Candidates sent to since the last wait are all excluded. */
  ghost predicate TriedAreExcluded(trace: seq<Event>, excluded: seq<CandidateID>) {
    forall i :: 0 <= i < |trace| && trace[i].Sent? && trace[i].candidate !in excluded ==>
      exists k :: i < k < |trace| && trace[k].Waited?
  }

  /** What a run keeps while it is still going. */
  ghost predicate Going(trace: seq<Event>, excluded: seq<CandidateID>, policy: Retry.Policy, startedAt: int) {
    && NoneAmbiguous(trace) && RepeatsOnlyAfterWaiting(trace) && WaitsWithinBudgets(trace, policy, startedAt)
    && TriedAreExcluded(trace, excluded)
  }

  /** What every finished run satisfies. */
  ghost predicate Disciplined(trace: seq<Event>, policy: Retry.Policy, startedAt: int) {
    NoResendAfterAmbiguity(trace) && RepeatsOnlyAfterWaiting(trace) && WaitsWithinBudgets(trace, policy, startedAt)
  }

  lemma GoingIsDisciplined(trace: seq<Event>, excluded: seq<CandidateID>, policy: Retry.Policy, startedAt: int)
    requires Going(trace, excluded, policy, startedAt)
    ensures Disciplined(trace, policy, startedAt)
  {
    hide RepeatsOnlyAfterWaiting, WaitsWithinBudgets, TriedAreExcluded;
  }

  /** More exclusions never hurt. */
  lemma ExcludeMore(trace: seq<Event>, excluded: seq<CandidateID>, more: seq<CandidateID>, policy: Retry.Policy,
                    startedAt: int)
    requires Going(trace, excluded, policy, startedAt) && excluded <= more
    ensures Going(trace, more, policy, startedAt)
  {
    hide RepeatsOnlyAfterWaiting, WaitsWithinBudgets, NoneAmbiguous;
  }

  lemma AfterSend(trace: seq<Event>, excluded: seq<CandidateID>, policy: Retry.Policy, startedAt: int, e: Event)
    requires Going(trace, excluded, policy, startedAt) && e.Sent? && e.candidate !in excluded
    ensures Disciplined(trace + [e], policy, startedAt)
    ensures !Ambiguous(e.upstream) ==> Going(trace + [e], excluded + [e.candidate], policy, startedAt)
  {
    SendKeepsRepeats(trace, excluded, e);
    SendKeepsTried(trace, excluded, e);
    var after := trace + [e];
    assert forall i :: 0 <= i < |trace| ==> after[i] == trace[i];
  }

  lemma SendKeepsRepeats(trace: seq<Event>, excluded: seq<CandidateID>, e: Event)
    requires RepeatsOnlyAfterWaiting(trace) && TriedAreExcluded(trace, excluded) && e.Sent? && e.candidate !in excluded
    ensures RepeatsOnlyAfterWaiting(trace + [e])
  {
    var after := trace + [e];
    forall i, j | 0 <= i < j < |after| && after[i].Sent? && after[j].Sent? && after[i].candidate == after[j].candidate
      ensures exists k :: i < k < j && after[k].Waited?
    {
      assert after[i] == trace[i];
      if j < |trace| {
        assert after[j] == trace[j];
      }
      var k :| i < k < j && trace[k].Waited?;
      assert after[k].Waited?;
    }
  }

  lemma SendKeepsTried(trace: seq<Event>, excluded: seq<CandidateID>, e: Event)
    requires TriedAreExcluded(trace, excluded) && e.Sent?
    ensures TriedAreExcluded(trace + [e], excluded + [e.candidate])
  {
    var after, more := trace + [e], excluded + [e.candidate];
    forall i | 0 <= i < |after| && after[i].Sent? && after[i].candidate !in more
      ensures exists k :: i < k < |after| && after[k].Waited?
    {
      assert e.candidate in more;
      assert i < |trace| && after[i] == trace[i] && trace[i].candidate !in excluded;
      var k :| i < k < |trace| && trace[k].Waited?;
      assert after[k].Waited?;
    }
  }

  /** A scheduled wait within budget frees every candidate for another try. */
  lemma AfterWait(trace: seq<Event>, excluded: seq<CandidateID>, next: seq<CandidateID>, policy: Retry.Policy,
                  startedAt: int, e: Event)
    requires Going(trace, excluded, policy, startedAt)
    requires e.Waited? && e.attempt < policy.maxAttempts && e.at < startedAt + policy.maxElapsed
    ensures Going(trace + [e], next, policy, startedAt)
  {
    var after := trace + [e];
    assert forall i :: 0 <= i < |trace| ==> after[i] == trace[i];
    assert after[|trace|].Waited?;
    forall i, j | 0 <= i < j < |after| && after[i].Sent? && after[j].Sent? && after[i].candidate == after[j].candidate
      ensures exists k :: i < k < j && after[k].Waited?
    {
      var k :| i < k < j && trace[k].Waited?;
      assert after[k].Waited?;
    }
  }

  /** The trace shows what happened: listed candidates, one send per attempt in order, each with its own reply. */
  ghost predicate Faithful(trace: seq<Event>, run: Run, replies: nat -> Upstream, attempt: int) {
    && (forall i :: 0 <= i < |trace| && trace[i].Sent? ==>
          && HasID(run, trace[i].candidate) && 1 <= trace[i].attempt <= attempt
          && trace[i].upstream == replies(trace[i].attempt))
    && (forall i, j :: 0 <= i < j < |trace| && trace[i].Sent? && trace[j].Sent? ==> trace[i].attempt < trace[j].attempt)
  }

  lemma FaithfulAppend(trace: seq<Event>, run: Run, replies: nat -> Upstream, attempt: int, e: Event)
    requires Faithful(trace, run, replies, attempt - 1) && attempt >= 1
    requires e.Sent? ==> HasID(run, e.candidate) && e.attempt == attempt && e.upstream == replies(attempt)
    ensures Faithful(trace + [e], run, replies, attempt) && Faithful(trace, run, replies, attempt)
  {
  }

  lemma FaithfulWait(trace: seq<Event>, run: Run, replies: nat -> Upstream, attempt: int, e: Event)
    requires Faithful(trace, run, replies, attempt) && e.Waited?
    ensures Faithful(trace + [e], run, replies, attempt)
  {
  }

  ghost predicate SentAt(trace: seq<Event>, attempt: int) {
    exists i :: 0 <= i < |trace| && trace[i].Sent? && trace[i].attempt == attempt
  }

  /** Of the first `attempts` attempts, exactly those that send a request are in the trace. */
  ghost predicate Complete(trace: seq<Event>, sends: nat -> bool, attempts: int) {
    forall k: nat :: 1 <= k <= attempts ==> (SentAt(trace, k) <==> sends(k))
  }

  lemma SentAtAppend(trace: seq<Event>, e: Event, k: int)
    ensures SentAt(trace + [e], k) <==> SentAt(trace, k) || (e.Sent? && e.attempt == k)
  {
    var after := trace + [e];
    if i :| 0 <= i < |trace| && trace[i].Sent? && trace[i].attempt == k {
      assert after[i] == trace[i];
    }
    if e.Sent? && e.attempt == k {
      assert after[|trace|] == e;
    }
  }

  /** The next attempt, sent or not, extends a complete trace. */
  lemma CompleteAppend(trace: seq<Event>, run: Run, replies: nat -> Upstream, sends: nat -> bool, attempt: nat,
                       e: Event)
    requires attempt >= 1 && Complete(trace, sends, attempt - 1) && Faithful(trace, run, replies, attempt - 1)
    ensures e.Sent? && e.attempt == attempt && sends(attempt) ==> Complete(trace + [e], sends, attempt)
    ensures !sends(attempt) ==> Complete(trace, sends, attempt)
  {
    hide SentAt;
    NotSentYet(trace, run, replies, attempt);
    forall k: nat | 1 <= k <= attempt
      ensures SentAt(trace + [e], k) <==> SentAt(trace, k) || (e.Sent? && e.attempt == k)
    {
      SentAtAppend(trace, e, k);
    }
  }

  lemma NotSentYet(trace: seq<Event>, run: Run, replies: nat -> Upstream, attempt: nat)
    requires attempt >= 1 && Faithful(trace, run, replies, attempt - 1)
    ensures !SentAt(trace, attempt)
  {
  }

  lemma CompleteWait(trace: seq<Event>, sends: nat -> bool, attempts: int, e: Event)
    requires Complete(trace, sends, attempts) && !e.Sent?
    ensures Complete(trace + [e], sends, attempts)
  {
    hide SentAt;
    forall k: nat | 1 <= k <= attempts ensures SentAt(trace + [e], k) <==> SentAt(trace, k) {
      SentAtAppend(trace, e, k);
    }
  }

  // ---------------------------------------------------------------------------------------------
  // Progress of a run
  // ---------------------------------------------------------------------------------------------

  /**
   * What a run is about: its candidates, budgets, start and surroundings, and for each attempt whether it sends,
   * what it gets back, the failure it ends in, and whether that failure ends the run.
   */
  datatype Context = Context(
    run: Run,
    policy: Retry.Policy,
    startedAt: int,
    world: World,
    jitter: nat -> (Backoff.int64 -> Backoff.int64),
    canceled: nat -> bool,
    openDuration: int,
    replies: nat -> Upstream,
    sends: nat -> bool,
    errors: nat -> Option<Failure>,
    stops: nat -> bool)

  /** A run after `attempts` attempts that may still go on. */
  ghost predicate Progress(x: Context, trace: seq<Event>, excluded: seq<CandidateID>, attempts: int) {
    && ExclusionsOK(x.run, excluded) && Going(trace, excluded, x.policy, x.startedAt)
    && Faithful(trace, x.run, x.replies, attempts) && Complete(trace, x.sends, attempts)
    && 0 <= Sends(trace) <= attempts
  }

  /** A run that may end after `attempts` attempts. */
  ghost predicate Sound(x: Context, trace: seq<Event>, attempts: int) {
    && Disciplined(trace, x.policy, x.startedAt)
    && Faithful(trace, x.run, x.replies, attempts) && Complete(trace, x.sends, attempts)
    && Sends(trace) <= x.policy.maxAttempts + |x.run.candidates| - 1
  }

  lemma Starts(x: Context)
    requires x.policy.Valid()
    ensures Progress(x, [], [], 0) && x.policy.maxAttempts >= 1
  {
  }

  /** Selection only adds exclusions. */
  lemma Selects(x: Context, trace: seq<Event>, excluded: seq<CandidateID>, more: seq<CandidateID>, attempts: int)
    requires Progress(x, trace, excluded, attempts) && ExclusionsOK(x.run, more) && excluded <= more
    requires attempts < x.policy.maxAttempts + |excluded|
    ensures Progress(x, trace, more, attempts) && Sound(x, trace, attempts)
    ensures |more| <= |x.run.candidates|
  {
    hide ExclusionsOK, Going, Disciplined, Faithful, Complete, Sends;
    ExclusionsFit(x.run, more);
    ExcludeMore(trace, excluded, more, x.policy, x.startedAt);
    GoingIsDisciplined(trace, more, x.policy, x.startedAt);
  }

  /** The trace after an attempt on candidate `c`. */
  function Extended(x: Context, trace: seq<Event>, c: Candidate, attempt: nat): seq<Event> {
    if x.sends(attempt) then trace + [Sent(c.id, attempt, x.replies(attempt))] else trace
  }

  /** An attempt leaves a run that may end; unless it was ambiguous, one that may go on without the candidate. */
  lemma Attempts(x: Context, trace: seq<Event>, excluded: seq<CandidateID>, c: Candidate, attempt: nat)
    requires attempt >= 1 && Progress(x, trace, excluded, attempt - 1)
    requires c in x.run.candidates && c.id !in excluded && attempt <= x.policy.maxAttempts + |excluded|
    ensures var after := Extended(x, trace, c, attempt);
            && Sound(x, after, attempt)
            && ((x.sends(attempt) ==> !Ambiguous(x.replies(attempt))) ==>
                  Progress(x, after, excluded + [c.id], attempt))
  {
    hide ExclusionsOK, Going, Disciplined, Faithful, Complete, Sends, Ambiguous;
    var e := Sent(c.id, attempt, x.replies(attempt));
    assert HasID(x.run, c.id);
    ExcludeFresh(x.run, excluded, c);
    FaithfulAppend(trace, x.run, x.replies, attempt, e);
    CompleteAppend(trace, x.run, x.replies, x.sends, attempt, e);
    SendsAppend(trace, e);
    AfterSend(trace, excluded, x.policy, x.startedAt, e);
    GoingIsDisciplined(trace, excluded, x.policy, x.startedAt);
    ExcludeMore(trace, excluded, excluded + [c.id], x.policy, x.startedAt);
  }

  lemma Waits(x: Context, trace: seq<Event>, excluded: seq<CandidateID>, next: seq<CandidateID>, attempt: nat, at: int)
    requires Progress(x, trace, excluded, attempt) && ExclusionsOK(x.run, next)
    requires attempt < x.policy.maxAttempts && at < x.startedAt + x.policy.maxElapsed
    ensures Progress(x, trace + [Waited(attempt, at)], next, attempt)
            && Sound(x, trace + [Waited(attempt, at)], attempt)
  {
    hide ExclusionsOK, Going, Disciplined, Faithful, Complete, Sends;
    var e := Waited(attempt, at);
    AfterWait(trace, excluded, next, x.policy, x.startedAt, e);
    GoingIsDisciplined(trace + [e], next, x.policy, x.startedAt);
    SendsAppend(trace, e);
    FaithfulWait(trace, x.run, x.replies, attempt, e);
    CompleteWait(trace, x.sends, attempt, e);
  }

  lemma ExtendedIs(x: Context, trace: seq<Event>, c: Candidate, attempt: nat)
    ensures x.sends(attempt) ==> Extended(x, trace, c, attempt) == trace + [Sent(c.id, attempt, x.replies(attempt))]
    ensures !x.sends(attempt) ==> Extended(x, trace, c, attempt) == trace
  {
  }

  lemma NoExclusions(run: Run)
    ensures ExclusionsOK(run, [])
  {
  }
}
