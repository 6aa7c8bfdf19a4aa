/** The streaming workflow: events reach the client as they arrive, and a committed stream is never restarted. */
module RequestStream {
  import opened Common
  import opened RequestFlow
  import opened RequestTrace
  import opened RequestHistory
  import opened RequestBody
  import Retry

  datatype StreamExchange = StreamExchange(
    created: bool,
    buildError: Option<Failure>,
    sending: bool,
    upstream: Upstream,
    body: Body,
    marking: Marking,
    completed: bool,
    accounted: bool,
    finalAccepted: bool,
    cooldownUntil: int)

  // ---------------------------------------------------------------------------------------------
  // One attempt
  // ---------------------------------------------------------------------------------------------

  /** A broken stream: interrupted for the client if it saw any of it, uncertain otherwise. */
  function Broken(committed: bool, f: Failure, x: StreamExchange): Failure {
    if x.marking.MarkFailed? then StorageFailure()
    else if committed then Failure(StreamInterrupted, f.replaySafe, f.retryAfter)
    else Failure(Uncertain, f.replaySafe, Some(RetryAfter(None, Some(x.cooldownUntil))))
  }

  /** Failures after which the streaming workflow stops. */
  predicate Stops(committed: bool, f: Failure) {
    committed || f.kind.Uncertain? || f.kind.StreamInterrupted? || Final(f)
  }

  /** One commit first, then deliveries, and the final event at most once, at the very end. */
  ghost predicate StreamLog(log: seq<Event>, committed: bool) {
    if log != [] && IsLast(log[|log| - 1]) then committed && Emission(log[..|log| - 1], false, true)
    else Emission(log, false, committed)
  }

  predicate IsLast(e: Event) { e.Delivered? && e.last }

  lemma EmissionHasNoFinal(log: seq<Event>, committed: bool)
    requires Emission(log, false, committed)
    ensures StreamLog(log, committed) && (log != [] ==> !IsLast(log[|log| - 1]))
  {
    if committed && |log| > 1 {
      assert log[|log| - 1] == log[1..][|log| - 2];
    }
  }

  /** Everything an exchange holds for the client, its final event included. */
  function FullStream(x: StreamExchange, streamUsage: bool): seq<string> {
    var done := LastDone(BodyEvents(x.body), None);
    Deliverable(BodyEvents(x.body), streamUsage) + if done.Some? then [done.value] else []
  }

  predicate StreamSends(x: StreamExchange) {
    x.created && x.buildError.None? && x.sending
  }

  /** Whether the attempt committed the client, and the failure it ends in, if any. */
  function StreamOutcome(x: StreamExchange, streamUsage: bool): (bool, Option<Failure>) {
    if !StreamSends(x) then
      (false, Some(if x.created && x.buildError.Some? then x.buildError.value else StorageFailure()))
    else if !Ambiguous(x.upstream) then (false, Some(x.upstream.classified))
    else if x.upstream.TransportError? then (false, Some(Broken(false, Failure(Uncertain, false, None), x)))
    else if !Success(x.upstream.status) then
      var f := if x.upstream.readable then x.upstream.classified else Failure(ProviderTemporary, false, None);
      (false, Some(Broken(false, f, x)))
    else
      var r := ReadWhole(x.body, streamUsage);
      if r.error.Some? then (r.committed, Some(Broken(r.committed, r.error.value, x)))
      else if !x.completed || !x.accounted then (true, Some(StorageFailure()))
      else (true, if x.finalAccepted then None else Some(Interrupted()))
  }

  /** What an attempt shows the client: what reading reached, and on success the withheld done event. */
  function ShownBy(x: StreamExchange, streamUsage: bool): seq<string> {
    if !StreamSends(x) || !x.upstream.Response? || !Success(x.upstream.status) then []
    else
      var done := LastDone(BodyEvents(x.body), None);
      Reached(x.body, streamUsage)
        + if StreamOutcome(x, streamUsage).1.None? && done.Some? then [done.value] else []
  }

  /**
   * One streaming attempt. An ambiguous outcome ends in success or in a failure at which the workflow stops. The
   * client is shown a prefix of the stream; success is the whole of it, the final event after usage was recorded.
   */
  method StreamAttempt(x: StreamExchange, streamUsage: bool)
    returns (committed: bool, error: Option<Failure>, sent: bool, log: seq<Event>)
    ensures sent == StreamSends(x) && (committed, error) == StreamOutcome(x, streamUsage)
    ensures committed <==>
              && sent && x.upstream.Response? && Success(x.upstream.status)
              && Opens(Opening(Readable(x.body)))
    ensures sent && Ambiguous(x.upstream) && error.Some? ==> Stops(committed, error.value)
    ensures sent && Ambiguous(x.upstream) && error.Some? ==>
              match error.value.kind
              case Uncertain => !committed && !x.marking.MarkFailed?
              case StreamInterrupted => committed
              case StorageUnavailable => x.marking.MarkFailed? || (committed && !(x.completed && x.accounted))
              case _ => false
    ensures sent && !Ambiguous(x.upstream) ==> error == Some(x.upstream.classified) && !committed
    ensures !sent ==>
              && !committed
              && error == Some(if x.created && x.buildError.Some? then x.buildError.value else StorageFailure())
    ensures StreamLog(log, committed) && (!committed ==> log == [])
    ensures Shown(log) <= FullStream(x, streamUsage) && (error.None? ==> Shown(log) == FullStream(x, streamUsage))
    ensures Shown(log) == ShownBy(x, streamUsage)
    ensures error.None? <==> log != [] && IsLast(log[|log| - 1])
    ensures error.None? ==> x.completed && x.accounted && x.upstream.Response? && Success(x.upstream.status)
  {
    hide Deliverable, LastDone, Shown, Emission, ReadWhole, Opening, Reached;
    committed, sent, log := false, false, [];
    CommittedExactly(x.body, streamUsage);
    ReachedIsPrefix(x.body, streamUsage);
    NoLogIsFine();
    if !x.created {
      return committed, Some(StorageFailure()), sent, log;
    }
    if x.buildError.Some? {
      return committed, x.buildError, sent, log;
    }
    if !x.sending {
      return committed, Some(StorageFailure()), sent, log;
    }
    sent := true;
    if x.upstream.TransportError? {
      return committed, Some(Broken(false, Failure(Uncertain, false, None), x)), sent, log;
    }
    if x.upstream.status < 200 || x.upstream.status > 299 {
      if !x.upstream.readable {
        return committed, Some(Broken(false, Failure(ProviderTemporary, false, None), x)), sent, log;
      }
      if x.upstream.status >= 500 && !x.upstream.classified.replaySafe {
        return committed, Some(Broken(false, x.upstream.classified, x)), sent, log;
      }
      return committed, Some(x.upstream.classified), sent, log;
    }
    var done;
    committed, done, error, log := ReadBody(x.body, streamUsage);
    EmissionHasNoFinal(log, committed);
    NotCommittedIsSilent(log, committed);
    if error.Some? {
      error := Some(Broken(committed, error.value, x));
      return;
    }
    if !x.completed {
      return committed, Some(StorageFailure()), sent, log;
    }
    if !x.accounted {
      return committed, Some(StorageFailure()), sent, log;
    }
    if !x.finalAccepted {
      return true, Some(Interrupted()), sent, log;
    }
    ShownAppend(log, Delivered(true, done.value));
    assert (log + [Delivered(true, done.value)])[..|log|] == log;
    log := log + [Delivered(true, done.value)];
    error := None;
  }

  lemma NoLogIsFine()
    ensures StreamLog([], false) && Shown([]) == []
  {
  }

  lemma NotCommittedIsSilent(log: seq<Event>, committed: bool)
    requires Emission(log, false, committed)
    ensures !committed ==> log == []
  {
  }

  // ---------------------------------------------------------------------------------------------
  // Traces
  // ---------------------------------------------------------------------------------------------

  ghost predicate Silent(trace: seq<Event>) {
    forall i :: 0 <= i < |trace| ==> trace[i].Sent? || trace[i].Waited?
  }

  /** After the commit nothing is sent, waited for or committed again; nothing is delivered before it. */
  ghost predicate CommitsOnce(trace: seq<Event>) {
    && (forall i, j :: 0 <= i < j < |trace| && trace[i].Committed? ==> trace[j].Delivered?)
    && (forall j :: 0 <= j < |trace| && trace[j].Delivered? ==> exists i :: 0 <= i < j && trace[i].Committed?)
    && (forall i :: 0 <= i < |trace| - 1 ==> !IsLast(trace[i]))
  }

  /** A run that has committed nothing yet shows nothing. */
  lemma SilentSoFar(trace: seq<Event>)
    requires Silent(trace)
    ensures CommitsOnce(trace) && Shown(trace) == [] && trace + [] == trace && OnlyShows([])
  {
    SilentShowsNothing(trace);
  }

  lemma StartsSilent()
    ensures Silent([])
  {
  }

  lemma SilentAppend(trace: seq<Event>, e: Event)
    requires Silent(trace)
    ensures e.Sent? || e.Waited? ==> Silent(trace + [e])
  {
  }

  /** Nothing but a commit and deliveries. */
  ghost predicate OnlyShows(log: seq<Event>) {
    forall i :: 0 <= i < |log| ==> log[i].Committed? || log[i].Delivered?
  }

  /** The shape of a log by position. */
  lemma LogShape(log: seq<Event>, committed: bool)
    requires StreamLog(log, committed)
    ensures forall i :: 1 <= i < |log| ==> log[i].Delivered?
    ensures forall i :: 0 <= i < |log| - 1 ==> !IsLast(log[i])
    ensures log != [] ==> log[0].Committed?
  {
    if log != [] && IsLast(log[|log| - 1]) {
      var front := log[..|log| - 1];
      forall i | 0 <= i < |log| - 1 ensures !IsLast(log[i]) && (i >= 1 ==> log[i].Delivered?) {
        assert log[i] == front[i];
        assert i >= 1 ==> front[i] == front[1..][i - 1];
      }
    } else {
      forall i | 1 <= i < |log| ensures log[i].Delivered? && !log[i].last {
        assert log[i] == log[1..][i - 1];
      }
    }
  }

  lemma LogKeepsCommit(trace: seq<Event>, log: seq<Event>, committed: bool)
    requires Silent(trace) && StreamLog(log, committed)
    ensures CommitsOnce(trace + log)
  {
    LogShape(log, committed);
    var after := trace + log;
    forall j | 0 <= j < |after| && after[j].Delivered? ensures exists i :: 0 <= i < j && after[i].Committed? {
      assert after[j] == log[j - |trace|];
      assert after[|trace|] == log[0];
    }
  }

  lemma LogKeepsDiscipline(trace: seq<Event>, log: seq<Event>, committed: bool, policy: Retry.Policy, startedAt: int)
    requires Disciplined(trace, policy, startedAt) && StreamLog(log, committed)
    ensures Disciplined(trace + log, policy, startedAt) && Sends(trace + log) == Sends(trace)
  {
    LogShape(log, committed);
    var after := trace + log;
    forall i | |trace| <= i < |after| ensures !after[i].Sent? && !after[i].Waited? {
      assert after[i] == log[i - |trace|];
    }
    LogRepeats(trace, log);
    SendsIgnoreLog(trace, log);
  }

  lemma LogRepeats(trace: seq<Event>, log: seq<Event>)
    requires RepeatsOnlyAfterWaiting(trace) && forall i :: 0 <= i < |log| ==> !log[i].Sent?
    ensures RepeatsOnlyAfterWaiting(trace + log)
  {
    var after := trace + log;
    forall i, j | 0 <= i < j < |after| && after[i].Sent? && after[j].Sent? && after[i].candidate == after[j].candidate
      ensures exists k :: i < k < j && after[k].Waited?
    {
      assert j < |trace|;
      var k :| i < k < j && trace[k].Waited?;
      assert after[k].Waited?;
    }
  }

  lemma {:induction false} SendsIgnoreLog(trace: seq<Event>, log: seq<Event>)
    requires forall i :: 0 <= i < |log| ==> !log[i].Sent?
    ensures Sends(trace + log) == Sends(trace)
    decreases |log|
  {
    if log == [] {
      assert trace + log == trace;
    } else {
      var front, last := log[..|log| - 1], log[|log| - 1];
      SendsIgnoreLog(trace, front);
      assert trace + log == (trace + front) + [last];
      SendsAppend(trace + front, last);
    }
  }

  // ---------------------------------------------------------------------------------------------
  // The workflow
  // ---------------------------------------------------------------------------------------------

  /** Surroundings of a whole run: the selection world, plus what each attempt meets. */
  datatype StreamScript = StreamScript(
    world: World,
    exchange: nat -> StreamExchange,
    jitter: nat -> Jitter,
    canceled: nat -> bool,
    openDuration: int)

  /** The run ends with this attempt: the client was committed, or must not be served by another request. */
  predicate StopsStream(x: StreamExchange, streamUsage: bool) {
    var (committed, error) := StreamOutcome(x, streamUsage);
    committed || (error.Some? && (error.value.kind.Uncertain? || error.value.kind.StreamInterrupted?))
  }

  function StreamContext(run: Run, policy: Retry.Policy, s: StreamScript): Context {
    Context(run, policy, s.world.now(0), s.world, s.jitter, s.canceled, s.openDuration,
            (k: nat) => s.exchange(k).upstream, (k: nat) => StreamSends(s.exchange(k)),
            (k: nat) => StreamOutcome(s.exchange(k), run.streamUsage).1,
            (k: nat) => StopsStream(s.exchange(k), run.streamUsage))
  }

  lemma StreamContextIs(run: Run, policy: Retry.Policy, s: StreamScript, k: nat)
    ensures var x := StreamContext(run, policy, s);
            && x.replies(k) == s.exchange(k).upstream && x.sends(k) == StreamSends(s.exchange(k))
            && x.errors(k) == StreamOutcome(s.exchange(k), run.streamUsage).1
            && x.stops(k) == StopsStream(s.exchange(k), run.streamUsage)
  {
  }

  lemma StreamContextFields(run: Run, policy: Retry.Policy, s: StreamScript)
    ensures var x := StreamContext(run, policy, s);
            && x.run == run && x.policy == policy && x.startedAt == s.world.now(0) && x.world == s.world
            && x.jitter == s.jitter && x.canceled == s.canceled && x.openDuration == s.openDuration
  {
  }

  /** Deliveries after the last send leave everything else as it was. */
  lemma LogKeepsSound(x: Context, trace: seq<Event>, log: seq<Event>, committed: bool, attempts: int)
    requires Sound(x, trace, attempts) && StreamLog(log, committed)
    ensures Sound(x, trace + log, attempts)
  {
    hide Disciplined, StreamLog, Sends, Faithful, Complete;
    LogKeepsDiscipline(trace, log, committed, x.policy, x.startedAt);
    LogKeepsFaith(trace, log, committed, x.run, x.replies, attempts);
    LogKeepsComplete(trace, log, committed, x.sends, attempts);
  }

  lemma LogKeepsFaith(trace: seq<Event>, log: seq<Event>, committed: bool, run: Run, replies: nat -> Upstream,
                      attempt: int)
    requires Faithful(trace, run, replies, attempt) && StreamLog(log, committed)
    ensures Faithful(trace + log, run, replies, attempt)
  {
    LogShape(log, committed);
    var after := trace + log;
    forall i | |trace| <= i < |after| ensures !after[i].Sent? {
      assert after[i] == log[i - |trace|];
    }
  }

  lemma LogKeepsComplete(trace: seq<Event>, log: seq<Event>, committed: bool, sends: nat -> bool, attempts: int)
    requires Complete(trace, sends, attempts) && StreamLog(log, committed)
    ensures Complete(trace + log, sends, attempts)
  {
    LogShape(log, committed);
    var after := trace + log;
    forall k: nat | 1 <= k <= attempts ensures SentAt(after, k) <==> SentAt(trace, k) {
      if i :| 0 <= i < |trace| && trace[i].Sent? && trace[i].attempt == k {
        assert after[i] == trace[i];
      }
    }
  }

  lemma {:induction false} SilentShowsNothing(trace: seq<Event>)
    requires Silent(trace)
    ensures Shown(trace) == []
    decreases |trace|
  {
    if trace != [] {
      SilentShowsNothing(trace[..|trace| - 1]);
    }
  }

  /** What one attempt shows follows a run that was silent so far. */
  lemma AttemptShows(x: Context, trace: seq<Event>, log: seq<Event>, committed: bool, attempts: int)
    requires Silent(trace) && Sound(x, trace, attempts) && StreamLog(log, committed)
    ensures Sound(x, trace + log, attempts) && CommitsOnce(trace + log) && OnlyShows(log)
    ensures Shown(trace + log) == Shown(log)
    ensures log != [] && IsLast(log[|log| - 1]) ==> IsLast((trace + log)[|trace + log| - 1])
  {
    hide Sound, StreamLog, Shown, CommitsOnce;
    LogKeepsCommit(trace, log, committed);
    LogKeepsSound(x, trace, log, committed, attempts);
    LogShape(log, committed);
    SilentShowsNothing(trace);
    ShownConcat(trace, log);
  }

  lemma NothingShown(trace: seq<Event>, log: seq<Event>)
    ensures log == [] ==> trace + log == trace && Shown(log) == []
  {
  }

  lemma StopsAreFinal(f: Failure)
    requires Stops(false, f) && !f.kind.Uncertain? && !f.kind.StreamInterrupted?
    ensures Final(f)
  {
  }

  /**
   * A finished run: the rounds and the reason to end of a non-streaming run, followed by what the last attempt showed.
   * Once an event was committed no request is sent, every delivery follows the commit, and the final event comes last.
   * The client is shown exactly what the last attempt reached, a prefix of its stream, and all of it on completion.
   */
  ghost predicate Finished(run: Run, policy: Retry.Policy, s: StreamScript, outcome: Outcome, trace: seq<Event>,
                           rounds: seq<Round>, shown: seq<Event>)
    requires policy.Valid()
  {
    var x := StreamContext(run, policy, s);
    && History(x, rounds) && Ended(x, rounds, outcome) && trace == Played(x, rounds) + shown && OnlyShows(shown)
    && Sound(x, trace, Attempted(rounds)) && CommitsOnce(trace)
    && Shown(trace) == (if Attempted(rounds) < |rounds| then [] else ShownBy(s.exchange(|rounds|), run.streamUsage))
    && Shown(trace) <= FullStream(s.exchange(Attempted(rounds)), run.streamUsage)
    && (outcome.Completed? ==>
          && trace != [] && IsLast(trace[|trace| - 1])
          && Shown(trace) == FullStream(s.exchange(Attempted(rounds)), run.streamUsage))
  }

  /** Ending without having shown anything. */
  lemma EndsQuietly(run: Run, policy: Retry.Policy, s: StreamScript, trace: seq<Event>, rounds: seq<Round>,
                    outcome: Outcome)
    requires policy.Valid() && Silent(trace) && Over(StreamContext(run, policy, s), trace, rounds, outcome)
    requires !outcome.Completed?
    requires Attempted(rounds) < |rounds| || ShownBy(s.exchange(|rounds|), run.streamUsage) == []
    ensures Finished(run, policy, s, outcome, trace, rounds, [])
  {
    hide Sound, History, Ended, Played, Attempted, CommitsOnce, Shown, OnlyShows, ShownBy, FullStream, StreamContext;
    hide Retry.Policy.Valid;
    SilentSoFar(trace);
  }

  /** Ending with an attempt that showed its log. */
  lemma EndsShowing(run: Run, policy: Retry.Policy, s: StreamScript, trace: seq<Event>, log: seq<Event>,
                    committed: bool, rounds: seq<Round>, outcome: Outcome)
    requires policy.Valid() && Silent(trace) && Over(StreamContext(run, policy, s), trace, rounds, outcome)
    requires StreamLog(log, committed) && Attempted(rounds) == |rounds|
    requires var x := s.exchange(|rounds|);
             && Shown(log) == ShownBy(x, run.streamUsage) && Shown(log) <= FullStream(x, run.streamUsage)
             && (outcome.Completed? ==>
                   log != [] && IsLast(log[|log| - 1]) && Shown(log) == FullStream(x, run.streamUsage))
    ensures Finished(run, policy, s, outcome, trace + log, rounds, log)
  {
    hide Sound, History, Ended, Played, Attempted, CommitsOnce, Shown, OnlyShows, ShownBy, FullStream, StreamContext;
    hide Retry.Policy.Valid, StreamLog, IsLast;
    AttemptShows(StreamContext(run, policy, s), trace, log, committed, |rounds|);
  }

  /** A whole streaming run; it terminates. */
  method Stream(run: Run, policy: Retry.Policy, s: StreamScript)
    returns (outcome: Outcome, trace: seq<Event>, ghost rounds: seq<Round>, ghost shown: seq<Event>)
    requires policy.Valid()
    ensures Finished(run, policy, s, outcome, trace, rounds, shown)
  {
    hide Choose, Earliest, CapacityFailure, ValueOrNow, NextMove, SelectCapacity, SelectHealthy, Asked, StreamContext;
    hide ExclusionsOK, Retry.Policy.Valid, Extended, AllJustified, ChosenAt, NobodyLeft, Standing, Sound, History;
    hide Ended, Played, Attempted, StreamLog, CommitsOnce, FullStream, Shown, Stops, Final, Ambiguous, StreamSends;
    hide StreamOutcome, Opening, Silent, OnlyShows, IsLast, ShownBy, Over, Finished, ClientFailure, Emission, Reached;
    hide Readable;
    ghost var x := StreamContext(run, policy, s);
    StreamContextFields(run, policy, s);
    var excluded: seq<CandidateID> := [];
    var startedAt := s.world.now(0);
    var tick, attempt := 1, 1;
    trace, rounds, shown := [], [], [];
    StandsAtStart(x);
    NoExclusions(run);
    StartsSilent();
    while true
      invariant attempt >= 1 && |rounds| == attempt - 1 && ExclusionsOK(run, excluded) && shown == []
      invariant Standing(x, trace, rounds, excluded, tick) && Silent(trace)
      decreases Max(0, policy.maxAttempts - attempt), |run.candidates| - |excluded|
    {
      ghost var before, asked := excluded, tick;
      ghost var round := Fresh(x, excluded, tick);
      var selection;
      ghost var questions, reported;
      selection, excluded, tick, questions, reported := AttemptDecision(run, excluded, s.world, tick);
      if selection.Err? {
        SelectionEnds(x, trace, rounds, before, asked);
        EndsQuietly(run, policy, s, trace, rounds + [round], Failed(selection.failure));
        return Failed(selection.failure), trace, rounds + [round], shown;
      }
      var candidate := selection.value;
      var exchange := s.exchange(attempt);
      var committed, error, sent, log := StreamAttempt(exchange, run.streamUsage);
      StreamContextIs(run, policy, s, attempt);
      ExtendedIs(x, trace, candidate, attempt);
      SilentAppend(trace, Sent(candidate.id, attempt, exchange.upstream));
      AttemptCounts(x, trace, rounds, before, asked);
      ghost var sofar := trace;
      if sent {
        trace := trace + [Sent(candidate.id, attempt, exchange.upstream)];
      }
      ghost var quiet := trace;
      trace := trace + log;
      if error.None? {
        AttemptEnds(x, sofar, rounds, before, asked);
        EndsShowing(run, policy, s, quiet, log, committed, rounds + [round], Completed);
        return Completed, trace, rounds + [round], log;
      }
      if committed || error.value.kind.Uncertain? || error.value.kind.StreamInterrupted? {
        AttemptEnds(x, sofar, rounds, before, asked);
        EndsShowing(run, policy, s, quiet, log, committed, rounds + [round], Failed(error.value));
        return Failed(error.value), trace, rounds + [round], log;
      }
      NothingShown(quiet, log);
      if sent && Ambiguous(exchange.upstream) {
        StopsAreFinal(error.value);
      }
      var now := s.world.now(tick);
      var jitter := s.jitter(attempt);
      var next := NextMove(run, policy, jitter, attempt, now, startedAt, error.value, excluded, candidate.id);
      DecisionStands(x, sofar, rounds, before, asked, error.value);
      NextMoveIsSafe(run, policy, jitter, attempt, now, startedAt, error.value, excluded, candidate);
      rounds := rounds + [round];
      tick := tick + 1;
      match next {
        case GiveUp =>
          var failure := ClientFailure(error.value, s.world.now(tick), s.openDuration);
          EndsQuietly(run, policy, s, trace, rounds, Failed(failure));
          return Failed(failure), trace, rounds, shown;
        case TryNext(more) =>
          excluded := more;
        case WaitUntil(more, at) =>
          SilentAppend(trace, Waited(attempt, at));
          excluded := more;
          trace := trace + [Waited(attempt, at)];
          if s.canceled(attempt) {
            EndsQuietly(run, policy, s, trace, rounds, CanceledWhileWaiting);
            return CanceledWhileWaiting, trace, rounds, shown;
          }
      }
      attempt := attempt + 1;
    }
  }
}
