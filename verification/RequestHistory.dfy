/** The rounds of a request run: when it fails over, waits, gives up, and that it otherwise goes on. */
module RequestHistory {
  import opened Common
  import opened RequestFlow
  import opened RequestTrace
  import Router
  import RouterLaws
  import Retry
  import Backoff

  // ---------------------------------------------------------------------------------------------
  // The decision of the workflow
  // ---------------------------------------------------------------------------------------------

  type Jitter = Backoff.int64 -> Backoff.int64

  function RetryInput(attempt: int, startedAt: int, f: Failure): Retry.Input {
    Retry.Input(attempt, startedAt, FailureClass(f.kind), Retry.Rejected, Retry.Uncommitted, false,
                PolicyRetryAfter(f.retryAfter))
  }

  /** The instant another attempt is scheduled for, if any. */
  function Scheduled(policy: Retry.Policy, jitter: Jitter, attempt: nat, now: int, startedAt: int, f: Failure)
    : Option<int>
    requires policy.Valid()
  {
    var decision := Retry.Decide(policy, jitter, now, RetryInput(attempt, startedAt, f));
    if decision.Ok? && decision.value.Schedule? then Some(decision.value.at) else None
  }

  lemma ScheduledWithinBudgets(policy: Retry.Policy, jitter: Jitter, attempt: nat, now: int, startedAt: int, f: Failure)
    requires policy.Valid() && Scheduled(policy, jitter, attempt, now, startedAt, f).Some?
    ensures attempt < policy.maxAttempts
            && Scheduled(policy, jitter, attempt, now, startedAt, f).value < startedAt + policy.maxElapsed
    ensures !Final(f)
  {
    hide Retry.TotalDelay;
  }

  /** After a failed attempt: fail over at once, wait for another attempt, or give up. */
  datatype Next = TryNext(excluded: seq<CandidateID>) | WaitUntil(excluded: seq<CandidateID>, at: int) | GiveUp

  function NextMove(run: Run, policy: Retry.Policy, jitter: Jitter, attempt: nat, now: int, startedAt: int, f: Failure,
                    excluded: seq<CandidateID>, id: CandidateID): Next
    requires policy.Valid()
  {
    if ShouldTryNextCandidate(f) && |excluded| + 1 < |run.candidates| then TryNext(excluded + [id])
    else
      var at := Scheduled(policy, jitter, attempt, now, startedAt, f);
      if at.None? then GiveUp
      else WaitUntil(if |excluded| + 1 == |run.candidates| then [] else excluded + [id], at.value)
  }

  /** Going on keeps the exclusion list sound, stays within the budgets, and never follows a final failure. */
  lemma NextMoveIsSafe(run: Run, policy: Retry.Policy, jitter: Jitter, attempt: nat, now: int, startedAt: int,
                       f: Failure, excluded: seq<CandidateID>, c: Candidate)
    requires policy.Valid() && ExclusionsOK(run, excluded) && c in run.candidates && c.id !in excluded
    ensures var next := NextMove(run, policy, jitter, attempt, now, startedAt, f, excluded, c.id);
            && (!next.GiveUp? ==> !Final(f) && ExclusionsOK(run, next.excluded))
            && (next.TryNext? ==> next.excluded == excluded + [c.id])
            && (next.WaitUntil? ==> attempt < policy.maxAttempts && next.at < startedAt + policy.maxElapsed)
  {
    hide Scheduled, ExclusionsOK;
    ExcludeFresh(run, excluded, c);
    NoExclusions(run);
    if Scheduled(policy, jitter, attempt, now, startedAt, f).Some? {
      ScheduledWithinBudgets(policy, jitter, attempt, now, startedAt, f);
    }
  }

  // ---------------------------------------------------------------------------------------------
  // When a run can go on
  // ---------------------------------------------------------------------------------------------

  /** A rejection that says nothing about the next credential and cannot have had an effect. */
  predicate CanFailOver(f: Failure) {
    f.replaySafe && f.kind in {Authentication, Permission, Quota, RateLimit, ProviderTemporary}
  }

  /** A failure that time may cure and that cannot have had an effect. */
  predicate Curable(kind: Kind) {
    kind in {RateLimit, ProviderTemporary, StreamInterrupted}
  }

  /** Some candidate is outside the list. */
  predicate Others(run: Run, tried: seq<CandidateID>) {
    exists c :: c in run.candidates && c.id !in tried
  }

  /** The instant of the next attempt that both budgets, the backoff and the upstream's own hint allow, if any. */
  function Due(x: Context, attempt: nat, now: int, f: Failure): Option<int>
    requires x.policy.Valid()
  {
    var delay := Retry.TotalDelay(x.policy, x.jitter(attempt), now, RetryInput(attempt, x.startedAt, f));
    if 0 != x.startedAt <= now && Curable(f.kind) && attempt < x.policy.maxAttempts && delay.Ok?
       && now + delay.value < x.startedAt + x.policy.maxElapsed
    then Some(now + delay.value) else None
  }

  lemma DueIsScheduled(x: Context, attempt: nat, now: int, f: Failure)
    requires x.policy.Valid() && attempt >= 1
    ensures Scheduled(x.policy, x.jitter(attempt), attempt, now, x.startedAt, f) == Due(x, attempt, now, f)
  {
    hide Retry.TotalDelay;
    var input := RetryInput(attempt, x.startedAt, f);
    if Retry.ValidInput(input, now) {
      Retry.ScheduledExactlyWithinBudgets(x.policy, x.jitter(attempt), now, input);
      if Scheduled(x.policy, x.jitter(attempt), attempt, now, x.startedAt, f).Some? {
        Retry.ScheduledAtTotalDelay(x.policy, x.jitter(attempt), now, input);
      }
    }
  }

  /** How long the upstream asked to wait, from `now` on. */
  function Hint(hint: Option<RetryAfter>, now: int): int {
    if hint.None? then 0
    else if hint.value.at.Some? && hint.value.at.value != 0 then Max(0, hint.value.at.value - now)
    else if hint.value.delaySeconds.Some? then hint.value.delaySeconds.value * SECOND
    else 0
  }

  /** The next attempt is due after exactly the longer of the backoff and what the upstream asked for. */
  lemma DueAfterTheLonger(x: Context, attempt: nat, now: int, f: Failure)
    requires x.policy.Valid() && attempt >= 1 && Due(x, attempt, now, f).Some?
    ensures var backoff, hint := Backoff.Delay(x.policy.backoff, attempt, x.jitter(attempt)), Hint(f.retryAfter, now);
            && backoff.Ok?
            && Due(x, attempt, now, f).value == now + Max(backoff.value, hint)
  {
    hide Retry.TotalDelay, Backoff.Delay, Due, Retry.Decide;
    var input := RetryInput(attempt, x.startedAt, f);
    DueIsScheduled(x, attempt, now, f);
    Retry.WaitsForTheLonger(x.policy, x.jitter(attempt), now, input);
  }

  ghost predicate DistinctCandidates(run: Run) {
    forall i, j :: 0 <= i < j < |run.candidates| ==> run.candidates[i].id != run.candidates[j].id
  }

  /** Nothing is ever selected from a list with a repeated identifier. */
  lemma ChosenMeansDistinct(run: Run, excluded: seq<CandidateID>, now: int, draw: int -> int)
    requires Choose(run, excluded, now, draw).Ok?
    ensures DistinctCandidates(run)
  {
    hide Router.Scan, Router.Weighted, Router.Pick, Router.TotalWeight, Router.ValidRequirements, Lookup;
    var r := Router.Requirements(run.model, run.pool, run.capabilities, excluded, now);
    RouterLaws.ScanSucceeds(r, RoutedAll(run));
    var routed := RoutedAll(run);
    forall i, j | 0 <= i < j < |run.candidates| ensures run.candidates[i].id != run.candidates[j].id {
      assert routed[i].id != routed[j].id;
    }
  }

  lemma {:induction false} HealthyMeansDistinct(run: Run, excluded: seq<CandidateID>, world: World, tick: nat,
                                                skipped: bool)
    requires ExclusionsOK(run, excluded) && SelectHealthy(run, excluded, world, tick, skipped).result.Ok?
    ensures DistinctCandidates(run)
  {
    hide Choose, ExclusionsOK;
    ChosenMeansDistinct(run, excluded, world.now(tick), world.draw(tick));
  }

  lemma SelectedMeansDistinct(run: Run, excluded: seq<CandidateID>, world: World, tick: nat, reported: seq<int>)
    requires ExclusionsOK(run, excluded) && SelectCapacity(run, excluded, world, tick, reported).result.Ok?
    ensures DistinctCandidates(run)
  {
    hide SelectHealthy, ExclusionsOK;
    HealthyMeansDistinct(run, excluded, world, tick, false);
  }

  lemma {:induction false} IDsExact(candidates: seq<Candidate>)
    requires forall i, j :: 0 <= i < j < |candidates| ==> candidates[i].id != candidates[j].id
    ensures |IDs(candidates)| == |candidates|
  {
    if candidates != [] {
      var rest, last := candidates[..|candidates| - 1], candidates[|candidates| - 1];
      IDsExact(rest);
      assert candidates == rest + [last];
      forall id ensures id in IDs(candidates) <==> id in IDs(rest) || id == last.id {
        IDsStep(rest, last, id);
      }
      assert last.id !in IDs(rest);
      assert IDs(candidates) == IDs(rest) + {last.id};
    }
  }

  lemma IDsStep(rest: seq<Candidate>, last: Candidate, id: CandidateID)
    ensures id in IDs(rest + [last]) <==> id in IDs(rest) || id == last.id
  {
    var all := rest + [last];
    if i :| 0 <= i < |rest| && rest[i].id == id {
      assert all[i].id == id;
    }
    if id == last.id {
      assert all[|rest|].id == id;
    }
  }

  /** With distinct identifiers, counting the exclusions tells whether anybody is left. */
  lemma OthersByCount(run: Run, tried: seq<CandidateID>)
    requires DistinctCandidates(run) && ExclusionsOK(run, tried)
    ensures Others(run, tried) <==> |tried| < |run.candidates|
  {
    var ids := set id | id in tried;
    DistinctSize(tried);
    IDsExact(run.candidates);
    ExclusionsFit(run, tried);
    forall id | id in ids ensures id in IDs(run.candidates) {
      var c :| c in run.candidates && c.id == id;
      var i :| 0 <= i < |run.candidates| && run.candidates[i] == c;
      assert run.candidates[i].id == id;
    }
    if |tried| < |run.candidates| {
      SomeoneLeft(IDs(run.candidates), ids);
      var id :| id in IDs(run.candidates) && id !in ids;
      var i :| 0 <= i < |run.candidates| && run.candidates[i].id == id;
      assert run.candidates[i] in run.candidates;
    } else if c :| c in run.candidates && c.id !in tried {
      var i :| 0 <= i < |run.candidates| && run.candidates[i] == c;
      assert c.id in IDs(run.candidates);
      Subset(ids + {c.id}, IDs(run.candidates));
    }
  }

  lemma SomeoneLeft<T>(all: set<T>, some: set<T>)
    requires some <= all && |some| < |all|
    ensures exists x :: x in all && x !in some
  {
    var rest := all - some;
    assert all == some + rest;
    var x :| x in rest;
  }

  // ---------------------------------------------------------------------------------------------
  // Rounds
  // ---------------------------------------------------------------------------------------------

  /** One selection: the exclusions and question it starts from, and what it chooses. */
  datatype Round = Round(start: seq<CandidateID>, tick: nat, chosen: Selected)

  ghost predicate RoundOK(x: Context, r: Round) {
    ExclusionsOK(x.run, r.start) && r.chosen == SelectCapacity(x.run, r.start, x.world, r.tick, [])
  }

  function Fresh(x: Context, start: seq<CandidateID>, tick: nat): Round
    requires ExclusionsOK(x.run, start)
  {
    Round(start, tick, SelectCapacity(x.run, start, x.world, tick, []))
  }

  /** The candidates a round leaves behind: those excluded on the way and the one it tried. */
  function Tried(r: Round): seq<CandidateID>
    requires r.chosen.result.Ok?
  {
    r.chosen.excluded + [r.chosen.result.value.id]
  }

  /** The clock after the attempt of round `r`. */
  function ClockAfter(x: Context, r: Round): int { x.world.now(r.chosen.tick) }

  /** Failing over is possible: a rejection of that kind, and a candidate outside the list. */
  predicate FailsOver(x: Context, r: Round, f: Failure)
    requires r.chosen.result.Ok?
  {
    CanFailOver(f) && Others(x.run, Tried(r))
  }

  /** A failure the client could overcome by waiting carries a time to come back; without one it is added. */
  function ClientFailure(f: Failure, now: int, openDuration: int): Failure {
    if f.retryAfter.None? && (f.kind.RateLimit? || f.kind.ProviderTemporary?)
    then f.(retryAfter := Some(RetryAfter(None, Some(now + openDuration)))) else f
  }

  /** How the failure of round `r` is reported when the run gives up. */
  function Reported(x: Context, r: Round, f: Failure): Failure {
    ClientFailure(f, x.world.now(r.chosen.tick + 1), x.openDuration)
  }

  /** The run goes on to a further selection: at once, or after the wait that is due. */
  ghost predicate GoesOn(x: Context, attempt: nat, r: Round, next: Round)
    requires x.policy.Valid()
  {
    && r.chosen.result.Ok? && x.errors(attempt).Some? && !x.stops(attempt) && next.tick == r.chosen.tick + 1
    && var f := x.errors(attempt).value;
       if FailsOver(x, r, f) then next.start == Tried(r)
       else
         && Due(x, attempt, ClockAfter(x, r), f).Some? && !x.canceled(attempt)
         && next.start == if Others(x.run, Tried(r)) then Tried(r) else []
  }

  /** Every round is a selection that follows from the one before. */
  ghost predicate History(x: Context, rounds: seq<Round>)
    requires x.policy.Valid()
  {
    && (forall k :: 0 <= k < |rounds| ==> RoundOK(x, rounds[k]))
    && (rounds != [] ==> rounds[0].start == [] && rounds[0].tick == 1)
    && (forall k: nat :: k + 1 < |rounds| ==> GoesOn(x, k + 1, rounds[k], rounds[k + 1]))
  }

  /**
   * Why a run ended: nobody could be selected; the attempt succeeded, or failed so that the run must stop; or it could
   * neither fail over nor was another attempt due; or it was cancelled while waiting for one.
   */
  ghost predicate EndsWith(x: Context, attempts: nat, last: Round, outcome: Outcome)
    requires x.policy.Valid()
  {
    if last.chosen.result.Err? then outcome == Failed(last.chosen.result.failure)
    else if x.errors(attempts).None? then outcome == Completed
    else
      var f := x.errors(attempts).value;
      if x.stops(attempts) then outcome == Failed(f)
      else
        && !FailsOver(x, last, f)
        && if Due(x, attempts, ClockAfter(x, last), f).None? then outcome == Failed(Reported(x, last, f))
           else x.canceled(attempts) && outcome == CanceledWhileWaiting
  }

  datatype Outcome = Completed | Failed(failure: Failure) | CanceledWhileWaiting

  /** How many attempts the rounds made: a last round that selects nobody makes none. */
  function Attempted(rounds: seq<Round>): nat {
    if rounds == [] || rounds[|rounds| - 1].chosen.result.Ok? then |rounds| else |rounds| - 1
  }

  ghost predicate Ended(x: Context, rounds: seq<Round>, outcome: Outcome)
    requires x.policy.Valid()
  {
    rounds != [] && EndsWith(x, |rounds|, rounds[|rounds| - 1], outcome)
  }

  /** The instant the run waits for after attempt `k`, unless it ended or failed over. */
  function Awaited(x: Context, k: nat, r: Round): Option<int>
    requires x.policy.Valid() && r.chosen.result.Ok?
  {
    if x.errors(k).None? || x.stops(k) || FailsOver(x, r, x.errors(k).value) then None
    else Due(x, k, ClockAfter(x, r), x.errors(k).value)
  }

  /** What round `k` leaves in the trace: its request, if it sent one, and its wait, if one was due. */
  function Step(x: Context, k: nat, r: Round): seq<Event>
    requires x.policy.Valid()
  {
    if r.chosen.result.Err? then []
    else
      (if x.sends(k) then [Sent(r.chosen.result.value.id, k, x.replies(k))] else [])
        + (if Awaited(x, k, r).Some? then [Waited(k, Awaited(x, k, r).value)] else [])
  }

  /** The whole trace the rounds leave. */
  function Played(x: Context, rounds: seq<Round>): seq<Event>
    requires x.policy.Valid()
  {
    if rounds == [] then []
    else Played(x, rounds[..|rounds| - 1]) + Step(x, |rounds|, rounds[|rounds| - 1])
  }

  lemma PlayedNothing(x: Context)
    requires x.policy.Valid()
    ensures Played(x, []) == []
  {
  }

  /** The trace one more round leaves, by how it went. */
  lemma PlayedAppend(x: Context, rounds: seq<Round>, r: Round)
    requires x.policy.Valid()
    ensures var before, after, k := Played(x, rounds), Played(x, rounds + [r]), |rounds| + 1;
            if r.chosen.result.Err? then after == before
            else
              var sent := Extended(x, before, r.chosen.result.value, k);
              after == if Awaited(x, k, r).Some? then sent + [Waited(k, Awaited(x, k, r).value)] else sent
  {
    hide Awaited, Retry.Policy.Valid;
    var before, k := Played(x, rounds), |rounds| + 1;
    assert (rounds + [r])[..|rounds|] == rounds;
    assert Played(x, rounds + [r]) == before + Step(x, k, r);
    StepAppends(x, before, k, r);
  }

  lemma StepAppends(x: Context, before: seq<Event>, k: nat, r: Round)
    requires x.policy.Valid()
    ensures if r.chosen.result.Err? then before + Step(x, k, r) == before
            else
              var sent := Extended(x, before, r.chosen.result.value, k);
              before + Step(x, k, r)
                == if Awaited(x, k, r).Some? then sent + [Waited(k, Awaited(x, k, r).value)] else sent
  {
    hide Awaited, Retry.Policy.Valid;
    if r.chosen.result.Ok? {
      var id := r.chosen.result.value.id;
      if x.sends(k) && Awaited(x, k, r).Some? {
        Twice(before, Sent(id, k, x.replies(k)), Waited(k, Awaited(x, k, r).value));
      }
    }
  }

  lemma Twice(before: seq<Event>, a: Event, b: Event)
    ensures before + ([a] + [b]) == before + [a] + [b]
  {
  }

  lemma HistoryAppend(x: Context, rounds: seq<Round>, start: seq<CandidateID>, tick: nat)
    requires x.policy.Valid() && History(x, rounds) && ContinuesWith(x, rounds, start) && ExclusionsOK(x.run, start)
    requires tick == rounds[|rounds| - 1].chosen.tick + 1
    ensures History(x, rounds + [Fresh(x, start, tick)])
  {
    hide GoesOn, RoundOK;
    var next := Fresh(x, start, tick);
    FreshIsOK(x, start, tick);
    var all := rounds + [next];
    forall k: nat | k + 1 < |all| ensures GoesOn(x, k + 1, all[k], all[k + 1]) {
      if k + 1 < |rounds| {
        assert all[k] == rounds[k] && all[k + 1] == rounds[k + 1];
      }
    }
  }

  lemma FirstRound(x: Context)
    requires x.policy.Valid()
    ensures ExclusionsOK(x.run, []) && History(x, [Fresh(x, [], 1)])
  {
    hide SelectCapacity;
  }

  /** The workflow's decision is to go on exactly when it can. */
  lemma NextMoveGoesOn(x: Context, r: Round, attempt: nat, f: Failure)
    requires x.policy.Valid() && attempt >= 1 && RoundOK(x, r) && r.chosen.result.Ok?
    ensures var next := NextMove(x.run, x.policy, x.jitter(attempt), attempt, ClockAfter(x, r), x.startedAt, f,
                                 r.chosen.excluded, r.chosen.result.value.id);
            var due := Due(x, attempt, ClockAfter(x, r), f);
            match next
            case TryNext(more) => FailsOver(x, r, f) && more == Tried(r)
            case WaitUntil(more, at) =>
              !FailsOver(x, r, f) && due == Some(at) && more == if Others(x.run, Tried(r)) then Tried(r) else []
            case GiveUp => !FailsOver(x, r, f) && due.None?
  {
    hide Due, Scheduled, SelectCapacity, Others, ExclusionsOK;
    SelectedMeansDistinct(x.run, r.start, x.world, r.tick, []);
    ExcludeFresh(x.run, r.chosen.excluded, r.chosen.result.value);
    OthersByCount(x.run, Tried(r));
    ExclusionsFit(x.run, Tried(r));
    DueIsScheduled(x, attempt, ClockAfter(x, r), f);
  }

  /** What the decision after the last round means for the run: it ends, or a further selection follows. */
  lemma NextMoveDecides(x: Context, rounds: seq<Round>, r: Round, f: Failure)
    requires x.policy.Valid() && rounds != [] && rounds[|rounds| - 1] == r && RoundOK(x, r) && r.chosen.result.Ok?
    requires x.errors(|rounds|) == Some(f) && !x.stops(|rounds|)
    ensures var next := NextMove(x.run, x.policy, x.jitter(|rounds|), |rounds|, ClockAfter(x, r), x.startedAt, f,
                                 r.chosen.excluded, r.chosen.result.value.id);
            match next
            case TryNext(more) => ContinuesWith(x, rounds, more) && Awaited(x, |rounds|, r).None?
            case WaitUntil(more, at) =>
              && Awaited(x, |rounds|, r) == Some(at)
              && if x.canceled(|rounds|) then Ended(x, rounds, CanceledWhileWaiting) else ContinuesWith(x, rounds, more)
            case GiveUp => Ended(x, rounds, Failed(Reported(x, r, f))) && Awaited(x, |rounds|, r).None?
  {
    hide Due, NextMove, FailsOver, Others, RoundOK;
    NextMoveGoesOn(x, r, |rounds|, f);
  }

  /** A selection from `start`, with the next question, follows the last round. */
  ghost predicate ContinuesWith(x: Context, rounds: seq<Round>, start: seq<CandidateID>)
    requires x.policy.Valid()
  {
    rounds != [] && var last := rounds[|rounds| - 1];
    forall next: Round :: next.start == start && next.tick == last.chosen.tick + 1 ==> GoesOn(x, |rounds|, last, next)
  }

  lemma FreshIsOK(x: Context, start: seq<CandidateID>, tick: nat)
    requires ExclusionsOK(x.run, start)
    ensures RoundOK(x, Fresh(x, start, tick))
  {
  }

  /** The rounds so far, and how the run ends if its last selection or attempt decides it. */
  lemma LastRound(x: Context, rounds: seq<Round>, last: Round)
    requires x.policy.Valid() && rounds != [] && rounds[|rounds| - 1] == last && History(x, rounds)
    ensures RoundOK(x, last)
    ensures Attempted(rounds) == if last.chosen.result.Ok? then |rounds| else |rounds| - 1
    ensures last.chosen.result.Err? ==> Ended(x, rounds, Failed(last.chosen.result.failure))
    ensures last.chosen.result.Ok? && x.errors(|rounds|).None? ==> Ended(x, rounds, Completed)
    ensures last.chosen.result.Ok? && x.errors(|rounds|).Some? && x.stops(|rounds|) ==>
              Ended(x, rounds, Failed(x.errors(|rounds|).value))
    ensures last.chosen.result.Ok? && (x.errors(|rounds|).None? || x.stops(|rounds|)) ==>
              Awaited(x, |rounds|, last).None?
  {
    hide SelectCapacity, Due, FailsOver;
  }

  // ---------------------------------------------------------------------------------------------
  // One turn of the loop
  // ---------------------------------------------------------------------------------------------

  /** Where a run stands before its next selection. */
  ghost predicate Standing(x: Context, trace: seq<Event>, rounds: seq<Round>, excluded: seq<CandidateID>, tick: nat)
    requires x.policy.Valid()
  {
    && ExclusionsOK(x.run, excluded) && Progress(x, trace, excluded, |rounds|)
    && |rounds| < x.policy.maxAttempts + |excluded|
    && trace == Played(x, rounds) && History(x, rounds + [Fresh(x, excluded, tick)])
  }

  lemma StandsAtStart(x: Context)
    requires x.policy.Valid()
    ensures Standing(x, [], [], [], 1)
  {
    hide Progress, History, ExclusionsOK, Fresh;
    Starts(x);
    FirstRound(x);
    PlayedNothing(x);
    assert [] + [Fresh(x, [], 1)] == [Fresh(x, [], 1)];
  }

  /** A run that ends here, for this reason, with this trace. */
  ghost predicate Over(x: Context, trace: seq<Event>, rounds: seq<Round>, outcome: Outcome)
    requires x.policy.Valid()
  {
    && Sound(x, trace, Attempted(rounds)) && History(x, rounds) && Ended(x, rounds, outcome)
    && trace == Played(x, rounds)
  }

  /** The selection finds nobody, and the run is over. */
  lemma SelectionEnds(x: Context, trace: seq<Event>, rounds: seq<Round>, excluded: seq<CandidateID>, tick: nat)
    requires x.policy.Valid() && Standing(x, trace, rounds, excluded, tick)
    requires Fresh(x, excluded, tick).chosen.result.Err?
    ensures var round := Fresh(x, excluded, tick);
            && Over(x, trace, rounds + [round], Failed(round.chosen.result.failure))
            && Attempted(rounds + [round]) == |rounds|
  {
    hide Progress, Sound, History, ExclusionsOK, Played, Ended, SelectCapacity, Attempted, RoundOK;
    var round := Fresh(x, excluded, tick);
    Selects(x, trace, excluded, excluded, |rounds|);
    LastRound(x, rounds + [round], round);
    PlayedAppend(x, rounds, round);
  }

  /** The trace and the run after the attempt of a round that selected somebody. */
  lemma AttemptStands(x: Context, trace: seq<Event>, rounds: seq<Round>, excluded: seq<CandidateID>, tick: nat)
    requires x.policy.Valid() && Standing(x, trace, rounds, excluded, tick)
    requires Fresh(x, excluded, tick).chosen.result.Ok?
    ensures var round := Fresh(x, excluded, tick);
            var c, all, k := round.chosen.result.value, rounds + [round], |rounds| + 1;
            var after := Extended(x, trace, c, k);
            && Sound(x, after, k) && History(x, all) && Attempted(all) == k && RoundOK(x, round)
            && c in x.run.candidates && c.id !in round.chosen.excluded && ExclusionsOK(x.run, round.chosen.excluded)
            && |excluded| <= |round.chosen.excluded| < |x.run.candidates|
            && k <= x.policy.maxAttempts + |round.chosen.excluded|
            && ((x.sends(k) ==> !Ambiguous(x.replies(k))) ==> Progress(x, after, round.chosen.excluded + [c.id], k))
            && Played(x, all) == (if Awaited(x, k, round).Some? then after + [Waited(k, Awaited(x, k, round).value)]
                                  else after)
  {
    hide Progress, Sound, History, ExclusionsOK, Played, Ended, SelectCapacity, Attempted, Awaited, Ambiguous;
    var round := Fresh(x, excluded, tick);
    var c := round.chosen.result.value;
    Selects(x, trace, excluded, round.chosen.excluded, |rounds|);
    LastRound(x, rounds + [round], round);
    PlayedAppend(x, rounds, round);
    Attempts(x, trace, round.chosen.excluded, c, |rounds| + 1);
    ExcludeFresh(x.run, round.chosen.excluded, c);
  }

  lemma AttemptCounts(x: Context, trace: seq<Event>, rounds: seq<Round>, excluded: seq<CandidateID>, tick: nat)
    requires x.policy.Valid() && Standing(x, trace, rounds, excluded, tick)
    requires Fresh(x, excluded, tick).chosen.result.Ok?
    ensures Attempted(rounds + [Fresh(x, excluded, tick)]) == |rounds| + 1
  {
    hide Standing, SelectCapacity, Retry.Policy.Valid;
  }

  /** The attempt ends the run: it succeeded, or failed so that the run must stop. */
  lemma AttemptEnds(x: Context, trace: seq<Event>, rounds: seq<Round>, excluded: seq<CandidateID>, tick: nat)
    requires x.policy.Valid() && Standing(x, trace, rounds, excluded, tick)
    requires Fresh(x, excluded, tick).chosen.result.Ok?
    requires x.errors(|rounds| + 1).None? || x.stops(|rounds| + 1)
    ensures var round, error := Fresh(x, excluded, tick), x.errors(|rounds| + 1);
            Over(x, Extended(x, trace, round.chosen.result.value, |rounds| + 1), rounds + [round],
                 if error.None? then Completed else Failed(error.value))
  {
    hide Progress, Sound, History, ExclusionsOK, Played, Ended, SelectCapacity, Attempted, Awaited, Ambiguous, RoundOK;
    hide Extended;
    var round := Fresh(x, excluded, tick);
    AttemptStands(x, trace, rounds, excluded, tick);
    LastRound(x, rounds + [round], round);
  }

  /** After any other failure the workflow's decision ends the run or leads to the next selection. */
  lemma DecisionStands(x: Context, trace: seq<Event>, rounds: seq<Round>, excluded: seq<CandidateID>, tick: nat,
                       f: Failure)
    requires x.policy.Valid() && Standing(x, trace, rounds, excluded, tick)
    requires Fresh(x, excluded, tick).chosen.result.Ok?
    requires x.errors(|rounds| + 1) == Some(f) && !x.stops(|rounds| + 1)
    requires x.sends(|rounds| + 1) && Ambiguous(x.replies(|rounds| + 1)) ==> Final(f)
    ensures var round, k := Fresh(x, excluded, tick), |rounds| + 1;
            var c, all := round.chosen.result.value, rounds + [round];
            var after := Extended(x, trace, c, k);
            match NextMove(x.run, x.policy, x.jitter(k), k, ClockAfter(x, round), x.startedAt, f,
                           round.chosen.excluded, c.id)
            case GiveUp => Over(x, after, all, Failed(Reported(x, round, f)))
            case TryNext(more) =>
              Standing(x, after, all, more, round.chosen.tick + 1) && |excluded| < |more| <= |x.run.candidates|
            case WaitUntil(more, at) =>
              && k < x.policy.maxAttempts && |more| <= |x.run.candidates|
              && var waited := after + [Waited(k, at)];
                 if x.canceled(k) then Over(x, waited, all, CanceledWhileWaiting)
                 else Standing(x, waited, all, more, round.chosen.tick + 1)
  {
    hide Progress, Sound, History, ExclusionsOK, Played, Ended, SelectCapacity, Attempted, Awaited, Ambiguous, RoundOK;
    hide Extended, NextMove, ContinuesWith, Final, Due, FailsOver;
    var round, k := Fresh(x, excluded, tick), |rounds| + 1;
    var c, all := round.chosen.result.value, rounds + [round];
    var after := Extended(x, trace, c, k);
    AttemptStands(x, trace, rounds, excluded, tick);
    var next := NextMove(x.run, x.policy, x.jitter(k), k, ClockAfter(x, round), x.startedAt, f,
                         round.chosen.excluded, c.id);
    NextMoveIsSafe(x.run, x.policy, x.jitter(k), k, ClockAfter(x, round), x.startedAt, f, round.chosen.excluded, c);
    NextMoveDecides(x, all, round, f);
    match next {
      case GiveUp =>
      case TryNext(more) =>
        ExclusionsFit(x.run, more);
        HistoryAppend(x, all, more, round.chosen.tick + 1);
      case WaitUntil(more, at) =>
        ExclusionsFit(x.run, more);
        Waits(x, after, round.chosen.excluded + [c.id], more, k, at);
        if !x.canceled(k) {
          HistoryAppend(x, all, more, round.chosen.tick + 1);
        }
    }
  }
}
