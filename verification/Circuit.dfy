/** The generation-fenced circuit breaker and what every run of acquisitions and completions keeps. */
module Circuit {
  import opened Common

  datatype Mode = Closed | Open | HalfOpen

  datatype Config = Config(failureThreshold: int, successThreshold: int, openDuration: int, halfOpenMaxInFlight: int) {
    predicate Valid() { failureThreshold > 0 && successThreshold > 0 && openDuration > 0 && halfOpenMaxInFlight > 0 }
  }

  /** `retryAt` is zero unless the circuit is open. */
  datatype State = State(mode: Mode, generation: nat, failures: int, successes: int, inFlight: int, retryAt: int)

  datatype Outcome = Succeeded | Failed | Released | Unrecognised

  /** A permit remembers the generation and mode it was granted in. */
  datatype Permit = Permit(generation: nat, mode: Mode, completed: bool)

  const INITIAL := State(Closed, 0, 0, 0, 0, 0)

  function ToOpen(c: Config, s: State, now: int): State {
    State(Open, s.generation + 1, 0, 0, 0, now + c.openDuration)
  }

  function ToHalfOpen(s: State): State {
    State(HalfOpen, s.generation + 1, s.failures, 0, 0, 0)
  }

  function ToClosed(s: State): State {
    State(Closed, s.generation + 1, 0, 0, 0, 0)
  }

  function Acquire(c: Config, s: State, now: int): (State, Option<Permit>) {
    var s := if s.mode == Open && now >= s.retryAt then ToHalfOpen(s) else s;
    if s.mode == Open then (s, None)
    else if s.mode == HalfOpen && s.inFlight >= c.halfOpenMaxInFlight then (s, None)
    else (if s.mode == HalfOpen then s.(inFlight := s.inFlight + 1) else s, Some(Permit(s.generation, s.mode, false)))
  }

  function Record(c: Config, s: State, generation: nat, mode: Mode, outcome: Outcome, now: int): (State, bool) {
    if generation != s.generation || mode != s.mode then (s, false)
    else
      match s.mode
      case Closed =>
        (match outcome
         case Succeeded => s.(failures := 0)
         case Failed =>
           if s.failures + 1 >= c.failureThreshold then ToOpen(c, s, now) else s.(failures := s.failures + 1)
         case _ => s, true)
      case HalfOpen =>
        (var s := if s.inFlight > 0 then s.(inFlight := s.inFlight - 1) else s;
         match outcome
         case Succeeded =>
           if s.successes + 1 >= c.successThreshold then ToClosed(s) else s.(successes := s.successes + 1)
         case Failed => ToOpen(c, s, now)
         case _ => s, true)
      case Open => (s, false)
  }

  class Breaker {
    const config: Config
    var mode: Mode
    var generation: nat
    var failures: int
    var successes: int
    var inFlight: int
    var retryAt: int

    function View(): State
      reads this
    {
      State(mode, generation, failures, successes, inFlight, retryAt)
    }

    constructor (config: Config)
      requires config.Valid()
      ensures this.config == config && View() == INITIAL
    {
      this.config := config;
      mode, generation, failures, successes, inFlight, retryAt := Closed, 0, 0, 0, 0, 0;
    }

    method AcquirePermit(now: int) returns (permit: Option<Permit>)
      modifies this
      ensures (View(), permit) == Acquire(config, old(View()), now)
    {
      if mode == Open && now >= retryAt {
        Change(HalfOpen, 0);
      }
      if mode == Open {
        return None;
      }
      if mode == HalfOpen && inFlight >= config.halfOpenMaxInFlight {
        return None;
      }
      if mode == HalfOpen {
        inFlight := inFlight + 1;
      }
      permit := Some(Permit(generation, mode, false));
    }

    /** The common part of the three transitions; only the way to half-open leaves the failure count alone. */
    method Change(next: Mode, at: int)
      modifies this
      ensures View() == State(next, old(generation) + 1, if next == HalfOpen then old(failures) else 0, 0, 0, at)
    {
      mode := next;
      generation := generation + 1;
      if next != HalfOpen {
        failures := 0;
      }
      successes := 0;
      inFlight := 0;
      retryAt := at;
    }

    method RecordOutcome(permit: Permit, outcome: Outcome, now: int) returns (recorded: bool)
      modifies this
      ensures (View(), recorded) == Record(config, old(View()), permit.generation, permit.mode, outcome, now)
    {
      if permit.generation != generation || permit.mode != mode {
        return false;
      }
      match mode {
        case Closed =>
          match outcome {
            case Succeeded =>
              failures := 0;
            case Failed =>
              failures := failures + 1;
              if failures >= config.failureThreshold {
                Change(Open, now + config.openDuration);
              }
            case _ =>
          }
        case HalfOpen =>
          if inFlight > 0 {
            inFlight := inFlight - 1;
          }
          match outcome {
            case Succeeded =>
              successes := successes + 1;
              if successes >= config.successThreshold {
                Change(Closed, 0);
              }
            case Failed =>
              Change(Open, now + config.openDuration);
            case _ =>
          }
        case Open =>
          return false;
      }
      recorded := true;
    }
  }

  /** A caller's handle on one permit; the first recognised completion uses it up. */
  class Handle {
    const circuit: Breaker
    const generation: nat
    const mode: Mode
    var completed: bool

    constructor (circuit: Breaker, permit: Permit)
      ensures this.circuit == circuit && generation == permit.generation && mode == permit.mode && !completed
    {
      this.circuit, generation, mode, completed := circuit, permit.generation, permit.mode, false;
    }

    method Complete(outcome: Outcome, now: int) returns (recorded: bool)
      modifies this, circuit
      ensures var used := old(completed) || outcome.Unrecognised?;
              && completed == (old(completed) || !outcome.Unrecognised?)
              && (circuit.View(), recorded) ==
                   if used then (old(circuit.View()), false)
                   else Record(circuit.config, old(circuit.View()), generation, mode, outcome, now)
    {
      if outcome.Unrecognised? {
        return false;
      }
      if completed {
        return false;
      }
      completed := true;
      recorded := circuit.RecordOutcome(Permit(generation, mode, true), outcome, now);
    }
  }

  // ---------------------------------------------------------------------------------------------
  // Runs
  // ---------------------------------------------------------------------------------------------

  /** The circuit, every permit granted so far, and the outcomes recorded in the current generation. */
  datatype World = World(circuit: State, permits: seq<Permit>, outcomes: seq<Outcome>)

  datatype Step = AcquireStep(now: int) | CompleteStep(permit: nat, outcome: Outcome, now: int)

  function AcquireIn(c: Config, w: World, now: int): World {
    var (next, permit) := Acquire(c, w.circuit, now);
    World(next, if permit.Some? then w.permits + [permit.value] else w.permits,
          if next.generation == w.circuit.generation then w.outcomes else [])
  }

  /** Complete is idempotent per permit, and an unrecognised outcome does not use the permit up. */
  function CompleteIn(c: Config, w: World, p: nat, outcome: Outcome, now: int): World {
    if p >= |w.permits| || outcome.Unrecognised? || w.permits[p].completed then w
    else
      var permit := w.permits[p];
      var (next, recorded) := Record(c, w.circuit, permit.generation, permit.mode, outcome, now);
      World(next, w.permits[p := permit.(completed := true)],
            if next.generation != w.circuit.generation then []
            else if recorded then w.outcomes + [outcome] else w.outcomes)
  }

  function Apply(c: Config, w: World, step: Step): World {
    match step
    case AcquireStep(now) => AcquireIn(c, w, now)
    case CompleteStep(p, outcome, now) => CompleteIn(c, w, p, outcome, now)
  }

  function Run(c: Config, w: World, steps: seq<Step>): World
    decreases |steps|
  {
    if steps == [] then w else Run(c, Apply(c, w, steps[0]), steps[1..])
  }

  /** Uncompleted permits of one generation. */
  function Outstanding(permits: seq<Permit>, generation: nat): nat {
    if permits == [] then 0
    else
      var last := permits[|permits| - 1];
      Outstanding(permits[..|permits| - 1], generation)
        + if last.generation == generation && !last.completed then 1 else 0
  }

  /** Failures since the last success; released permits do not count. */
  function TrailingFailures(outcomes: seq<Outcome>): nat {
    if outcomes == [] then 0
    else
      var rest := outcomes[..|outcomes| - 1];
      match outcomes[|outcomes| - 1]
      case Failed => TrailingFailures(rest) + 1
      case Succeeded => 0
      case _ => TrailingFailures(rest)
  }

  function SuccessCount(outcomes: seq<Outcome>): nat {
    if outcomes == [] then 0
    else SuccessCount(outcomes[..|outcomes| - 1]) + if outcomes[|outcomes| - 1].Succeeded? then 1 else 0
  }

  /** Permits never outrun the generation, and a generation has one mode. */
  ghost predicate PermitsOK(w: World) {
    && (forall i :: 0 <= i < |w.permits| ==>
          w.permits[i].generation <= w.circuit.generation && w.permits[i].mode != Open)
    && (forall i :: 0 <= i < |w.permits| && w.permits[i].generation == w.circuit.generation ==>
          w.permits[i].mode == w.circuit.mode)
    && (forall i, j :: 0 <= i < j < |w.permits| && w.permits[i].generation == w.permits[j].generation ==>
          w.permits[i].mode == w.permits[j].mode)
  }

  /** The counters mean what they say and stay below their thresholds. */
  ghost predicate CountersOK(c: Config, w: World) {
    var s := w.circuit;
    && s.failures == (if s.mode == Closed then TrailingFailures(w.outcomes) else 0)
    && s.failures < c.failureThreshold
    && s.successes == (if s.mode == HalfOpen then SuccessCount(w.outcomes) else 0)
    && s.successes < c.successThreshold
    && s.inFlight == (if s.mode == HalfOpen then Outstanding(w.permits, s.generation) else 0)
    && s.inFlight <= c.halfOpenMaxInFlight
    && (s.mode == HalfOpen ==> Failed !in w.outcomes)
    && (s.mode == Open ==> w.outcomes == [])
    && (s.mode != Open ==> s.retryAt == 0)
  }

  ghost predicate Inv(c: Config, w: World) { PermitsOK(w) && CountersOK(c, w) }

  lemma OutstandingAppend(permits: seq<Permit>, p: Permit, generation: nat)
    ensures Outstanding(permits + [p], generation)
              == Outstanding(permits, generation) + if p.generation == generation && !p.completed then 1 else 0
  {
    assert (permits + [p])[..|permits|] == permits;
  }

  lemma {:induction false} OutstandingComplete(permits: seq<Permit>, p: nat, generation: nat)
    requires p < |permits| && !permits[p].completed
    ensures Outstanding(permits[p := permits[p].(completed := true)], generation)
              == Outstanding(permits, generation) - if permits[p].generation == generation then 1 else 0
    decreases |permits|
  {
    var last := |permits| - 1;
    var after := permits[p := permits[p].(completed := true)];
    if p == last {
      assert after[..last] == permits[..last];
    } else {
      OutstandingComplete(permits[..last], p, generation);
      assert after[..last] == permits[..last][p := permits[p].(completed := true)];
    }
  }

  lemma {:induction false} OutstandingFresh(permits: seq<Permit>, generation: nat)
    requires forall i :: 0 <= i < |permits| ==> permits[i].generation < generation
    ensures Outstanding(permits, generation) == 0
    decreases |permits|
  {
    if permits != [] {
      OutstandingFresh(permits[..|permits| - 1], generation);
    }
  }

  lemma OutcomesAppend(outcomes: seq<Outcome>, o: Outcome)
    ensures SuccessCount(outcomes + [o]) == SuccessCount(outcomes) + if o.Succeeded? then 1 else 0
    ensures TrailingFailures(outcomes + [o])
              == match o
                 case Failed => TrailingFailures(outcomes) + 1
                 case Succeeded => 0
                 case _ => TrailingFailures(outcomes)
  {
    assert (outcomes + [o])[..|outcomes|] == outcomes;
  }

  /** A new generation has no permits yet. */
  lemma NewGeneration(w: World, next: State, outcomes: seq<Outcome>)
    requires PermitsOK(w) && next.generation > w.circuit.generation
    ensures PermitsOK(World(next, w.permits, outcomes))
  {
  }

  lemma GrantKeepsPermits(w: World, p: Permit, next: State)
    requires PermitsOK(w) && p.generation == w.circuit.generation && p.mode == w.circuit.mode && p.mode != Open
    requires next.generation == w.circuit.generation && next.mode == w.circuit.mode
    ensures PermitsOK(World(next, w.permits + [p], w.outcomes))
  {
    var after := w.permits + [p];
    forall i | 0 <= i < |after| ensures after[i] == p || (i < |w.permits| && after[i] == w.permits[i]) {
    }
  }

  lemma AcquireKeepsPermits(c: Config, w: World, now: int)
    requires PermitsOK(w)
    ensures PermitsOK(AcquireIn(c, w, now))
  {
    hide PermitsOK;
    var after := AcquireIn(c, w, now);
    var probing := w.circuit.mode == Open && now >= w.circuit.retryAt;
    var current := if probing then ToHalfOpen(w.circuit) else w.circuit;
    if probing {
      NewGeneration(w, current, after.outcomes);
    }
    if Acquire(c, w.circuit, now).1.Some? {
      GrantKeepsPermits(World(current, w.permits, after.outcomes), Acquire(c, w.circuit, now).1.value, after.circuit);
    }
  }

  lemma AcquireKeepsCounters(c: Config, w: World, now: int)
    requires Inv(c, w) && c.Valid()
    ensures CountersOK(c, AcquireIn(c, w, now))
  {
    hide Outstanding, TrailingFailures;
    var after := AcquireIn(c, w, now);
    if w.circuit.mode == Open && now >= w.circuit.retryAt {
      OutstandingFresh(w.permits, w.circuit.generation + 1);
    }
    if after.permits != w.permits {
      OutstandingAppend(w.permits, after.permits[|w.permits|], after.circuit.generation);
    }
  }

  lemma CompleteKeepsPermits(c: Config, w: World, p: nat, outcome: Outcome, now: int)
    requires PermitsOK(w)
    ensures PermitsOK(CompleteIn(c, w, p, outcome, now))
  {
  }

  lemma CompleteKeepsCounters(c: Config, w: World, p: nat, outcome: Outcome, now: int)
    requires Inv(c, w) && c.Valid()
    ensures CountersOK(c, CompleteIn(c, w, p, outcome, now))
  {
    hide Outstanding, TrailingFailures, SuccessCount;
    if p < |w.permits| && !outcome.Unrecognised? && !w.permits[p].completed {
      OutstandingComplete(w.permits, p, w.circuit.generation);
      OutcomesAppend(w.outcomes, outcome);
      NoOutcomes();
    }
  }

  lemma NoOutcomes()
    ensures TrailingFailures([]) == 0 && SuccessCount([]) == 0
  {
  }

  lemma StepKeepsInv(c: Config, w: World, step: Step)
    requires Inv(c, w) && c.Valid()
    ensures Inv(c, Apply(c, w, step))
  {
    hide PermitsOK, CountersOK, AcquireIn, CompleteIn;
    match step
    case AcquireStep(now) =>
      AcquireKeepsPermits(c, w, now);
      AcquireKeepsCounters(c, w, now);
    case CompleteStep(p, outcome, now) =>
      CompleteKeepsPermits(c, w, p, outcome, now);
      CompleteKeepsCounters(c, w, p, outcome, now);
  }

  /** Over every run from a fresh circuit the counters are exact, fenced by generation, and below threshold. */
  lemma {:induction false} RunKeepsInv(c: Config, w: World, steps: seq<Step>)
    requires Inv(c, w) && c.Valid()
    ensures Inv(c, Run(c, w, steps))
    decreases |steps|
  {
    hide Inv, Apply;
    if steps != [] {
      StepKeepsInv(c, w, steps[0]);
      RunKeepsInv(c, Apply(c, w, steps[0]), steps[1..]);
    }
  }

  lemma FreshCircuit(c: Config)
    requires c.Valid()
    ensures Inv(c, World(INITIAL, [], []))
  {
  }

  /** A repeated completion changes nothing; a stale one only marks its own permit. */
  lemma StaleCompletionIsIgnored(c: Config, w: World, p: nat, outcome: Outcome, now: int)
    requires Inv(c, w) && p < |w.permits|
    ensures w.permits[p].completed ==> CompleteIn(c, w, p, outcome, now) == w
    ensures w.permits[p].generation != w.circuit.generation ==>
              var after := CompleteIn(c, w, p, outcome, now);
              && after.circuit == w.circuit && after.outcomes == w.outcomes && |after.permits| == |w.permits|
              && forall i :: 0 <= i < |w.permits| && i != p ==> after.permits[i] == w.permits[i]
    ensures w.permits[p].generation == w.circuit.generation && !w.permits[p].completed && !outcome.Unrecognised? ==>
              Record(c, w.circuit, w.permits[p].generation, w.permits[p].mode, outcome, now).1
  {
  }

  ghost predicate Before(steps: seq<Step>, instant: int) {
    forall i :: 0 <= i < |steps| && steps[i].AcquireStep? ==> steps[i].now < instant
  }

  lemma OpenStepIsQuiet(c: Config, w: World, step: Step)
    requires Inv(c, w) && w.circuit.mode == Open && (step.AcquireStep? ==> step.now < w.circuit.retryAt)
    ensures Apply(c, w, step).circuit == w.circuit && |Apply(c, w, step).permits| == |w.permits|
  {
  }

  /** From opening until OpenDuration has passed, no run of requests and late completions gets a permit. */
  lemma {:induction false} NoPermitWhileOpen(c: Config, w: World, steps: seq<Step>)
    requires Inv(c, w) && c.Valid() && w.circuit.mode == Open && Before(steps, w.circuit.retryAt)
    ensures Run(c, w, steps).circuit == w.circuit
    ensures |Run(c, w, steps).permits| == |w.permits|
    decreases |steps|
  {
    hide Inv, Apply;
    if steps != [] {
      OpenStepIsQuiet(c, w, steps[0]);
      StepKeepsInv(c, w, steps[0]);
      NoPermitWhileOpen(c, Apply(c, w, steps[0]), steps[1..]);
    }
  }

  /**
   * A step opens the circuit exactly when it records the failure that completes a streak of FailureThreshold in
   * the closed state, or any failed probe; the retry instant is then a full OpenDuration away.
   */
  lemma OpensExactly(c: Config, w: World, p: nat, outcome: Outcome, now: int)
    requires Inv(c, w) && c.Valid() && p < |w.permits| && w.circuit.mode != Open
    ensures var after := CompleteIn(c, w, p, outcome, now);
            && (after.circuit.mode == Open <==>
                  && outcome == Failed && !w.permits[p].completed && w.permits[p].generation == w.circuit.generation
                  && (w.circuit.mode == HalfOpen || TrailingFailures(w.outcomes) + 1 == c.failureThreshold))
            && (after.circuit.mode == Open ==> after.circuit.retryAt == now + c.openDuration)
  {
    hide TrailingFailures, SuccessCount, Outstanding;
  }

  /**
   * A step closes a half-open circuit exactly when it records success number SuccessThreshold of the current
   * generation; short of that and of a failed probe, the circuit stays half-open.
   */
  lemma ClosesExactly(c: Config, w: World, p: nat, outcome: Outcome, now: int)
    requires Inv(c, w) && c.Valid() && p < |w.permits| && w.circuit.mode != Closed
    ensures var after := CompleteIn(c, w, p, outcome, now);
            && (after.circuit.mode == Closed <==>
                  && w.circuit.mode == HalfOpen && outcome == Succeeded
                  && !w.permits[p].completed && w.permits[p].generation == w.circuit.generation
                  && SuccessCount(w.outcomes) + 1 == c.successThreshold)
            && (after.circuit.mode == Closed ==> after.circuit == INITIAL.(generation := w.circuit.generation + 1))
  {
    hide TrailingFailures, SuccessCount, Outstanding;
  }

  /**
   * A request gets a permit exactly when the circuit is closed, when it is open and OpenDuration has passed, or when
   * it is half-open with fewer probes outstanding than allowed; a closed circuit stays as it is.
   */
  lemma GrantsExactly(c: Config, w: World, now: int)
    requires Inv(c, w) && c.Valid()
    ensures var after, probes := AcquireIn(c, w, now), w.circuit.mode == Open && now >= w.circuit.retryAt;
            && (|after.permits| == |w.permits| + 1 <==>
                  || w.circuit.mode == Closed || probes
                  || (w.circuit.mode == HalfOpen
                      && Outstanding(w.permits, w.circuit.generation) < c.halfOpenMaxInFlight))
            && (|after.permits| == |w.permits| <==> after.permits == w.permits)
            && (after.permits != w.permits ==>
                  after.permits == w.permits + [Permit(after.circuit.generation, after.circuit.mode, false)])
            && (after.circuit.mode == if probes then HalfOpen else w.circuit.mode)
            && (w.circuit.mode == Closed ==> after.circuit == w.circuit)
  {
    hide TrailingFailures, SuccessCount, Outstanding;
  }

  /** Once OpenDuration has passed the next request is let through as a probe. */
  lemma ProbeAfterOpenDuration(c: Config, w: World, now: int)
    requires c.Valid() && w.circuit.mode == Open && now >= w.circuit.retryAt
    ensures Acquire(c, w.circuit, now).1 == Some(Permit(w.circuit.generation + 1, HalfOpen, false))
  {
  }
}
