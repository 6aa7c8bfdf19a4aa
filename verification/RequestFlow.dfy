/** Selecting an upstream credential for an attempt: routing, shared health, and shared capacity. */
module RequestFlow {
  import opened Common
  import Router
  import RouterLaws
  import Retry

  datatype Kind =
    | InvalidRequest | Authentication | Permission | Quota | AdmissionTimeout | RateLimit | UnsupportedCapability
    | ProviderConfiguration | ProviderTemporary | ProviderPermanent | StreamInterrupted | Uncertain
    | StorageUnavailable | InternalInvariant

  datatype RetryAfter = RetryAfter(delaySeconds: Option<int>, at: Option<int>)

  datatype Failure = Failure(kind: Kind, replaySafe: bool, retryAfter: Option<RetryAfter>)

  datatype Result<T> = Ok(value: T) | Err(failure: Failure)

  type CandidateID = string

  datatype Candidate = Candidate(id: CandidateID, cooldownUntil: Option<int>, priority: int, weight: int)

  datatype Run = Run(candidates: seq<Candidate>, model: string, pool: string, capabilities: seq<string>,
                     streamUsage: bool)

  /** What the coordinator answers when asked for capacity. */
  datatype Acquired = Granted | NoCapacity(retryAt: int) | Refused(failure: Failure)

  /** Every answer of the surroundings, by number of the question: clock, random source, health, capacity. */
  datatype World = World(now: nat -> int, draw: nat -> (int -> int), healthy: nat -> bool, acquire: nat -> Acquired)

  const SECOND := 1_000_000_000

  function StorageFailure(): Failure { Failure(StorageUnavailable, false, None) }

  function CapacityFailure(retryAt: int): Failure {
    Failure(RateLimit, false, Some(RetryAfter(None, Some(retryAt))))
  }

  function FailureClass(kind: Kind): Retry.FailureClass {
    match kind
    case Authentication => Retry.Authentication
    case Permission => Retry.Permission
    case Quota => Retry.Quota
    case RateLimit => Retry.RateLimit
    case ProviderTemporary => Retry.ProviderTemporary
    case ProviderPermanent | ProviderConfiguration => Retry.ProviderPermanent
    case StreamInterrupted => Retry.StreamInterrupted
    case StorageUnavailable => Retry.Storage
    case Uncertain => Retry.Uncertain
    case _ => Retry.InvalidRequest
  }

  predicate ShouldTryNextCandidate(f: Failure) {
    f.replaySafe && (f.kind.Authentication? || f.kind.Permission? || f.kind.Quota? || f.kind.RateLimit?
                     || f.kind.ProviderTemporary?)
  }

  function PolicyRetryAfter(value: Option<RetryAfter>): Option<Retry.RetryAfter> {
    if value.None? then None
    else
      var RetryAfter(delay, at) := value.value;
      Some(Retry.RetryAfter(if delay.Some? then delay.value * SECOND else 0, if at.Some? then at.value else 0))
  }

  function RetryAfterAt(value: Option<RetryAfter>, now: int): Option<int> {
    if value.None? then None
    else if value.value.at.Some? then value.value.at
    else if value.value.delaySeconds.Some? then Some(now + value.value.delaySeconds.value * SECOND)
    else None
  }

  /** The earlier of two instants; a missing or zero instant does not count. */
  function EarlierRetryAt(left: Option<int>, right: Option<int>): Option<int> {
    if left.None? || left.value == 0 then right
    else if right.None? || right.value == 0 || left.value < right.value then left
    else right
  }

  function CircuitUnavailable(retryAt: Option<int>): Failure {
    Failure(ProviderTemporary, false,
            if retryAt.Some? && retryAt.value != 0 then Some(RetryAfter(None, retryAt)) else None)
  }

  function ValueOrNow(value: Option<int>, now: int): int {
    if value.None? || value.value == 0 then now else value.value
  }

  // ---------------------------------------------------------------------------------------------
  // One selection
  // ---------------------------------------------------------------------------------------------

  function Routed(run: Run, c: Candidate): Router.Candidate {
    Router.Candidate(c.id, run.model, run.pool, true, true, true, run.capabilities,
                     if c.cooldownUntil.Some? then c.cooldownUntil.value else 0, c.priority, c.weight)
  }

  function RoutedAll(run: Run): seq<Router.Candidate> {
    seq(|run.candidates|, i requires 0 <= i < |run.candidates| => Routed(run, run.candidates[i]))
  }

  /** The last candidate with this identifier, as filling a map in order leaves it. */
  function Lookup(candidates: seq<Candidate>, id: CandidateID): (c: Option<Candidate>)
    ensures c.Some? ==> c.value in candidates && c.value.id == id
    ensures (exists i :: 0 <= i < |candidates| && candidates[i].id == id) ==> c.Some?
  {
    if candidates == [] then None
    else if candidates[|candidates| - 1].id == id then Some(candidates[|candidates| - 1])
    else
      assert forall i :: 0 <= i < |candidates| - 1 ==> candidates[..|candidates| - 1][i] == candidates[i];
      Lookup(candidates[..|candidates| - 1], id)
  }

  function Choose(run: Run, excluded: seq<CandidateID>, now: int, draw: int -> int): Result<Candidate> {
    var decision := Router.Select(Router.Requirements(run.model, run.pool, run.capabilities, excluded, now),
                                  RoutedAll(run), draw);
    if decision.Err? then Err(Failure(InternalInvariant, false, None))
    else if decision.value.selected.None? then
      Err(Failure(ProviderTemporary, false,
                  if decision.value.nextAvailableAt != 0
                  then Some(RetryAfter(None, Some(decision.value.nextAvailableAt))) else None))
    else
      var c := Lookup(run.candidates, decision.value.selected.value);
      if c.Some? then Ok(c.value) else Err(Failure(InternalInvariant, false, None))
  }

  /** A chosen candidate is one of the run's candidates and is not excluded. */
  lemma ChosenIsFresh(run: Run, excluded: seq<CandidateID>, now: int, draw: int -> int)
    requires Choose(run, excluded, now, draw).Ok?
    ensures var c := Choose(run, excluded, now, draw).value; c in run.candidates && c.id !in excluded
  {
    hide Router.Select;
    RouterLaws.SelectedIsEligible(Router.Requirements(run.model, run.pool, run.capabilities, excluded, now),
                                  RoutedAll(run), draw);
  }

  // ---------------------------------------------------------------------------------------------
  // The exclusion list
  // ---------------------------------------------------------------------------------------------

  ghost predicate HasID(run: Run, id: CandidateID) {
    exists c :: c in run.candidates && c.id == id
  }

  /** Duplicate-free, and only the run's own candidates. */
  ghost predicate ExclusionsOK(run: Run, excluded: seq<CandidateID>) {
    Distinct(excluded) && forall id :: id in excluded ==> HasID(run, id)
  }

  function IDs(candidates: seq<Candidate>): set<CandidateID> {
    set i | 0 <= i < |candidates| :: candidates[i].id
  }

  lemma {:induction false} IDsBounded(candidates: seq<Candidate>)
    ensures |IDs(candidates)| <= |candidates|
  {
    if candidates != [] {
      var rest, last := candidates[..|candidates| - 1], candidates[|candidates| - 1];
      IDsBounded(rest);
      assert candidates == rest + [last];
      forall id | id in IDs(candidates) ensures id in IDs(rest) + {last.id} {
        var i :| 0 <= i < |candidates| && candidates[i].id == id;
        if i < |rest| {
          assert rest[i].id == id;
        }
      }
      Subset(IDs(candidates), IDs(rest) + {last.id});
    }
  }

  lemma {:induction false} Subset<T>(a: set<T>, b: set<T>)
    requires a <= b
    ensures |a| <= |b|
  {
    assert b == a + (b - a);
  }

  lemma {:induction false} DistinctSize(ids: seq<CandidateID>)
    requires Distinct(ids)
    ensures |set id | id in ids| == |ids|
  {
    if ids != [] {
      var rest, last := ids[..|ids| - 1], ids[|ids| - 1];
      DistinctSize(rest);
      assert ids == rest + [last];
      assert last !in rest;
      assert (set id | id in ids) == (set id | id in rest) + {last};
    }
  }

  /** An exclusion list is no longer than the candidate list. */
  lemma ExclusionsFit(run: Run, excluded: seq<CandidateID>)
    requires ExclusionsOK(run, excluded)
    ensures |excluded| <= |run.candidates|
  {
    var ids := set id | id in excluded;
    DistinctSize(excluded);
    IDsBounded(run.candidates);
    forall id | id in ids ensures id in IDs(run.candidates) {
      var c :| c in run.candidates && c.id == id;
      var i :| 0 <= i < |run.candidates| && run.candidates[i] == c;
      assert run.candidates[i].id == id;
    }
    Subset(ids, IDs(run.candidates));
  }

  /** Excluding a fresh candidate keeps the list duplicate-free, so there was room for it. */
  lemma ExcludeFresh(run: Run, excluded: seq<CandidateID>, c: Candidate)
    requires ExclusionsOK(run, excluded) && c in run.candidates && c.id !in excluded
    ensures ExclusionsOK(run, excluded + [c.id])
    ensures |excluded| < |run.candidates|
  {
    var longer := excluded + [c.id];
    forall id | id in longer ensures HasID(run, id) {
    }
    ExclusionsFit(run, longer);
  }

  // ---------------------------------------------------------------------------------------------
  // The two selection loops
  // ---------------------------------------------------------------------------------------------

  /** Questions `from` up to `to` each chose the next entry of `excluded` and found its credential unhealthy. */
  ghost predicate Skipped(run: Run, world: World, base: nat, excluded: seq<CandidateID>, from: nat, to: nat) {
    && from <= to && base + (to - from) == |excluded|
    && forall t: nat :: from <= t < to ==> SkippedAt(run, world, base, excluded, from, t)
  }

  ghost predicate SkippedAt(run: Run, world: World, base: nat, excluded: seq<CandidateID>, from: nat, t: nat) {
    var i := base + t - from;
    && 0 <= i < |excluded| && !world.healthy(t)
    && var choice := Choose(run, excluded[..i], world.now(t), world.draw(t));
       choice.Ok? && choice.value.id == excluded[i]
  }

  lemma SkipOneMore(run: Run, world: World, base: nat, excluded: seq<CandidateID>, from: nat, to: nat, id: CandidateID)
    requires Skipped(run, world, base, excluded, from, to) && !world.healthy(to)
    requires var choice := Choose(run, excluded, world.now(to), world.draw(to)); choice.Ok? && choice.value.id == id
    ensures Skipped(run, world, base, excluded + [id], from, to + 1)
  {
    hide Choose;
    var longer := excluded + [id];
    forall t: nat | from <= t < to + 1 ensures SkippedAt(run, world, base, longer, from, t) {
      var i := base + t - from;
      if t < to {
        assert SkippedAt(run, world, base, excluded, from, t);
        assert longer[..i] == excluded[..i];
      } else {
        assert longer[..i] == excluded;
      }
    }
  }

  /** Where a selection loop stands when it ends. */
  datatype Selected = Selected(result: Result<Candidate>, excluded: seq<CandidateID>, tick: nat)

  ghost predicate SelectedOK(run: Run, excluded: seq<CandidateID>, tick: nat, s: Selected) {
    && ExclusionsOK(run, s.excluded) && excluded <= s.excluded && s.tick > tick
    && (s.result.Ok? ==> s.result.value in run.candidates && s.result.value.id !in s.excluded)
  }

  /** Routes until a credential's shared health admits it, excluding the others; `skipped` once there was one. */
  function SelectHealthy(run: Run, excluded: seq<CandidateID>, world: World, tick: nat, skipped: bool): (s: Selected)
    requires ExclusionsOK(run, excluded)
    ensures SelectedOK(run, excluded, tick, s)
    decreases |run.candidates| - |excluded|
  {
    var now := world.now(tick);
    var choice := Choose(run, excluded, now, world.draw(tick));
    if choice.Err? then
      var failure :=
        if skipped then CircuitUnavailable(RetryAfterAt(choice.failure.retryAfter, now)) else choice.failure;
      Selected(Err(failure), excluded, tick + 1)
    else
      ChosenIsFresh(run, excluded, now, world.draw(tick));
      ExcludeFresh(run, excluded, choice.value);
      if world.healthy(tick) then Selected(choice, excluded, tick + 1)
      else SelectHealthy(run, excluded + [choice.value.id], world, tick + 1, true)
  }

  /** Routes until a credential has shared capacity; `reported` collects the instants at which it returns. */
  function SelectCapacity(run: Run, excluded: seq<CandidateID>, world: World, tick: nat, reported: seq<int>)
    : (s: Selected)
    requires ExclusionsOK(run, excluded)
    ensures SelectedOK(run, excluded, tick, s)
    decreases |run.candidates| - |excluded|
  {
    var s := SelectHealthy(run, excluded, world, tick, false);
    if s.result.Err? then
      if reported == [] then s
      else Selected(Err(CapacityFailure(ValueOrNow(Earliest(reported), world.now(s.tick)))), s.excluded, s.tick + 1)
    else
      ExcludeFresh(run, s.excluded, s.result.value);
      match world.acquire(s.tick)
      case Granted => Selected(s.result, s.excluded, s.tick + 1)
      case Refused(failure) => Selected(Err(failure), s.excluded, s.tick + 1)
      case NoCapacity(retryAt) =>
        SelectCapacity(run, s.excluded + [s.result.value.id], world, s.tick + 1, reported + [retryAt])
  }

  /**
   * Routes until a credential's shared health admits it. Exactly the credentials refused on the way join the
   * exclusion list, so the loop ends; with nobody left the failure carries the router's own hint.
   */
  method CandidateDecision(run: Run, excluded: seq<CandidateID>, world: World, tick: nat)
    returns (r: Result<Candidate>, excluded': seq<CandidateID>, tick': nat)
    requires ExclusionsOK(run, excluded)
    ensures Selected(r, excluded', tick') == SelectHealthy(run, excluded, world, tick, false)
    ensures SelectedOK(run, excluded, tick, Selected(r, excluded', tick'))
    ensures Skipped(run, world, |excluded|, excluded', tick, tick' - 1)
    ensures var now := world.now(tick' - 1);
            var last := Choose(run, excluded', now, world.draw(tick' - 1));
            if last.Ok? then r == last && world.healthy(tick' - 1)
            else if excluded' == excluded then r == last
            else r == Err(CircuitUnavailable(RetryAfterAt(last.failure.retryAfter, now)))
  {
    hide Choose, ExclusionsOK;
    excluded', tick' := excluded, tick;
    var selectionExcluded := excluded;
    var circuitUnavailable := false;
    while true
      invariant ExclusionsOK(run, excluded') && excluded <= excluded'
      invariant Skipped(run, world, |excluded|, excluded', tick, tick')
      invariant selectionExcluded == excluded' && (circuitUnavailable <==> excluded' != excluded)
      invariant SelectHealthy(run, excluded, world, tick, false)
                == SelectHealthy(run, excluded', world, tick', circuitUnavailable)
      decreases |run.candidates| - |excluded'|
    {
      var now := world.now(tick');
      var choice := Choose(run, selectionExcluded, now, world.draw(tick'));
      if choice.Err? {
        if !circuitUnavailable {
          return choice, excluded', tick' + 1;
        }
        var retryAt := EarlierRetryAt(None, RetryAfterAt(choice.failure.retryAfter, now));
        return Err(CircuitUnavailable(retryAt)), excluded', tick' + 1;
      }
      ChosenIsFresh(run, selectionExcluded, now, world.draw(tick'));
      var candidate := choice.value;
      ExcludeFresh(run, excluded', candidate);
      if !world.healthy(tick') {
        SkipOneMore(run, world, |excluded|, excluded', tick, tick', candidate.id);
        circuitUnavailable := true;
        selectionExcluded := selectionExcluded + [candidate.id];
        excluded' := excluded' + [candidate.id];
        tick' := tick' + 1;
        continue;
      }
      return Ok(candidate), excluded', tick' + 1;
    }
  }

  /** The earliest of the reported instants; a zero instant does not count unless there is no other. */
  function Earliest(reported: seq<int>): Option<int> {
    if reported == [] then None
    else EarlierRetryAt(Earliest(reported[..|reported| - 1]), Some(reported[|reported| - 1]))
  }

  lemma {:induction false} EarliestIsMinimum(reported: seq<int>)
    ensures reported == [] <==> Earliest(reported).None?
    ensures Earliest(reported).Some? ==> Earliest(reported).value in reported
    ensures forall i :: 0 <= i < |reported| && reported[i] != 0 ==>
              Earliest(reported).value != 0 && Earliest(reported).value <= reported[i]
  {
    if reported != [] {
      var rest, last := reported[..|reported| - 1], reported[|reported| - 1];
      EarliestIsMinimum(rest);
      assert reported == rest + [last];
    }
  }

  /** The questions put to the coordinator, in order; `reported` are its answers, all of them refusals. */
  ghost predicate Asked(world: World, from: nat, to: nat, questions: seq<nat>, reported: seq<int>) {
    && |questions| == |reported|
    && (forall i :: 0 <= i < |questions| ==>
          from < questions[i] < to && world.acquire(questions[i]) == NoCapacity(reported[i]))
    && (forall i, j :: 0 <= i < j < |questions| ==> questions[i] < questions[j])
  }

  lemma NobodyAsked(world: World, tick: nat)
    ensures Asked(world, tick, tick, [], []) && Earliest([]) == None
  {
  }

  lemma AskedOnceMore(world: World, from: nat, to: nat, questions: seq<nat>, reported: seq<int>, t: nat, at: int)
    requires Asked(world, from, to, questions, reported) && from < t && to <= t && world.acquire(t) == NoCapacity(at)
    ensures Asked(world, from, t + 1, questions + [t], reported + [at])
    ensures Earliest(reported + [at]) == EarlierRetryAt(Earliest(reported), Some(at))
  {
    assert (reported + [at])[..|reported|] == reported;
  }

  lemma AskedUntilLater(world: World, from: nat, to: nat, later: nat, questions: seq<nat>, reported: seq<int>)
    requires Asked(world, from, to, questions, reported) && to <= later
    ensures Asked(world, from, later, questions, reported)
  {
  }

  /** Question `t`, asked with these exclusions, chose this candidate. */
  ghost predicate ChosenAt(run: Run, world: World, excluded: seq<CandidateID>, t: nat, id: CandidateID) {
    var choice := Choose(run, excluded, world.now(t), world.draw(t));
    choice.Ok? && choice.value.id == id
  }

  /** Exclusion `i` was the routing's choice, and its credential was unhealthy or had no capacity. */
  ghost predicate Justified(run: Run, world: World, excluded: seq<CandidateID>, i: nat, from: nat, to: nat)
    requires i < |excluded|
  {
    exists t: nat :: from <= t < to && ChosenAt(run, world, excluded[..i], t, excluded[i])
                     && (!world.healthy(t) || world.acquire(t + 1).NoCapacity?)
  }

  /** Every exclusion from the `base`-th on has its reason. */
  ghost predicate AllJustified(run: Run, world: World, base: nat, excluded: seq<CandidateID>, from: nat, to: nat) {
    forall i: nat :: base <= i < |excluded| ==> Justified(run, world, excluded, i, from, to)
  }

  lemma SkippedJustified(run: Run, world: World, base: nat, excluded: seq<CandidateID>, from: nat, to: nat)
    requires Skipped(run, world, base, excluded, from, to)
    ensures AllJustified(run, world, base, excluded, from, to)
  {
    hide Choose;
    forall i: nat | base <= i < |excluded| ensures Justified(run, world, excluded, i, from, to) {
      var t := from + i - base;
      assert SkippedAt(run, world, base, excluded, from, t);
      assert ChosenAt(run, world, excluded[..i], t, excluded[i]);
    }
  }

  lemma JustifiedChain(run: Run, world: World, base: nat, a: seq<CandidateID>, b: seq<CandidateID>, from: nat,
                       mid: nat, to: nat)
    requires AllJustified(run, world, base, a, from, mid) && a <= b && from <= mid <= to
    requires AllJustified(run, world, |a|, b, mid, to)
    ensures AllJustified(run, world, base, b, from, to)
  {
    hide Choose, ChosenAt;
    forall i: nat | base <= i < |b| ensures Justified(run, world, b, i, from, to) {
      if i < |a| {
        assert b[..i] == a[..i];
        assert Justified(run, world, a, i, from, mid);
      } else {
        assert Justified(run, world, b, i, mid, to);
      }
    }
  }

  /** The candidate just chosen joins for lack of capacity. */
  lemma JustifiedOnceMore(run: Run, world: World, base: nat, excluded: seq<CandidateID>, id: CandidateID, from: nat,
                          t: nat)
    requires AllJustified(run, world, base, excluded, from, t) && from <= t
    requires ChosenAt(run, world, excluded, t, id) && world.acquire(t + 1).NoCapacity?
    ensures AllJustified(run, world, base, excluded + [id], from, t + 2)
  {
    hide Choose, ChosenAt;
    var longer, to := excluded + [id], t + 2;
    forall i: nat | base <= i < |longer| ensures Justified(run, world, longer, i, from, to) {
      if i < |excluded| {
        assert longer[..i] == excluded[..i];
        assert Justified(run, world, excluded, i, from, t);
      } else {
        assert longer[..i] == excluded;
        assert ChosenAt(run, world, longer[..i], t, longer[i]);
      }
    }
  }

  lemma NothingToJustify(run: Run, world: World, excluded: seq<CandidateID>, from: nat, to: nat)
    ensures AllJustified(run, world, |excluded|, excluded, from, to)
  {
  }

  /** Routing with these exclusions, as question `t`, finds nobody. */
  ghost predicate NobodyLeft(run: Run, world: World, excluded: seq<CandidateID>, t: nat) {
    Choose(run, excluded, world.now(t), world.draw(t)).Err?
  }

  /**
   * Routes until a credential has shared capacity. Success is a granted candidate outside the exclusion list. Each
   * candidate the coordinator refused for lack of capacity is excluded, and `reported` are exactly the instants it
   * gave; nobody else is excluded but for health. A refusal for another reason is passed on; otherwise it gives up
   * only when routing finds nobody else, and the failure is the selection's own, or names the earliest of those
   * instants.
   */
  method AttemptDecision(run: Run, excluded: seq<CandidateID>, world: World, tick: nat)
    returns (r: Result<Candidate>, excluded': seq<CandidateID>, tick': nat, ghost questions: seq<nat>,
             ghost reported: seq<int>)
    requires ExclusionsOK(run, excluded)
    ensures Selected(r, excluded', tick') == SelectCapacity(run, excluded, world, tick, [])
    ensures SelectedOK(run, excluded, tick, Selected(r, excluded', tick'))
    ensures Asked(world, tick, tick', questions, reported) && |excluded'| >= |excluded| + |reported|
    ensures AllJustified(run, world, |excluded|, excluded', tick, tick' - 1)
    ensures r.Ok? ==>
              && |excluded'| < |run.candidates| && world.acquire(tick' - 1).Granted?
              && tick' - 2 >= tick && ChosenAt(run, world, excluded', tick' - 2, r.value.id) && world.healthy(tick' - 2)
    ensures r.Err? ==>
              || (tick' - 2 >= tick && !NobodyLeft(run, world, excluded', tick' - 2)
                  && world.acquire(tick' - 1) == Refused(r.failure))
              || (tick' - 2 >= tick && NobodyLeft(run, world, excluded', tick' - 2) && reported != []
                  && r.failure == CapacityFailure(ValueOrNow(Earliest(reported), world.now(tick' - 1))))
              || (NobodyLeft(run, world, excluded', tick' - 1) && reported == []
                  && r == SelectHealthy(run, excluded, world, tick, false).result)
  {
    hide Choose, ExclusionsOK, SelectHealthy, Skipped, Asked, Earliest, AllJustified;
    NobodyAsked(world, tick);
    NothingToJustify(run, world, excluded, tick, tick);
    excluded', tick', questions, reported := excluded, tick, [], [];
    var earliest: Option<int> := None;
    var capacityUnavailable := false;
    while true
      invariant ExclusionsOK(run, excluded') && excluded <= excluded' && tick' >= tick
      invariant earliest == Earliest(reported) && (capacityUnavailable <==> reported != [])
      invariant Asked(world, tick, tick', questions, reported) && |excluded'| >= |excluded| + |reported|
      invariant reported == [] ==> excluded' == excluded && tick' == tick
      invariant AllJustified(run, world, |excluded|, excluded', tick, tick')
      invariant SelectCapacity(run, excluded, world, tick, []) == SelectCapacity(run, excluded', world, tick', reported)
      decreases |run.candidates| - |excluded'|
    {
      var selection;
      ghost var before, sofar := tick', excluded';
      selection, excluded', tick' := CandidateDecision(run, excluded', world, tick');
      ExclusionsFit(run, excluded');
      SkippedJustified(run, world, |sofar|, excluded', before, tick' - 1);
      JustifiedChain(run, world, |excluded|, sofar, excluded', tick, before, tick' - 1);
      NothingToJustify(run, world, excluded', tick' - 1, tick');
      JustifiedChain(run, world, |excluded|, excluded', excluded', tick, tick' - 1, tick');
      AskedUntilLater(world, tick, before, tick' + 1, questions, reported);
      AskedUntilLater(world, tick, before, tick', questions, reported);
      if selection.Err? {
        if capacityUnavailable {
          r := Err(CapacityFailure(ValueOrNow(earliest, world.now(tick'))));
          tick' := tick' + 1;
          return;
        }
        r := selection;
        return;
      }
      var candidate := selection.value;
      ExcludeFresh(run, excluded', candidate);
      var acquired := world.acquire(tick');
      tick' := tick' + 1;
      match acquired {
        case Granted =>
          r := Ok(candidate);
          return;
        case Refused(failure) =>
          r := Err(failure);
          return;
        case NoCapacity(retryAt) =>
          capacityUnavailable := true;
          earliest := EarlierRetryAt(earliest, Some(retryAt));
          AskedOnceMore(world, tick, tick' - 1, questions, reported, tick' - 1, retryAt);
          questions, reported := questions + [tick' - 1], reported + [retryAt];
          JustifiedOnceMore(run, world, |excluded|, excluded', candidate.id, tick, tick' - 2);
          excluded' := excluded' + [candidate.id];
      }
    }
  }
}
