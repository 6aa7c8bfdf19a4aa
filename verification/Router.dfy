/** Weighted routing: eligibility, lowest priority first, and a draw over the weights. */
module Router {
  import opened Common

  type CandidateID = string
  type Capability = string

  /** `cooldownUntil` is zero when the credential is not cooling down. */
  datatype Candidate = Candidate(
    id: CandidateID,
    model: string,
    pool: string,
    modelPublished: bool,
    authorized: bool,
    active: bool,
    capabilities: seq<Capability>,
    cooldownUntil: int,
    priority: int,
    weight: int)

  datatype Requirements = Requirements(
    model: string,
    pool: string,
    capabilities: seq<Capability>,
    excluded: seq<CandidateID>,
    at: int)

  datatype Exclusion =
    | ModelNotPublished
    | ModelMismatch
    | PoolMismatch
    | Unauthorized
    | Inactive
    | Cooling(availableAt: int)
    | ExcludedForAttempt
    | MissingCapability(capability: Capability)

  datatype Evaluation = Evaluation(id: CandidateID, eligible: bool, exclusions: seq<Exclusion>)

  datatype Error = InvalidInput | InvalidCandidate(id: CandidateID) | Duplicate(id: CandidateID) | RandomSource

  datatype Decision = Decision(
    selected: Option<CandidateID>,
    eligible: seq<CandidateID>,
    evaluations: seq<Evaluation>,
    nextAvailableAt: int)

  datatype Result<T> = Ok(value: T) | Err(error: Error)

  // ---------------------------------------------------------------------------------------------
  // Validation
  // ---------------------------------------------------------------------------------------------

  predicate ValidCapabilities(capabilities: seq<Capability>) {
    "" !in capabilities && Distinct(capabilities)
  }

  predicate ValidRequirements(r: Requirements) {
    r.model != "" && r.pool != "" && r.at != 0 && ValidCapabilities(r.capabilities)
  }

  predicate ValidCandidate(c: Candidate) {
    && c.id != "" && c.model != "" && c.pool != ""
    && 0 <= c.priority <= 1000 && 0 <= c.weight <= 1000
    && ValidCapabilities(c.capabilities)
  }

  method CheckCapabilities(capabilities: seq<Capability>) returns (ok: bool)
    ensures ok == ValidCapabilities(capabilities)
  {
    var seen: set<Capability> := {};
    for i := 0 to |capabilities|
      invariant forall c :: c in seen <==> c in capabilities[..i]
      invariant ValidCapabilities(capabilities[..i])
    {
      assert capabilities[..i + 1] == capabilities[..i] + [capabilities[i]];
      if capabilities[i] == "" {
        return false;
      }
      if capabilities[i] in seen {
        assert capabilities[i] in capabilities[..i];
        return false;
      }
      seen := seen + {capabilities[i]};
    }
    assert capabilities[..|capabilities|] == capabilities;
    ok := true;
  }

  // ---------------------------------------------------------------------------------------------
  // Eligibility
  // ---------------------------------------------------------------------------------------------

  function When(condition: bool, reason: Exclusion): seq<Exclusion> {
    if condition then [reason] else []
  }

  function Missing(required: seq<Capability>, offered: seq<Capability>): seq<Exclusion> {
    if required == [] then []
    else
      Missing(required[..|required| - 1], offered)
        + When(required[|required| - 1] !in offered, MissingCapability(required[|required| - 1]))
  }

  function Reasons(r: Requirements, c: Candidate, excluded: set<CandidateID>): seq<Exclusion> {
    When(!c.modelPublished, ModelNotPublished) + When(c.model != r.model, ModelMismatch)
      + When(c.pool != r.pool, PoolMismatch) + When(!c.authorized, Unauthorized) + When(!c.active, Inactive)
      + When(c.cooldownUntil != 0 && r.at < c.cooldownUntil, Cooling(c.cooldownUntil))
      + When(c.id in excluded, ExcludedForAttempt) + Missing(r.capabilities, c.capabilities)
  }

  method EvaluateEligibility(r: Requirements, c: Candidate, excluded: set<CandidateID>)
    returns (reasons: seq<Exclusion>)
    ensures reasons == Reasons(r, c, excluded)
  {
    hide When;
    reasons := When(!c.modelPublished, ModelNotPublished);
    reasons := reasons + When(c.model != r.model, ModelMismatch);
    reasons := reasons + When(c.pool != r.pool, PoolMismatch);
    reasons := reasons + When(!c.authorized, Unauthorized);
    reasons := reasons + When(!c.active, Inactive);
    reasons := reasons + When(c.cooldownUntil != 0 && r.at < c.cooldownUntil, Cooling(c.cooldownUntil));
    reasons := reasons + When(c.id in excluded, ExcludedForAttempt);
    ghost var base := reasons;
    var offered := set capability | capability in c.capabilities;
    for i := 0 to |r.capabilities|
      invariant reasons == base + Missing(r.capabilities[..i], c.capabilities)
    {
      assert r.capabilities[..i + 1][..i] == r.capabilities[..i];
      reasons := reasons + When(r.capabilities[i] !in offered, MissingCapability(r.capabilities[i]));
    }
    assert r.capabilities[..|r.capabilities|] == r.capabilities;
  }

  datatype Scanned = Scanned(evaluations: seq<Evaluation>, eligible: seq<CandidateID>, nextAvailableAt: int)

  /** Earliest end of a cooldown so far, when cooling down is the candidate's only obstacle. */
  function NextAvailable(before: int, reasons: seq<Exclusion>): int {
    if |reasons| == 1 && reasons[0].Cooling? && (before == 0 || reasons[0].availableAt < before)
    then reasons[0].availableAt else before
  }

  function Listed(candidates: seq<Candidate>, id: CandidateID): bool {
    exists i :: 0 <= i < |candidates| && candidates[i].id == id
  }

  function Scan(r: Requirements, excluded: set<CandidateID>, candidates: seq<Candidate>): Result<Scanned> {
    if candidates == [] then Ok(Scanned([], [], 0))
    else
      var earlier, c := candidates[..|candidates| - 1], candidates[|candidates| - 1];
      var before := Scan(r, excluded, earlier);
      if before.Err? then before
      else if !ValidCandidate(c) then Err(InvalidCandidate(c.id))
      else if Listed(earlier, c.id) then Err(Duplicate(c.id))
      else
        var reasons := Reasons(r, c, excluded);
        Ok(Scanned(before.value.evaluations + [Evaluation(c.id, reasons == [], reasons)],
                   if reasons == [] then before.value.eligible + [c.id] else before.value.eligible,
                   NextAvailable(before.value.nextAvailableAt, reasons)))
  }

  lemma {:induction false} ScanStopsEarly(r: Requirements, excluded: set<CandidateID>, candidates: seq<Candidate>,
                                          i: nat)
    requires i <= |candidates| && Scan(r, excluded, candidates[..i]).Err?
    ensures Scan(r, excluded, candidates) == Scan(r, excluded, candidates[..i])
    decreases |candidates|
  {
    hide Reasons, ValidCandidate;
    if i < |candidates| {
      var earlier := candidates[..|candidates| - 1];
      assert earlier[..i] == candidates[..i];
      ScanStopsEarly(r, excluded, earlier, i);
    } else {
      assert candidates[..i] == candidates;
    }
  }

  // ---------------------------------------------------------------------------------------------
  // Order on identifiers
  // ---------------------------------------------------------------------------------------------

  /** Lexicographic order of strings. */
  predicate Less(a: string, b: string) {
    b != [] && (a == [] || a[0] < b[0] || (a[0] == b[0] && Less(a[1..], b[1..])))
  }

  function Insert(id: CandidateID, sorted: seq<CandidateID>): seq<CandidateID> {
    if sorted == [] || Less(id, sorted[0]) then [id] + sorted else [sorted[0]] + Insert(id, sorted[1..])
  }

  function Sort(ids: seq<CandidateID>): seq<CandidateID> {
    if ids == [] then [] else Insert(ids[0], Sort(ids[1..]))
  }

  // ---------------------------------------------------------------------------------------------
  // Selection
  // ---------------------------------------------------------------------------------------------

  function EffectivePriority(priority: int): int { if priority == 0 then 100 else priority }

  function EffectiveWeight(weight: int): int { if weight == 0 then 1 else weight }

  /** The candidate with this identifier; a blank one if there is none. */
  function ByID(id: CandidateID, candidates: seq<Candidate>): Candidate {
    if candidates == [] then Candidate("", "", "", false, false, false, [], 0, 0, 0)
    else if candidates[0].id == id then candidates[0]
    else ByID(id, candidates[1..])
  }

  function PriorityOf(id: CandidateID, candidates: seq<Candidate>): int {
    EffectivePriority(ByID(id, candidates).priority)
  }

  function WeightOf(id: CandidateID, candidates: seq<Candidate>): int {
    EffectiveWeight(ByID(id, candidates).weight)
  }

  function LowestPriority(ids: seq<CandidateID>, candidates: seq<Candidate>): int {
    if ids == [] then 1001
    else Min(PriorityOf(ids[|ids| - 1], candidates), LowestPriority(ids[..|ids| - 1], candidates))
  }

  function AtPriority(ids: seq<CandidateID>, candidates: seq<Candidate>, priority: int): seq<CandidateID> {
    if ids == [] then []
    else
      var rest, id := AtPriority(ids[..|ids| - 1], candidates, priority), ids[|ids| - 1];
      if PriorityOf(id, candidates) != priority then rest else rest + [id]
  }

  function TotalWeight(ids: seq<CandidateID>, candidates: seq<Candidate>): int {
    if ids == [] then 0
    else TotalWeight(ids[..|ids| - 1], candidates) + WeightOf(ids[|ids| - 1], candidates)
  }

  /** The first candidate at which the running weight exceeds the draw. */
  function Pick(ids: seq<CandidateID>, candidates: seq<Candidate>, draw: int): Option<CandidateID> {
    if ids == [] then None
    else
      var left := draw - WeightOf(ids[0], candidates);
      if left < 0 then Some(ids[0]) else Pick(ids[1..], candidates, left)
  }

  /** The candidates the draw is over: eligible ones of lowest priority, in order of identifier. */
  function Weighted(eligible: seq<CandidateID>, candidates: seq<Candidate>): seq<CandidateID> {
    AtPriority(Sort(eligible), candidates, LowestPriority(Sort(eligible), candidates))
  }

  function Excluded(r: Requirements): set<CandidateID> { set id | id in r.excluded }

  function Select(r: Requirements, candidates: seq<Candidate>, random: int -> int): Result<Decision> {
    if !ValidRequirements(r) || "" in r.excluded then Err(InvalidInput)
    else
      var scan := Scan(r, Excluded(r), candidates);
      if scan.Err? then Err(scan.error)
      else
        var Scanned(evaluations, eligible, next) := scan.value;
        if eligible == [] then Ok(Decision(None, [], evaluations, next))
        else
          var weighted := Weighted(eligible, candidates);
          var total := TotalWeight(weighted, candidates);
          var draw := random(total);
          if draw < 0 || draw >= total then Err(RandomSource)
          else Ok(Decision(Pick(weighted, candidates, draw), Sort(eligible), evaluations, next))
  }

  // ---------------------------------------------------------------------------------------------
  // The loops
  // ---------------------------------------------------------------------------------------------

  method CandidatePriority(ids: seq<CandidateID>, candidates: seq<Candidate>) returns (lowest: int)
    ensures lowest == LowestPriority(ids, candidates)
  {
    lowest := 1001;
    for i := 0 to |ids|
      invariant lowest == LowestPriority(ids[..i], candidates)
    {
      assert ids[..i + 1][..i] == ids[..i];
      var priority := PriorityOf(ids[i], candidates);
      if priority < lowest {
        lowest := priority;
      }
    }
    assert ids[..|ids|] == ids;
  }

  method WeighCandidates(ids: seq<CandidateID>, candidates: seq<Candidate>, priority: int)
    returns (weighted: seq<CandidateID>, total: int)
    ensures weighted == AtPriority(ids, candidates, priority) && total == TotalWeight(weighted, candidates)
  {
    weighted, total := [], 0;
    for i := 0 to |ids|
      invariant weighted == AtPriority(ids[..i], candidates, priority) && total == TotalWeight(weighted, candidates)
    {
      assert ids[..i + 1][..i] == ids[..i];
      if PriorityOf(ids[i], candidates) != priority {
        continue;
      }
      assert (weighted + [ids[i]])[..|weighted|] == weighted;
      weighted := weighted + [ids[i]];
      total := total + WeightOf(ids[i], candidates);
    }
    assert ids[..|ids|] == ids;
  }

  method PickCandidate(weighted: seq<CandidateID>, candidates: seq<Candidate>, draw: int)
    returns (selected: Option<CandidateID>)
    ensures selected == Pick(weighted, candidates, draw)
  {
    var left := draw;
    for i := 0 to |weighted|
      invariant Pick(weighted, candidates, draw) == Pick(weighted[i..], candidates, left)
    {
      left := left - WeightOf(weighted[i], candidates);
      if left < 0 {
        return Some(weighted[i]);
      }
    }
    selected := None;
  }

  method ScanCandidates(r: Requirements, excluded: set<CandidateID>, candidates: seq<Candidate>)
    returns (scan: Result<Scanned>)
    ensures scan == Scan(r, excluded, candidates)
  {
    hide Reasons, NextAvailable;
    var evaluations, eligible, next := [], [], 0;
    var seen: set<CandidateID> := {};
    for i := 0 to |candidates|
      invariant Scan(r, excluded, candidates[..i]) == Ok(Scanned(evaluations, eligible, next))
      invariant forall id :: id in seen <==> Listed(candidates[..i], id)
    {
      var c := candidates[i];
      var earlier, longer := candidates[..i], candidates[..i + 1];
      assert longer[..i] == earlier && longer[i] == c;
      var ok := c.id != "" && c.model != "" && c.pool != "" && 0 <= c.priority <= 1000 && 0 <= c.weight <= 1000;
      if ok {
        ok := CheckCapabilities(c.capabilities);
      }
      if !ok {
        ScanStopsEarly(r, excluded, candidates, i + 1);
        return Err(InvalidCandidate(c.id));
      }
      if c.id in seen {
        ScanStopsEarly(r, excluded, candidates, i + 1);
        return Err(Duplicate(c.id));
      }
      ListedStep(candidates, i);
      seen := seen + {c.id};
      var reasons := EvaluateEligibility(r, c, excluded);
      evaluations := evaluations + [Evaluation(c.id, |reasons| == 0, reasons)];
      next := NextAvailable(next, reasons);
      if |reasons| == 0 {
        eligible := eligible + [c.id];
      }
    }
    assert candidates[..|candidates|] == candidates;
    scan := Ok(Scanned(evaluations, eligible, next));
  }

  lemma ListedStep(candidates: seq<Candidate>, i: nat)
    requires i < |candidates|
    ensures forall id :: Listed(candidates[..i + 1], id) <==> Listed(candidates[..i], id) || id == candidates[i].id
  {
    var earlier, longer := candidates[..i], candidates[..i + 1];
    forall id | Listed(earlier, id) ensures Listed(longer, id) {
      var k :| 0 <= k < i && earlier[k].id == id;
      assert longer[k].id == id;
    }
    assert longer[i].id == candidates[i].id;
    forall id | Listed(longer, id) && id != candidates[i].id ensures Listed(earlier, id) {
      var k :| 0 <= k < i + 1 && longer[k].id == id;
      assert earlier[k].id == id;
    }
  }

  method SelectCandidate(r: Requirements, candidates: seq<Candidate>, random: int -> int)
    returns (result: Result<Decision>)
    ensures result == Select(r, candidates, random)
  {
    hide Scan, Sort, LowestPriority, AtPriority, TotalWeight, Pick;
    var ok := r.model != "" && r.pool != "" && r.at != 0;
    if ok {
      ok := CheckCapabilities(r.capabilities);
    }
    if !ok {
      return Err(InvalidInput);
    }
    var excluded: set<CandidateID> := {};
    for i := 0 to |r.excluded|
      invariant excluded == (set id | id in r.excluded[..i]) && "" !in r.excluded[..i]
    {
      if r.excluded[i] == "" {
        return Err(InvalidInput);
      }
      excluded := excluded + {r.excluded[i]};
    }
    assert r.excluded[..|r.excluded|] == r.excluded;
    var scan := ScanCandidates(r, excluded, candidates);
    if scan.Err? {
      return Err(scan.error);
    }
    var Scanned(evaluations, eligible, next) := scan.value;
    if |eligible| == 0 {
      return Ok(Decision(None, [], evaluations, next));
    }
    var sorted := Sort(eligible);
    var priority := CandidatePriority(sorted, candidates);
    var weighted, total := WeighCandidates(sorted, candidates, priority);
    var draw := random(total);
    if draw < 0 || draw >= total {
      return Err(RandomSource);
    }
    var selected := PickCandidate(weighted, candidates, draw);
    result := Ok(Decision(selected, sorted, evaluations, next));
  }
}
