/** What a routing decision reports: every candidate's obstacles, who is eligible, and when somebody will be. */
module RouterAnswers {
  import opened Common
  import opened Router
  import opened RouterLaws

  // ---------------------------------------------------------------------------------------------
  // Obstacles
  // ---------------------------------------------------------------------------------------------

  /** The condition behind each reason. */
  predicate Obstructs(r: Requirements, c: Candidate, e: Exclusion) {
    match e
    case ModelNotPublished => !c.modelPublished
    case ModelMismatch => c.model != r.model
    case PoolMismatch => c.pool != r.pool
    case Unauthorized => !c.authorized
    case Inactive => !c.active
    case Cooling(at) => c.cooldownUntil != 0 && r.at < c.cooldownUntil && at == c.cooldownUntil
    case ExcludedForAttempt => c.id in r.excluded
    case MissingCapability(k) => k in r.capabilities && k !in c.capabilities
  }

  lemma {:induction false} MissingExactly(required: seq<Capability>, offered: seq<Capability>)
    ensures forall e :: e in Missing(required, offered) <==>
              e.MissingCapability? && e.capability in required && e.capability !in offered
    ensures Distinct(required) ==> Distinct(Missing(required, offered))
    decreases |required|
  {
    if required != [] {
      var front, last := required[..|required| - 1], required[|required| - 1];
      MissingExactly(front, offered);
      assert required == front + [last];
      if Distinct(required) {
        assert last !in front;
      }
    }
  }

  /** The reasons that do not depend on the required capabilities. */
  function Basics(r: Requirements, c: Candidate): seq<Exclusion> {
    When(!c.modelPublished, ModelNotPublished) + When(c.model != r.model, ModelMismatch)
      + When(c.pool != r.pool, PoolMismatch) + When(!c.authorized, Unauthorized) + When(!c.active, Inactive)
      + When(c.cooldownUntil != 0 && r.at < c.cooldownUntil, Cooling(c.cooldownUntil))
      + When(c.id in Excluded(r), ExcludedForAttempt)
  }

  /** The place of a reason in the list. */
  function Rank(e: Exclusion): nat {
    match e
    case ModelNotPublished => 0
    case ModelMismatch => 1
    case PoolMismatch => 2
    case Unauthorized => 3
    case Inactive => 4
    case Cooling(_) => 5
    case ExcludedForAttempt => 6
    case MissingCapability(_) => 7
  }

  /** The obstacles below a rank, each once. */
  ghost predicate Upto(r: Requirements, c: Candidate, reasons: seq<Exclusion>, rank: nat) {
    Distinct(reasons) && forall e :: e in reasons <==> Obstructs(r, c, e) && Rank(e) < rank
  }

  lemma OneMore(r: Requirements, c: Candidate, reasons: seq<Exclusion>, condition: bool, e: Exclusion)
    requires Upto(r, c, reasons, Rank(e))
    requires forall x :: Rank(x) == Rank(e) ==> (Obstructs(r, c, x) <==> condition && x == e)
    ensures Upto(r, c, reasons + When(condition, e), Rank(e) + 1)
  {
    hide Obstructs, Rank;
    var more := reasons + When(condition, e);
    forall x ensures x in more <==> x in reasons || (condition && x == e) {
    }
  }

  lemma BasicsExactly(r: Requirements, c: Candidate)
    ensures Upto(r, c, Basics(r, c), 7)
  {
    hide When, Upto;
    NoReason(r, c);
    var cools := c.cooldownUntil != 0 && r.at < c.cooldownUntil;
    OneMore(r, c, [], !c.modelPublished, ModelNotPublished);
    var one := [] + When(!c.modelPublished, ModelNotPublished);
    OneMore(r, c, one, c.model != r.model, ModelMismatch);
    var two := one + When(c.model != r.model, ModelMismatch);
    OneMore(r, c, two, c.pool != r.pool, PoolMismatch);
    var three := two + When(c.pool != r.pool, PoolMismatch);
    OneMore(r, c, three, !c.authorized, Unauthorized);
    var four := three + When(!c.authorized, Unauthorized);
    OneMore(r, c, four, !c.active, Inactive);
    var five := four + When(!c.active, Inactive);
    OneMore(r, c, five, cools, Cooling(c.cooldownUntil));
    var six := five + When(cools, Cooling(c.cooldownUntil));
    OneMore(r, c, six, c.id in Excluded(r), ExcludedForAttempt);
    assert one == When(!c.modelPublished, ModelNotPublished);
    assert Basics(r, c) == six + When(c.id in Excluded(r), ExcludedForAttempt);
  }

  lemma NoReason(r: Requirements, c: Candidate)
    ensures Upto(r, c, [], 0)
  {
  }

  /** A candidate's reasons are exactly its obstacles, each named once. */
  lemma ReasonsExactly(r: Requirements, c: Candidate)
    ensures forall e :: e in Reasons(r, c, Excluded(r)) <==> Obstructs(r, c, e)
    ensures Distinct(r.capabilities) ==> Distinct(Reasons(r, c, Excluded(r)))
  {
    hide Missing, When;
    BasicsExactly(r, c);
    MissingExactly(r.capabilities, c.capabilities);
    var basics, missing := Basics(r, c), Missing(r.capabilities, c.capabilities);
    assert Reasons(r, c, Excluded(r)) == basics + missing;
    hide Basics, Obstructs, Reasons;
    forall i, j | 0 <= i < |basics| && 0 <= j < |missing| ensures basics[i] != missing[j] {
      assert basics[i] in basics && missing[j] in missing;
    }
  }

  /** Cooling down is all that stands in the candidate's way. */
  predicate OnlyCooling(r: Requirements, c: Candidate) {
    c.cooldownUntil != 0 && r.at < c.cooldownUntil && Qualifies(r, c.(cooldownUntil := 0))
  }

  lemma OnlyCoolingExactly(r: Requirements, c: Candidate)
    requires Distinct(r.capabilities)
    ensures var reasons := Reasons(r, c, Excluded(r));
            OnlyCooling(r, c) <==> |reasons| == 1 && reasons[0] == Cooling(c.cooldownUntil)
    ensures var reasons := Reasons(r, c, Excluded(r));
            |reasons| == 1 && reasons[0].Cooling? ==> reasons[0] == Cooling(c.cooldownUntil)
  {
    hide Reasons;
    ReasonsExactly(r, c);
    var reasons, cooling := Reasons(r, c, Excluded(r)), Cooling(c.cooldownUntil);
    if OnlyCooling(r, c) {
      forall e | e in reasons ensures e == cooling {
        NothingElse(r, c, e);
      }
      assert cooling in reasons;
      assert forall i :: 0 <= i < |reasons| ==> reasons[i] in reasons;
      AllAlike(reasons, cooling);
    }
    if |reasons| == 1 && reasons[0].Cooling? {
      assert reasons[0] in reasons;
      if reasons[0] == cooling {
        Alone(r, c, reasons);
      }
    }
  }

  lemma NothingElse(r: Requirements, c: Candidate, e: Exclusion)
    requires OnlyCooling(r, c) && Obstructs(r, c, e)
    ensures e == Cooling(c.cooldownUntil)
  {
  }

  lemma AllAlike(reasons: seq<Exclusion>, e: Exclusion)
    requires Distinct(reasons) && e in reasons && forall i :: 0 <= i < |reasons| ==> reasons[i] == e
    ensures reasons == [e]
  {
    FirstTwoDiffer(reasons);
  }

  lemma FirstTwoDiffer(reasons: seq<Exclusion>)
    requires Distinct(reasons)
    ensures |reasons| >= 2 ==> reasons[0] != reasons[1]
  {
  }

  lemma Alone(r: Requirements, c: Candidate, reasons: seq<Exclusion>)
    requires reasons == [Cooling(c.cooldownUntil)] && forall e :: e in reasons <==> Obstructs(r, c, e)
    ensures OnlyCooling(r, c)
  {
    assert Cooling(c.cooldownUntil) in reasons;
    assert !Obstructs(r, c, ModelNotPublished) && !Obstructs(r, c, ModelMismatch) && !Obstructs(r, c, PoolMismatch);
    assert !Obstructs(r, c, Unauthorized) && !Obstructs(r, c, Inactive) && !Obstructs(r, c, ExcludedForAttempt);
    forall k | k in r.capabilities ensures k in c.capabilities {
      assert !Obstructs(r, c, MissingCapability(k));
    }
  }

  // ---------------------------------------------------------------------------------------------
  // The scan
  // ---------------------------------------------------------------------------------------------

  /** `at` is the earliest end of a cooldown among candidates that only cool down, zero if there is none. */
  ghost predicate Earliest(r: Requirements, candidates: seq<Candidate>, at: int) {
    if forall c :: c in candidates ==> !OnlyCooling(r, c) then at == 0
    else
      && (exists c :: c in candidates && OnlyCooling(r, c) && c.cooldownUntil == at)
      && (forall c :: c in candidates && OnlyCooling(r, c) ==> at <= c.cooldownUntil)
  }

  lemma EarliestStep(r: Requirements, earlier: seq<Candidate>, c: Candidate, at: int)
    requires Earliest(r, earlier, at)
    ensures !OnlyCooling(r, c) ==> Earliest(r, earlier + [c], at)
    ensures OnlyCooling(r, c) ==>
              Earliest(r, earlier + [c], if at == 0 || c.cooldownUntil < at then c.cooldownUntil else at)
  {
    hide Qualifies;
    var all := earlier + [c];
    forall x ensures x in all <==> x in earlier || x == c {
    }
    assert c in all;
  }

  lemma {:induction false} ScanReports(r: Requirements, candidates: seq<Candidate>)
    requires Scan(r, Excluded(r), candidates).Ok? && Distinct(r.capabilities)
    ensures var scan := Scan(r, Excluded(r), candidates).value;
            && Earliest(r, candidates, scan.nextAvailableAt)
            && |scan.evaluations| == |candidates|
            && forall i :: 0 <= i < |candidates| ==>
                 var reasons := Reasons(r, candidates[i], Excluded(r));
                 scan.evaluations[i] == Evaluation(candidates[i].id, reasons == [], reasons)
    decreases |candidates|
  {
    hide Reasons, ValidCandidate, OnlyCooling, Earliest;
    if candidates == [] {
      NobodyCools(r);
    } else {
      var earlier, c := candidates[..|candidates| - 1], candidates[|candidates| - 1];
      ScanReports(r, earlier);
      assert candidates == earlier + [c];
      OnlyCoolingExactly(r, c);
      EarliestStep(r, earlier, c, Scan(r, Excluded(r), earlier).value.nextAvailableAt);
    }
  }

  lemma NobodyCools(r: Requirements)
    ensures Earliest(r, [], 0)
  {
  }

  /** An evaluation says of its candidate whether it qualifies, and names exactly its obstacles. */
  ghost predicate Describes(r: Requirements, c: Candidate, e: Evaluation) {
    && e.id == c.id && (e.eligible <==> Qualifies(r, c))
    && (forall x :: x in e.exclusions <==> Obstructs(r, c, x)) && Distinct(e.exclusions)
  }

  /**
   * What a decision reports: one evaluation per candidate in order, the sorted identifiers of those that qualify, a
   * selection exactly when there is one, and the instant at which the first merely cooling candidate is back.
   */
  lemma DecisionReports(r: Requirements, candidates: seq<Candidate>, random: int -> int)
    requires Select(r, candidates, random).Ok?
    ensures var d := Select(r, candidates, random).value;
            && |d.evaluations| == |candidates|
            && (forall i :: 0 <= i < |candidates| ==> Describes(r, candidates[i], d.evaluations[i]))
            && Sorted(d.eligible)
            && (forall id :: id in d.eligible <==> exists c :: c in candidates && c.id == id && Qualifies(r, c))
            && (d.selected.Some? <==> d.eligible != [])
            && Earliest(r, candidates, d.nextAvailableAt)
  {
    hide Scan, Sort, Weighted, Pick, TotalWeight, Reasons, Qualifies, Obstructs, Earliest, ValidCapabilities;
    var d, scan := Select(r, candidates, random).value, Scan(r, Excluded(r), candidates).value;
    RequirementsAreDistinct(r);
    ScanReports(r, candidates);
    forall i | 0 <= i < |candidates| ensures Describes(r, candidates[i], d.evaluations[i]) {
      ReasonsExactly(r, candidates[i]);
      EligibleMeansQualified(r, candidates[i]);
    }
    EligibleReports(r, candidates);
    if scan.eligible != [] {
      Selects(r, candidates, random);
    }
    SortedEmpty(scan.eligible);
  }

  lemma RequirementsAreDistinct(r: Requirements)
    requires ValidRequirements(r)
    ensures Distinct(r.capabilities)
  {
  }

  lemma EligibleReports(r: Requirements, candidates: seq<Candidate>)
    requires Scan(r, Excluded(r), candidates).Ok?
    ensures var eligible := Sort(Scan(r, Excluded(r), candidates).value.eligible);
            && Sorted(eligible)
            && forall id :: id in eligible <==> exists c :: c in candidates && c.id == id && Qualifies(r, c)
  {
    hide Scan, Sort, Reasons, Qualifies, Less;
    ScanEligible(r, candidates);
    SortSorts(Scan(r, Excluded(r), candidates).value.eligible);
    forall c ensures Eligible(r, c) <==> Qualifies(r, c) {
      EligibleMeansQualified(r, c);
    }
  }

  lemma Selects(r: Requirements, candidates: seq<Candidate>, random: int -> int)
    requires Select(r, candidates, random).Ok? && Scan(r, Excluded(r), candidates).value.eligible != []
    ensures Select(r, candidates, random).value.selected.Some?
  {
    hide Scan, Sort, Weighted, Pick, TotalWeight, Reasons, ValidCandidate, Eligible, ValidRequirements;
    ScanSucceeds(r, candidates);
    PoolWeights(r, candidates);
    var ids := Pool(r, candidates);
    var draw := random(TotalWeight(ids, candidates));
    var i := StretchOf(ids, candidates, draw);
    PickByStretch(ids, candidates, draw, i);
  }

  // ---------------------------------------------------------------------------------------------
  // Refusals
  // ---------------------------------------------------------------------------------------------

  /** Candidate `i` is the first that is invalid or repeats an identifier. */
  ghost predicate FirstBad(candidates: seq<Candidate>, i: nat, error: Error) {
    && i < |candidates| && AllValid(candidates[..i]) && DistinctCandidates(candidates[..i])
    && if !ValidCandidate(candidates[i]) then error == InvalidCandidate(candidates[i].id)
       else Listed(candidates[..i], candidates[i].id) && error == Duplicate(candidates[i].id)
  }

  /** A scan that fails names the first bad candidate. */
  lemma {:induction false} ScanNamesFirstBad(r: Requirements, candidates: seq<Candidate>) returns (i: nat)
    requires Scan(r, Excluded(r), candidates).Err?
    ensures FirstBad(candidates, i, Scan(r, Excluded(r), candidates).error)
    decreases |candidates|
  {
    hide Reasons, ValidCandidate, NextAvailable, Listed;
    var last := |candidates| - 1;
    var earlier := candidates[..last];
    if Scan(r, Excluded(r), earlier).Err? {
      i := ScanNamesFirstBad(r, earlier);
      assert earlier[..i] == candidates[..i] && earlier[i] == candidates[i];
    } else {
      ScanSucceeds(r, earlier);
      i := last;
    }
  }

  // ---------------------------------------------------------------------------------------------
  // The selection
  // ---------------------------------------------------------------------------------------------

  /** A selected identifier belongs to a qualifying candidate of lowest effective priority. */
  lemma SelectedIsPreferred(r: Requirements, candidates: seq<Candidate>, random: int -> int) returns (c: Candidate)
    requires Select(r, candidates, random).Ok? && Select(r, candidates, random).value.selected.Some?
    ensures Preferred(r, candidates, c) && Select(r, candidates, random).value.selected == Some(c.id)
  {
    hide Scan, Sort, Weighted, Pick, TotalWeight, Reasons, ValidCandidate, Eligible, ValidRequirements, Preferred;
    ScanSucceeds(r, candidates);
    var ids := Pool(r, candidates);
    PickIsMember(ids, candidates, random(TotalWeight(ids, candidates)));
    c := PoolMember(r, candidates, Select(r, candidates, random).value.selected.value);
    PoolIsPreferred(r, candidates, c);
  }

  // ---------------------------------------------------------------------------------------------
  // Defaults
  // ---------------------------------------------------------------------------------------------

  /** Priority 100 and weight 1, where a candidate leaves them at zero. */
  function Explicit(c: Candidate): Candidate {
    c.(priority := if c.priority == 0 then 100 else c.priority, weight := if c.weight == 0 then 1 else c.weight)
  }

  function AllExplicit(candidates: seq<Candidate>): seq<Candidate> {
    seq(|candidates|, i requires 0 <= i < |candidates| => Explicit(candidates[i]))
  }

  lemma ExplicitPrefix(candidates: seq<Candidate>)
    requires candidates != []
    ensures var last := |candidates| - 1;
            && AllExplicit(candidates)[..last] == AllExplicit(candidates[..last])
            && AllExplicit(candidates)[last] == Explicit(candidates[last])
            && AllExplicit(candidates)[0] == Explicit(candidates[0])
            && AllExplicit(candidates)[1..] == AllExplicit(candidates[1..])
  {
  }

  lemma ExplicitIsAlike(r: Requirements, c: Candidate)
    ensures Reasons(r, Explicit(c), Excluded(r)) == Reasons(r, c, Excluded(r))
    ensures ValidCandidate(Explicit(c)) <==> ValidCandidate(c)
    ensures Explicit(c).id == c.id
  {
  }

  lemma ExplicitListed(candidates: seq<Candidate>, id: CandidateID)
    ensures Listed(AllExplicit(candidates), id) <==> Listed(candidates, id)
  {
    assert forall i :: 0 <= i < |candidates| ==> AllExplicit(candidates)[i].id == candidates[i].id;
  }

  lemma {:induction false} ExplicitScan(r: Requirements, candidates: seq<Candidate>)
    ensures Scan(r, Excluded(r), AllExplicit(candidates)) == Scan(r, Excluded(r), candidates)
    decreases |candidates|
  {
    hide Reasons, ValidCandidate, NextAvailable, Listed, AllExplicit, Explicit;
    if candidates == [] {
      NoneExplicit();
    } else {
      ExplicitPrefix(candidates);
      NoneExplicit();
      var earlier, c := candidates[..|candidates| - 1], candidates[|candidates| - 1];
      ExplicitScan(r, earlier);
      ExplicitIsAlike(r, c);
      ExplicitListed(earlier, c.id);
      SameLength(candidates);
    }
  }

  lemma NoneExplicit()
    ensures AllExplicit([]) == []
  {
  }

  lemma SameLength(candidates: seq<Candidate>)
    ensures |AllExplicit(candidates)| == |candidates|
  {
  }

  lemma {:induction false} ExplicitRanks(candidates: seq<Candidate>, id: CandidateID)
    ensures PriorityOf(id, AllExplicit(candidates)) == PriorityOf(id, candidates)
    ensures WeightOf(id, AllExplicit(candidates)) == WeightOf(id, candidates)
    decreases |candidates|
  {
    if candidates == [] {
      NoneExplicit();
    } else {
      ExplicitPrefix(candidates);
      ExplicitRanks(candidates[1..], id);
    }
  }

  /** Leaving priority or weight at zero is the same as giving 100 or 1. */
  lemma DefaultsAreExplicit(r: Requirements, candidates: seq<Candidate>, random: int -> int)
    ensures Select(r, AllExplicit(candidates), random) == Select(r, candidates, random)
  {
    hide Scan, Sort, LowestPriority, AtPriority, TotalWeight, Pick, AllExplicit, PriorityOf, WeightOf;
    ExplicitScan(r, candidates);
    var all := AllExplicit(candidates);
    forall id
      ensures PriorityOf(id, all) == PriorityOf(id, candidates) && WeightOf(id, all) == WeightOf(id, candidates)
    {
      ExplicitRanks(candidates, id);
    }
    var scan := Scan(r, Excluded(r), candidates);
    if scan.Ok? {
      var sorted := Sort(scan.value.eligible);
      PoolDependsOnCandidates(sorted, all, candidates, LowestPriority(sorted, candidates));
      var pool := AtPriority(sorted, candidates, LowestPriority(sorted, candidates));
      PoolDependsOnCandidates(pool, all, candidates, 0);
      PickDependsOnWeights(pool, all, candidates, random(TotalWeight(pool, candidates)));
    }
  }
}
