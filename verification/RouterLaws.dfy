/** The router's draw is exact, total, and indifferent to the order in which candidates are listed. */
module RouterLaws {
  import opened Common
  import opened Router

  // ---------------------------------------------------------------------------------------------
  // Order
  // ---------------------------------------------------------------------------------------------

  lemma {:induction false} LessIsTransitive(a: string, b: string, c: string)
    requires Less(a, b) && Less(b, c)
    ensures Less(a, c)
  {
    if a != [] && a[0] == b[0] && b[0] == c[0] {
      LessIsTransitive(a[1..], b[1..], c[1..]);
    }
  }

  lemma {:induction false} LessIsIrreflexive(a: string)
    ensures !Less(a, a)
  {
    if a != [] {
      LessIsIrreflexive(a[1..]);
    }
  }

  lemma {:induction false} LessIsTotal(a: string, b: string)
    ensures Less(a, b) || Less(b, a) || a == b
  {
    if a != [] && b != [] && a[0] == b[0] {
      LessIsTotal(a[1..], b[1..]);
      if a[1..] == b[1..] {
        assert a == [a[0]] + a[1..] && b == [b[0]] + b[1..];
      }
    }
  }

  ghost predicate Sorted(ids: seq<CandidateID>) {
    forall i, j :: 0 <= i < j < |ids| ==> Less(ids[i], ids[j])
  }

  lemma {:induction false} InsertMembers(id: CandidateID, sorted: seq<CandidateID>)
    ensures forall x :: x in Insert(id, sorted) <==> x == id || x in sorted
  {
    hide Less;
    if sorted != [] && !Less(id, sorted[0]) {
      InsertMembers(id, sorted[1..]);
      assert sorted == [sorted[0]] + sorted[1..];
    }
  }

  lemma {:induction false} InsertSorts(id: CandidateID, sorted: seq<CandidateID>)
    requires Sorted(sorted) && id !in sorted
    ensures Sorted(Insert(id, sorted))
  {
    hide Less;
    if sorted != [] {
      if Less(id, sorted[0]) {
        forall j | 0 <= j < |sorted| ensures Less(id, sorted[j]) {
          if j > 0 {
            LessIsTransitive(id, sorted[0], sorted[j]);
          }
        }
      } else {
        LessIsTotal(id, sorted[0]);
        var rest := sorted[1..];
        InsertSorts(id, rest);
        InsertMembers(id, rest);
        assert forall i :: 0 <= i < |rest| ==> rest[i] == sorted[i + 1];
        PrependSorted(sorted[0], Insert(id, rest));
      }
    }
  }

  lemma PrependSorted(first: CandidateID, rest: seq<CandidateID>)
    requires Sorted(rest) && forall x :: x in rest ==> Less(first, x)
    ensures Sorted([first] + rest)
  {
    hide Less;
    var all := [first] + rest;
    forall i, j | 0 <= i < j < |all| ensures Less(all[i], all[j]) {
      assert all[j] == rest[j - 1] && all[j] in rest;
      if i > 0 {
        assert all[i] == rest[i - 1];
      }
    }
  }

  lemma {:induction false} SortSorts(ids: seq<CandidateID>)
    requires Distinct(ids)
    ensures Sorted(Sort(ids)) && forall x :: x in Sort(ids) <==> x in ids
  {
    hide Less, Insert;
    if ids != [] {
      SortSorts(ids[1..]);
      InsertMembers(ids[0], Sort(ids[1..]));
      InsertSorts(ids[0], Sort(ids[1..]));
      assert ids == [ids[0]] + ids[1..];
    }
  }

  lemma SortedIsDistinct(ids: seq<CandidateID>)
    requires Sorted(ids)
    ensures Distinct(ids)
  {
    hide Less;
    forall i, j | 0 <= i < j < |ids| ensures ids[i] != ids[j] {
      LessIsIrreflexive(ids[i]);
    }
  }

  lemma FirstsAgree(a: seq<CandidateID>, b: seq<CandidateID>)
    requires Sorted(a) && Sorted(b) && a != [] && b != [] && a[0] in b && b[0] in a
    ensures a[0] == b[0]
  {
    hide Less;
    var i :| 0 <= i < |b| && b[i] == a[0];
    var j :| 0 <= j < |a| && a[j] == b[0];
    if i > 0 && j > 0 {
      LessIsTransitive(a[0], b[0], a[0]);
      LessIsIrreflexive(a[0]);
    }
  }

  /** A sorted listing is determined by its members. */
  lemma {:induction false} SortedIsUnique(a: seq<CandidateID>, b: seq<CandidateID>)
    requires Sorted(a) && Sorted(b) && forall x :: x in a <==> x in b
    ensures a == b
    decreases |a|
  {
    hide Less;
    assert (a != [] ==> a[0] in a) && (b != [] ==> b[0] in b);
    if a != [] && b != [] {
      FirstsAgree(a, b);
      SortedIsDistinct(a);
      SortedIsDistinct(b);
      assert a == [a[0]] + a[1..] && b == [b[0]] + b[1..];
      forall x ensures x in a[1..] <==> x in b[1..] {
        assert x in a[1..] <==> x in a && x != a[0];
        assert x in b[1..] <==> x in b && x != b[0];
      }
      SortedIsUnique(a[1..], b[1..]);
    }
  }

  // ---------------------------------------------------------------------------------------------
  // Which candidates the draw is over
  // ---------------------------------------------------------------------------------------------

  ghost predicate DistinctCandidates(candidates: seq<Candidate>) {
    forall i, j :: 0 <= i < j < |candidates| ==> candidates[i].id != candidates[j].id
  }

  ghost predicate AllValid(candidates: seq<Candidate>) {
    forall i :: 0 <= i < |candidates| ==> ValidCandidate(candidates[i])
  }

  predicate Eligible(r: Requirements, c: Candidate) {
    Reasons(r, c, Excluded(r)) == []
  }

  /** Nothing stands in a candidate's way. */
  predicate Qualifies(r: Requirements, c: Candidate) {
    && c.modelPublished && c.model == r.model && c.pool == r.pool && c.authorized && c.active
    && (c.cooldownUntil == 0 || c.cooldownUntil <= r.at)
    && c.id !in r.excluded
    && (forall i :: 0 <= i < |r.capabilities| ==> r.capabilities[i] in c.capabilities)
  }

  lemma {:induction false} NothingMissing(required: seq<Capability>, offered: seq<Capability>)
    ensures Missing(required, offered) == [] <==> forall i :: 0 <= i < |required| ==> required[i] in offered
    decreases |required|
  {
    if required != [] {
      NothingMissing(required[..|required| - 1], offered);
      assert required == required[..|required| - 1] + [required[|required| - 1]];
    }
  }

  /** The list of reasons is empty exactly for a candidate that qualifies on every count. */
  lemma EligibleMeansQualified(r: Requirements, c: Candidate)
    ensures Eligible(r, c) <==> Qualifies(r, c)
  {
    hide Missing;
    NothingMissing(r.capabilities, c.capabilities);
  }

  /** Some eligible candidate has this identifier. */
  ghost predicate EligibleID(r: Requirements, candidates: seq<Candidate>, id: CandidateID) {
    exists c :: c in candidates && c.id == id && Eligible(r, c)
  }

  /** An eligible candidate of lowest effective priority. */
  ghost predicate Preferred(r: Requirements, candidates: seq<Candidate>, c: Candidate) {
    && c in candidates && Eligible(r, c)
    && (forall c' :: c' in candidates && Eligible(r, c') ==>
          EffectivePriority(c.priority) <= EffectivePriority(c'.priority))
  }

  lemma {:induction false} ScanSucceeds(r: Requirements, candidates: seq<Candidate>)
    ensures Scan(r, Excluded(r), candidates).Ok? <==> AllValid(candidates) && DistinctCandidates(candidates)
    decreases |candidates|
  {
    hide Reasons, ValidCandidate, NextAvailable;
    if candidates != [] {
      var earlier, c := candidates[..|candidates| - 1], candidates[|candidates| - 1];
      ScanSucceeds(r, earlier);
      assert candidates == earlier + [c];
      if Scan(r, Excluded(r), candidates).Ok? {
        forall i | 0 <= i < |earlier| ensures candidates[i].id != c.id {
          assert earlier[i].id == candidates[i].id;
        }
      }
    }
  }

  lemma {:induction false} ScanEligible(r: Requirements, candidates: seq<Candidate>)
    requires Scan(r, Excluded(r), candidates).Ok?
    ensures var eligible := Scan(r, Excluded(r), candidates).value.eligible;
            && (forall id :: id in eligible <==> EligibleID(r, candidates, id))
            && Distinct(eligible)
    decreases |candidates|
  {
    hide Reasons, ValidCandidate, NextAvailable;
    if candidates != [] {
      var earlier, c := candidates[..|candidates| - 1], candidates[|candidates| - 1];
      ScanEligible(r, earlier);
      assert candidates == earlier + [c];
      forall id
        ensures EligibleID(r, candidates, id) <==> EligibleID(r, earlier, id) || (id == c.id && Eligible(r, c))
      {
        EligibleStep(r, earlier, c, id);
      }
      forall id | EligibleID(r, earlier, id) ensures Listed(earlier, id) {
      }
    }
  }

  lemma EligibleStep(r: Requirements, earlier: seq<Candidate>, c: Candidate, id: CandidateID)
    ensures EligibleID(r, earlier + [c], id) <==> EligibleID(r, earlier, id) || (id == c.id && Eligible(r, c))
  {
    hide Eligible;
    if EligibleID(r, earlier, id) {
      var x :| x in earlier && x.id == id && Eligible(r, x);
      assert x in earlier + [c];
    }
    if id == c.id && Eligible(r, c) {
      assert c in earlier + [c];
    }
  }

  lemma {:induction false} ByIDFinds(candidates: seq<Candidate>, c: Candidate)
    requires DistinctCandidates(candidates) && c in candidates
    ensures ByID(c.id, candidates) == c
    decreases |candidates|
  {
    var i :| 0 <= i < |candidates| && candidates[i] == c;
    if i > 0 {
      assert candidates[1..][i - 1] == c;
      ByIDFinds(candidates[1..], c);
    }
  }

  lemma {:induction false} LowestIsMinimum(ids: seq<CandidateID>, candidates: seq<Candidate>)
    ensures forall id :: id in ids ==> LowestPriority(ids, candidates) <= PriorityOf(id, candidates)
    ensures ids != [] ==> LowestPriority(ids, candidates) == 1001
                          || exists id :: id in ids && PriorityOf(id, candidates) == LowestPriority(ids, candidates)
    decreases |ids|
  {
    hide ByID;
    if ids != [] {
      var rest, last := ids[..|ids| - 1], ids[|ids| - 1];
      LowestIsMinimum(rest, candidates);
      assert ids == rest + [last];
      if LowestPriority(ids, candidates) == PriorityOf(last, candidates) {
        assert last in ids;
      } else if rest != [] && LowestPriority(rest, candidates) != 1001 {
        var id :| id in rest && PriorityOf(id, candidates) == LowestPriority(rest, candidates);
        assert id in ids;
      }
    }
  }

  lemma {:induction false} AtPriorityMembers(ids: seq<CandidateID>, candidates: seq<Candidate>, p: int)
    ensures forall id :: id in AtPriority(ids, candidates, p) <==> id in ids && PriorityOf(id, candidates) == p
    ensures Distinct(ids) ==> Distinct(AtPriority(ids, candidates, p))
    decreases |ids|
  {
    hide PriorityOf;
    if ids != [] {
      var rest, last := ids[..|ids| - 1], ids[|ids| - 1];
      AtPriorityMembers(rest, candidates, p);
      assert ids == rest + [last];
      if Distinct(ids) {
        assert last !in rest;
      }
    }
  }

  /** What a successful scan leaves to draw from. */
  function Pool(r: Requirements, candidates: seq<Candidate>): seq<CandidateID> {
    var scan := Scan(r, Excluded(r), candidates);
    if scan.Err? then [] else Weighted(scan.value.eligible, candidates)
  }

  ghost predicate Accepted(r: Requirements, candidates: seq<Candidate>) {
    ValidRequirements(r) && "" !in r.excluded && AllValid(candidates) && DistinctCandidates(candidates)
  }

  lemma PoolIsPreferred(r: Requirements, candidates: seq<Candidate>, c: Candidate)
    requires Accepted(r, candidates) && c in candidates
    ensures c.id in Pool(r, candidates) <==> Preferred(r, candidates, c)
    ensures Distinct(Pool(r, candidates))
  {
    hide Scan, Sort, LowestPriority, AtPriority, Reasons, Eligible, ByID, ValidCandidate;
    ScanSucceeds(r, candidates);
    ScanEligible(r, candidates);
    var eligible := Scan(r, Excluded(r), candidates).value.eligible;
    var sorted := Sort(eligible);
    SortSorts(eligible);
    SortedIsDistinct(sorted);
    LowestIsMinimum(sorted, candidates);
    AtPriorityMembers(sorted, candidates, LowestPriority(sorted, candidates));
    EligibleIsUnique(r, candidates, c);
    ByIDFinds(candidates, c);
    var lowest := LowestPriority(sorted, candidates);
    if c.id in sorted && PriorityOf(c.id, candidates) == lowest {
      forall c' | c' in candidates && Eligible(r, c')
        ensures EffectivePriority(c.priority) <= EffectivePriority(c'.priority)
      {
        ByIDFinds(candidates, c');
        assert EligibleID(r, candidates, c'.id);
        assert c'.id in sorted;
      }
    }
    if Preferred(r, candidates, c) {
      assert EligibleID(r, candidates, c.id);
      LowestAttained(r, candidates, sorted, c);
    }
  }

  lemma EligibleIsUnique(r: Requirements, candidates: seq<Candidate>, c: Candidate)
    requires DistinctCandidates(candidates) && c in candidates
    ensures EligibleID(r, candidates, c.id) <==> Eligible(r, c)
  {
    hide Eligible;
    if EligibleID(r, candidates, c.id) {
      var x :| x in candidates && x.id == c.id && Eligible(r, x);
      ByIDFinds(candidates, x);
      ByIDFinds(candidates, c);
    }
  }

  lemma LowestAttained(r: Requirements, candidates: seq<Candidate>, sorted: seq<CandidateID>, c: Candidate)
    requires Accepted(r, candidates) && Preferred(r, candidates, c)
    requires forall id :: id in sorted <==> EligibleID(r, candidates, id)
    ensures PriorityOf(c.id, candidates) == LowestPriority(sorted, candidates)
  {
    hide Eligible, LowestPriority, ByID;
    assert EligibleID(r, candidates, c.id);
    LowestIsMinimum(sorted, candidates);
    ByIDFinds(candidates, c);
    assert ValidCandidate(c);
    if id :| id in sorted && PriorityOf(id, candidates) == LowestPriority(sorted, candidates) {
      var x :| x in candidates && x.id == id && Eligible(r, x);
      ByIDFinds(candidates, x);
    }
  }

  // ---------------------------------------------------------------------------------------------
  // The draw
  // ---------------------------------------------------------------------------------------------

  ghost predicate PositiveWeights(ids: seq<CandidateID>, candidates: seq<Candidate>) {
    forall id :: id in ids ==> WeightOf(id, candidates) > 0
  }

  lemma {:induction false} TotalSplits(ids: seq<CandidateID>, candidates: seq<Candidate>, k: nat)
    requires k <= |ids|
    ensures TotalWeight(ids, candidates) == TotalWeight(ids[..k], candidates) + TotalWeight(ids[k..], candidates)
    decreases |ids| - k
  {
    hide WeightOf;
    if k == |ids| {
      assert ids[..k] == ids && ids[k..] == [];
    } else {
      TotalSplits(ids, candidates, k + 1);
      assert ids[..k + 1][..k] == ids[..k];
      TotalOfFirst(ids[k..], candidates);
      assert ids[k..][1..] == ids[k + 1..];
    }
  }

  lemma {:induction false} TotalOfFirst(ids: seq<CandidateID>, candidates: seq<Candidate>)
    requires ids != []
    ensures TotalWeight(ids, candidates) == WeightOf(ids[0], candidates) + TotalWeight(ids[1..], candidates)
    decreases |ids|
  {
    hide WeightOf;
    if |ids| == 1 {
      assert ids[..0] == [] && ids[1..] == [];
    } else {
      TotalOfFirst(ids[..|ids| - 1], candidates);
      assert ids[1..][..|ids| - 2] == ids[..|ids| - 1][1..];
    }
  }

  lemma {:induction false} TotalIsNatural(ids: seq<CandidateID>, candidates: seq<Candidate>)
    requires PositiveWeights(ids, candidates)
    ensures TotalWeight(ids, candidates) >= |ids|
    decreases |ids|
  {
    hide WeightOf;
    if ids != [] {
      assert ids == ids[..|ids| - 1] + [ids[|ids| - 1]];
      TotalIsNatural(ids[..|ids| - 1], candidates);
    }
  }

  /** A draw falls to the candidate whose stretch of weight contains it. */
  lemma {:induction false} PickByStretch(ids: seq<CandidateID>, candidates: seq<Candidate>, draw: int, i: nat)
    requires PositiveWeights(ids, candidates) && i < |ids|
    requires TotalWeight(ids[..i], candidates) <= draw < TotalWeight(ids[..i + 1], candidates)
    ensures Pick(ids, candidates, draw) == Some(ids[i])
    decreases i
  {
    hide WeightOf;
    assert ids[..i + 1][..i] == ids[..i];
    if i > 0 {
      var w := WeightOf(ids[0], candidates);
      TotalOfFirst(ids[..i], candidates);
      TotalOfFirst(ids[..i + 1], candidates);
      assert ids[..i][1..] == ids[1..][..i - 1] && ids[..i + 1][1..] == ids[1..][..i - 1 + 1];
      assert PositiveWeights(ids[..i][1..], candidates) by { assert forall id :: id in ids[..i][1..] ==> id in ids; }
      TotalIsNatural(ids[..i][1..], candidates);
      PickByStretch(ids[1..], candidates, draw - w, i - 1);
    }
  }

  lemma {:induction false} StretchOf(ids: seq<CandidateID>, candidates: seq<Candidate>, draw: int) returns (i: nat)
    requires PositiveWeights(ids, candidates) && 0 <= draw < TotalWeight(ids, candidates)
    ensures i < |ids| && TotalWeight(ids[..i], candidates) <= draw < TotalWeight(ids[..i + 1], candidates)
    decreases |ids|
  {
    hide WeightOf;
    var last := |ids| - 1;
    if TotalWeight(ids[..last], candidates) <= draw {
      i := last;
      assert ids[..last + 1] == ids;
    } else {
      assert PositiveWeights(ids[..last], candidates) by { assert forall id :: id in ids[..last] ==> id in ids; }
      i := StretchOf(ids[..last], candidates, draw);
      assert ids[..last][..i] == ids[..i] && ids[..last][..i + 1] == ids[..i + 1];
    }
  }

  function Interval(lo: int, hi: int): (r: set<int>)
    ensures forall d :: d in r <==> lo <= d < hi
    ensures |r| == Max(0, hi - lo)
    decreases hi - lo
  {
    if hi <= lo then {} else Interval(lo, hi - 1) + {hi - 1}
  }

  /** The draws that fall to `id`. */
  function Draws(ids: seq<CandidateID>, candidates: seq<Candidate>, id: CandidateID): set<int> {
    set d | 0 <= d < TotalWeight(ids, candidates) && Pick(ids, candidates, d) == Some(id)
  }

  lemma PrefixTotals(ids: seq<CandidateID>, candidates: seq<Candidate>, i: nat)
    requires PositiveWeights(ids, candidates) && i <= |ids|
    ensures 0 <= TotalWeight(ids[..i], candidates) <= TotalWeight(ids, candidates)
  {
    hide WeightOf, TotalWeight;
    TotalSplits(ids, candidates, i);
    assert PositiveWeights(ids[..i], candidates) by { assert forall id :: id in ids[..i] ==> id in ids; }
    assert PositiveWeights(ids[i..], candidates) by { assert forall id :: id in ids[i..] ==> id in ids; }
    TotalIsNatural(ids[..i], candidates);
    TotalIsNatural(ids[i..], candidates);
  }

  lemma DrawsAreInterval(ids: seq<CandidateID>, candidates: seq<Candidate>, i: nat)
    requires PositiveWeights(ids, candidates) && Distinct(ids) && i < |ids|
    ensures Draws(ids, candidates, ids[i])
              == Interval(TotalWeight(ids[..i], candidates), TotalWeight(ids[..i + 1], candidates))
  {
    hide WeightOf, TotalWeight, Pick, PositiveWeights;
    var lo, hi := TotalWeight(ids[..i], candidates), TotalWeight(ids[..i + 1], candidates);
    PrefixTotals(ids, candidates, i);
    PrefixTotals(ids, candidates, i + 1);
    forall d ensures d in Draws(ids, candidates, ids[i]) <==> d in Interval(lo, hi) {
      if lo <= d < hi {
        PickByStretch(ids, candidates, d, i);
      }
      if d in Draws(ids, candidates, ids[i]) {
        var k := StretchOf(ids, candidates, d);
        PickByStretch(ids, candidates, d, k);
      }
    }
  }

  lemma DrawsAreWeights(ids: seq<CandidateID>, candidates: seq<Candidate>, id: CandidateID)
    requires PositiveWeights(ids, candidates) && Distinct(ids)
    ensures |Draws(ids, candidates, id)| == if id in ids then WeightOf(id, candidates) else 0
  {
    hide WeightOf, Pick;
    if id in ids {
      var i :| 0 <= i < |ids| && ids[i] == id;
      DrawsAreInterval(ids, candidates, i);
      assert ids[..i + 1][..i] == ids[..i];
      assert WeightOf(id, candidates) > 0;
    } else {
      forall d | d in Draws(ids, candidates, id) ensures false {
        var k := StretchOf(ids, candidates, d);
        PickByStretch(ids, candidates, d, k);
      }
      assert Draws(ids, candidates, id) == {};
    }
  }

  // ---------------------------------------------------------------------------------------------
  // The router as a whole
  // ---------------------------------------------------------------------------------------------

  /** The candidate selected for one value of the random source. */
  function Chosen(r: Requirements, candidates: seq<Candidate>, draw: int): Option<CandidateID> {
    var result := Select(r, candidates, (limit: int) => draw);
    if result.Ok? then result.value.selected else None
  }

  function Range(r: Requirements, candidates: seq<Candidate>): int {
    TotalWeight(Pool(r, candidates), candidates)
  }

  lemma PoolWeights(r: Requirements, candidates: seq<Candidate>)
    requires Accepted(r, candidates)
    ensures PositiveWeights(Pool(r, candidates), candidates)
    ensures Pool(r, candidates) != [] <==> exists c :: c in candidates && Eligible(r, c)
    ensures Scan(r, Excluded(r), candidates).Ok?
    ensures Pool(r, candidates) != [] <==> Scan(r, Excluded(r), candidates).value.eligible != []
  {
    hide Scan, Sort, LowestPriority, AtPriority, Eligible, Reasons, ByID;
    ScanSucceeds(r, candidates);
    ScanEligible(r, candidates);
    var eligible := Scan(r, Excluded(r), candidates).value.eligible;
    SortSorts(eligible);
    var sorted := Sort(eligible);
    var lowest := LowestPriority(sorted, candidates);
    AtPriorityMembers(sorted, candidates, lowest);
    forall id | id in sorted ensures WeightOf(id, candidates) > 0 && PriorityOf(id, candidates) < 1001 {
      var x :| x in candidates && x.id == id && Eligible(r, x);
      ByIDFinds(candidates, x);
      assert ValidCandidate(x);
    }
    if c :| c in candidates && Eligible(r, c) {
      assert EligibleID(r, candidates, c.id);
      assert c.id in sorted;
      LowestIsMinimum(sorted, candidates);
      var id :| id in sorted && PriorityOf(id, candidates) == lowest;
      assert id in Pool(r, candidates);
    }
    if eligible != [] {
      assert EligibleID(r, candidates, eligible[0]);
    }
    if Pool(r, candidates) != [] {
      var id := Pool(r, candidates)[0];
      assert id in sorted && id in eligible && EligibleID(r, candidates, id);
    }
  }

  lemma ChosenIsPick(r: Requirements, candidates: seq<Candidate>, draw: int)
    requires Accepted(r, candidates) && 0 <= draw < Range(r, candidates)
    ensures Chosen(r, candidates, draw) == Pick(Pool(r, candidates), candidates, draw)
  {
    hide Scan, Weighted, Pick, Eligible, ValidRequirements, AllValid, DistinctCandidates;
    PoolWeights(r, candidates);
  }

  /**
   * Exact odds: over all draws in range, a candidate is selected for exactly its effective weight if it is an
   * eligible candidate of lowest effective priority, and never otherwise.
   */
  lemma DrawsAreExact(r: Requirements, candidates: seq<Candidate>, c: Candidate)
    requires Accepted(r, candidates) && c in candidates
    ensures |set d | 0 <= d < Range(r, candidates) && Chosen(r, candidates, d) == Some(c.id)|
            == if Preferred(r, candidates, c) then EffectiveWeight(c.weight) else 0
  {
    hide Pick, Chosen, Pool, Preferred, ByID;
    var ids := Pool(r, candidates);
    PoolIsPreferred(r, candidates, c);
    PoolWeights(r, candidates);
    DrawsAreWeights(ids, candidates, c.id);
    ByIDFinds(candidates, c);
    forall d | 0 <= d < Range(r, candidates) ensures Chosen(r, candidates, d) == Pick(ids, candidates, d) {
      ChosenIsPick(r, candidates, d);
    }
    assert (set d | 0 <= d < Range(r, candidates) && Chosen(r, candidates, d) == Some(c.id))
             == Draws(ids, candidates, c.id);
  }

  /** Whenever a candidate is eligible, every draw in range selects one of the preferred candidates. */
  lemma SomeoneIsSelected(r: Requirements, candidates: seq<Candidate>, draw: int)
    requires Accepted(r, candidates) && exists c :: c in candidates && Eligible(r, c)
    ensures Range(r, candidates) > 0
    ensures 0 <= draw < Range(r, candidates) ==>
              exists c :: Preferred(r, candidates, c) && Chosen(r, candidates, draw) == Some(c.id)
  {
    hide Pick, Chosen, Pool, Preferred, Eligible, ByID;
    var ids := Pool(r, candidates);
    PoolWeights(r, candidates);
    TotalIsNatural(ids, candidates);
    if 0 <= draw < Range(r, candidates) {
      ChosenIsPick(r, candidates, draw);
      var i := StretchOf(ids, candidates, draw);
      PickByStretch(ids, candidates, draw, i);
      var c := PoolMember(r, candidates, ids[i]);
      PoolIsPreferred(r, candidates, c);
    }
  }

  lemma PoolMember(r: Requirements, candidates: seq<Candidate>, id: CandidateID) returns (c: Candidate)
    requires Accepted(r, candidates) && id in Pool(r, candidates)
    ensures c in candidates && c.id == id && Eligible(r, c)
  {
    hide Scan, Sort, LowestPriority, AtPriority, Eligible, Reasons, ByID;
    ScanSucceeds(r, candidates);
    ScanEligible(r, candidates);
    var eligible := Scan(r, Excluded(r), candidates).value.eligible;
    SortSorts(eligible);
    AtPriorityMembers(Sort(eligible), candidates, LowestPriority(Sort(eligible), candidates));
    assert EligibleID(r, candidates, id);
    c :| c in candidates && c.id == id && Eligible(r, c);
  }

  // ---------------------------------------------------------------------------------------------
  // Order of the candidate list
  // ---------------------------------------------------------------------------------------------

  lemma {:induction false} TwiceInMultiset<T>(s: seq<T>, x: T)
    requires multiset(s)[x] >= 2
    ensures exists i, j :: 0 <= i < j < |s| && s[i] == x && s[j] == x
  {
    var last := |s| - 1;
    assert s == s[..last] + [s[last]];
    if s[last] == x {
      assert x in multiset(s[..last]);
      var i :| 0 <= i < last && s[..last][i] == x;
      assert s[i] == x && s[last] == x;
    } else {
      TwiceInMultiset(s[..last], x);
      var i, j :| 0 <= i < j < last && s[..last][i] == x && s[..last][j] == x;
      assert s[i] == x && s[j] == x;
    }
  }

  lemma OnceInMultiset<T>(s: seq<T>, i: nat, j: nat)
    requires i < j < |s| && s[i] == s[j]
    ensures multiset(s)[s[i]] >= 2
  {
    assert s == s[..j] + [s[j]] + s[j + 1..];
    assert s[i] in s[..j];
  }

  lemma SharedID(a: seq<Candidate>, b: seq<Candidate>, i: nat, j: nat)
    requires multiset(a) == multiset(b) && i < j < |b| && b[i].id == b[j].id
    ensures !DistinctCandidates(a)
  {
    if b[i] == b[j] {
      OnceInMultiset(b, i, j);
      TwiceInMultiset(a, b[i]);
    } else {
      assert b[i] in multiset(a) && b[j] in multiset(a);
      var k :| 0 <= k < |a| && a[k] == b[i];
      var l :| 0 <= l < |a| && a[l] == b[j];
      assert a[k].id == a[l].id;
    }
  }

  lemma PermutedDistinct(a: seq<Candidate>, b: seq<Candidate>)
    requires multiset(a) == multiset(b)
    ensures !DistinctCandidates(b) ==> !DistinctCandidates(a)
  {
    if !DistinctCandidates(b) {
      var i, j :| 0 <= i < j < |b| && b[i].id == b[j].id;
      SharedID(a, b, i, j);
    }
  }

  lemma PermutedMembers(a: seq<Candidate>, b: seq<Candidate>)
    requires multiset(a) == multiset(b)
    ensures forall c :: c in a <==> c in b
    ensures AllValid(a) <==> AllValid(b)
  {
    hide ValidCandidate;
    forall c ensures c in a <==> c in b {
      assert c in a <==> c in multiset(a);
      assert c in b <==> c in multiset(b);
    }
    forall i | 0 <= i < |a| && AllValid(b) ensures ValidCandidate(a[i]) {
      assert a[i] in b;
    }
    forall i | 0 <= i < |b| && AllValid(a) ensures ValidCandidate(b[i]) {
      assert b[i] in a;
    }
  }

  lemma {:induction false} PickDependsOnWeights(ids: seq<CandidateID>, a: seq<Candidate>, b: seq<Candidate>, draw: int)
    requires forall id :: id in ids ==> WeightOf(id, a) == WeightOf(id, b)
    ensures Pick(ids, a, draw) == Pick(ids, b, draw)
    decreases |ids|
  {
    hide WeightOf;
    if ids != [] {
      assert WeightOf(ids[0], a) == WeightOf(ids[0], b);
      PickDependsOnWeights(ids[1..], a, b, draw - WeightOf(ids[0], a));
    }
  }

  lemma {:induction false} PoolDependsOnCandidates(ids: seq<CandidateID>, a: seq<Candidate>, b: seq<Candidate>, p: int)
    requires forall id :: id in ids ==> WeightOf(id, a) == WeightOf(id, b) && PriorityOf(id, a) == PriorityOf(id, b)
    ensures LowestPriority(ids, a) == LowestPriority(ids, b)
    ensures AtPriority(ids, a, p) == AtPriority(ids, b, p)
    ensures TotalWeight(ids, a) == TotalWeight(ids, b)
    decreases |ids|
  {
    hide WeightOf, PriorityOf;
    if ids != [] {
      var rest, last := ids[..|ids| - 1], ids[|ids| - 1];
      assert ids == rest + [last];
      PoolDependsOnCandidates(rest, a, b, p);
    }
  }

  lemma PermutedScan(r: Requirements, a: seq<Candidate>, b: seq<Candidate>)
    requires multiset(a) == multiset(b)
    ensures Scan(r, Excluded(r), a).Ok? == Scan(r, Excluded(r), b).Ok?
    ensures Scan(r, Excluded(r), a).Ok? ==>
              && DistinctCandidates(a) && DistinctCandidates(b)
              && Sort(Scan(r, Excluded(r), a).value.eligible) == Sort(Scan(r, Excluded(r), b).value.eligible)
  {
    hide Scan, Sort, Eligible, Reasons, ValidCandidate;
    ScanSucceeds(r, a);
    ScanSucceeds(r, b);
    PermutedMembers(a, b);
    PermutedDistinct(a, b);
    PermutedDistinct(b, a);
    if Scan(r, Excluded(r), a).Ok? {
      ScanEligible(r, a);
      ScanEligible(r, b);
      forall id ensures EligibleID(r, a, id) <==> EligibleID(r, b, id) {
      }
      var left, right := Scan(r, Excluded(r), a).value.eligible, Scan(r, Excluded(r), b).value.eligible;
      SortSorts(left);
      SortSorts(right);
      SortedIsUnique(Sort(left), Sort(right));
    }
  }

  /** A sorted list of eligible candidates is drawn from alike, however the candidates are listed. */
  lemma PermutedDraw(r: Requirements, a: seq<Candidate>, b: seq<Candidate>, eligible: seq<CandidateID>, draw: int)
    requires multiset(a) == multiset(b) && DistinctCandidates(a) && DistinctCandidates(b)
    requires forall id :: id in eligible ==> EligibleID(r, a, id)
    ensures var p := LowestPriority(eligible, a);
            && LowestPriority(eligible, b) == p
            && var pool := AtPriority(eligible, a, p);
               && AtPriority(eligible, b, p) == pool && TotalWeight(pool, b) == TotalWeight(pool, a)
               && Pick(pool, b, draw) == Pick(pool, a, draw)
  {
    hide LowestPriority, AtPriority, TotalWeight, Pick, ByID, Eligible;
    PermutedMembers(a, b);
    forall id | id in eligible ensures WeightOf(id, a) == WeightOf(id, b) && PriorityOf(id, a) == PriorityOf(id, b) {
      var x :| x in a && x.id == id && Eligible(r, x);
      ByIDFinds(a, x);
      ByIDFinds(b, x);
    }
    var p := LowestPriority(eligible, a);
    PoolDependsOnCandidates(eligible, a, b, p);
    AtPriorityMembers(eligible, a, p);
    var pool := AtPriority(eligible, a, p);
    PoolDependsOnCandidates(pool, a, b, p);
    PickDependsOnWeights(pool, a, b, draw);
  }

  /** The order in which candidates are listed changes neither success nor the selection. */
  lemma SelectionIgnoresOrder(r: Requirements, a: seq<Candidate>, b: seq<Candidate>, random: int -> int)
    requires multiset(a) == multiset(b)
    ensures var left, right := Select(r, a, random), Select(r, b, random);
            && left.Ok? == right.Ok?
            && (left.Ok? ==> left.value.selected == right.value.selected && left.value.eligible == right.value.eligible)
  {
    hide Scan, Sort, LowestPriority, AtPriority, TotalWeight, Pick, Eligible, ValidRequirements;
    PermutedScan(r, a, b);
    var scan, scan' := Scan(r, Excluded(r), a), Scan(r, Excluded(r), b);
    if scan.Ok? {
      ScanEligible(r, a);
      ScanEligible(r, b);
      SortSorts(scan.value.eligible);
      SortSorts(scan'.value.eligible);
      var sorted := Sort(scan.value.eligible);
      SortedEmpty(scan.value.eligible);
      SortedEmpty(scan'.value.eligible);
      var p := LowestPriority(sorted, a);
      PermutedDraw(r, a, b, sorted, random(TotalWeight(AtPriority(sorted, a, p), a)));
    }
  }

  lemma SortedEmpty(ids: seq<CandidateID>)
    ensures Sort(ids) == [] <==> ids == []
  {
  }

  /** A selected candidate is listed, eligible, and was not excluded. */
  lemma SelectedIsEligible(r: Requirements, candidates: seq<Candidate>, random: int -> int)
    requires Select(r, candidates, random).Ok? && Select(r, candidates, random).value.selected.Some?
    ensures var id := Select(r, candidates, random).value.selected.value;
            id !in r.excluded && Listed(candidates, id)
  {
    hide Scan, Weighted, Pick, TotalWeight, ValidRequirements, Reasons, ValidCandidate;
    ScanSucceeds(r, candidates);
    var id := Select(r, candidates, random).value.selected.value;
    PickIsMember(Pool(r, candidates), candidates, random(TotalWeight(Pool(r, candidates), candidates)));
    var c := PoolMember(r, candidates, id);
    EligibleMeansQualified(r, c);
  }

  lemma {:induction false} PickIsMember(ids: seq<CandidateID>, candidates: seq<Candidate>, draw: int)
    ensures Pick(ids, candidates, draw).Some? ==> Pick(ids, candidates, draw).value in ids
    decreases |ids|
  {
    hide WeightOf;
    if ids != [] {
      PickIsMember(ids[1..], candidates, draw - WeightOf(ids[0], candidates));
    }
  }
}
