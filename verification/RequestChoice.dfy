/** Which credential an attempt is routed to: available, of lowest priority, and by weight. */
module RequestChoice {
  import opened Common
  import opened RequestFlow
  import Router
  import RouterLaws
  import RouterAnswers

  /** Not excluded for this run, and not cooling down. */
  predicate Available(excluded: seq<CandidateID>, now: int, c: Candidate) {
    c.id !in excluded && (c.cooldownUntil.None? || c.cooldownUntil.value == 0 || c.cooldownUntil.value <= now)
  }

  /** An available candidate of lowest effective priority. */
  ghost predicate Preferred(run: Run, excluded: seq<CandidateID>, now: int, c: Candidate) {
    && c in run.candidates && Available(excluded, now, c)
    && forall c' :: c' in run.candidates && Available(excluded, now, c') ==>
         Router.EffectivePriority(c.priority) <= Router.EffectivePriority(c'.priority)
  }

  function Asks(run: Run, excluded: seq<CandidateID>, now: int): Router.Requirements {
    Router.Requirements(run.model, run.pool, run.capabilities, excluded, now)
  }

  lemma RoutedMembers(run: Run)
    ensures forall c :: c in run.candidates ==> Routed(run, c) in RoutedAll(run)
    ensures forall x :: x in RoutedAll(run) ==> exists c :: c in run.candidates && Routed(run, c) == x
  {
    forall c | c in run.candidates ensures Routed(run, c) in RoutedAll(run) {
      var i :| 0 <= i < |run.candidates| && run.candidates[i] == c;
      assert RoutedAll(run)[i] == Routed(run, c);
    }
    forall x | x in RoutedAll(run) ensures exists c :: c in run.candidates && Routed(run, c) == x {
      var i :| 0 <= i < |run.candidates| && RoutedAll(run)[i] == x;
      assert run.candidates[i] in run.candidates;
    }
  }

  /** To the router, being available is all it takes. */
  lemma AvailableIsEligible(run: Run, excluded: seq<CandidateID>, now: int, c: Candidate)
    ensures RouterLaws.Eligible(Asks(run, excluded, now), Routed(run, c)) <==> Available(excluded, now, c)
    ensures RouterAnswers.OnlyCooling(Asks(run, excluded, now), Routed(run, c)) <==>
              c.id !in excluded && !Available(excluded, now, c)
  {
    hide RouterLaws.Eligible;
    RouterLaws.EligibleMeansQualified(Asks(run, excluded, now), Routed(run, c));
  }

  lemma PreferredAlike(run: Run, excluded: seq<CandidateID>, now: int, c: Candidate)
    requires c in run.candidates
    ensures RouterLaws.Preferred(Asks(run, excluded, now), RoutedAll(run), Routed(run, c)) <==>
              Preferred(run, excluded, now, c)
  {
    hide RouterLaws.Eligible, Available, RoutedAll;
    RoutedMembers(run);
    forall x ensures RouterLaws.Eligible(Asks(run, excluded, now), Routed(run, x)) <==> Available(excluded, now, x) {
      AvailableIsEligible(run, excluded, now, x);
    }
    assert Routed(run, c) in RoutedAll(run);
  }

  lemma {:induction false} LookupFinds(candidates: seq<Candidate>, c: Candidate)
    requires c in candidates
    requires forall i, j :: 0 <= i < j < |candidates| ==> candidates[i].id != candidates[j].id
    ensures Lookup(candidates, c.id) == Some(c)
    decreases |candidates|
  {
    var last := |candidates| - 1;
    var i :| 0 <= i < |candidates| && candidates[i] == c;
    if i < last {
      assert candidates[..last][i] == c;
      LookupFinds(candidates[..last], c);
    }
  }

  lemma DistinctRouted(run: Run)
    requires RouterLaws.DistinctCandidates(RoutedAll(run))
    ensures forall i, j :: 0 <= i < j < |run.candidates| ==> run.candidates[i].id != run.candidates[j].id
  {
    forall i, j | 0 <= i < j < |run.candidates| ensures run.candidates[i].id != run.candidates[j].id {
      assert RoutedAll(run)[i].id != RoutedAll(run)[j].id;
    }
  }

  /** An attempt goes to an available candidate of lowest effective priority. */
  lemma ChosenIsPreferred(run: Run, excluded: seq<CandidateID>, now: int, draw: int -> int)
    requires Choose(run, excluded, now, draw).Ok?
    ensures Preferred(run, excluded, now, Choose(run, excluded, now, draw).value)
  {
    hide Router.Select, RouterLaws.Preferred, Preferred, Lookup, RoutedAll;
    var r := Asks(run, excluded, now);
    var x := RouterAnswers.SelectedIsPreferred(r, RoutedAll(run), draw);
    SelectedMeansDistinct(r, run, draw);
    RoutedMembers(run);
    PreferredIsListed(r, run, x);
    var c :| c in run.candidates && Routed(run, c) == x;
    LookupFinds(run.candidates, c);
    PreferredAlike(run, excluded, now, c);
  }

  lemma PreferredIsListed(r: Router.Requirements, run: Run, x: Router.Candidate)
    requires RouterLaws.Preferred(r, RoutedAll(run), x)
    ensures x in RoutedAll(run)
  {
  }

  lemma SelectedMeansDistinct(r: Router.Requirements, run: Run, draw: int -> int)
    requires Router.Select(r, RoutedAll(run), draw).Ok?
    ensures forall i, j :: 0 <= i < j < |run.candidates| ==> run.candidates[i].id != run.candidates[j].id
  {
    hide Router.Scan, Router.Weighted, Router.Pick, Router.TotalWeight, Router.ValidRequirements, RoutedAll;
    RouterLaws.ScanSucceeds(r, RoutedAll(run));
    DistinctRouted(run);
  }

  /** The earliest end of a cooldown among candidates that are not excluded. */
  ghost predicate BackAt(run: Run, excluded: seq<CandidateID>, now: int, at: int) {
    && (exists c :: c in run.candidates && c.id !in excluded && !Available(excluded, now, c)
                    && c.cooldownUntil == Some(at))
    && (forall c :: c in run.candidates && c.id !in excluded && !Available(excluded, now, c) ==>
          at <= c.cooldownUntil.value)
  }

  /**
   * Where the router accepts its input, routing fails exactly when nobody is available, and then says when the first
   * cooling candidate is back, if one is left.
   */
  lemma FailsExactlyWithoutCandidates(run: Run, excluded: seq<CandidateID>, now: int, draw: int -> int)
    requires Router.Select(Asks(run, excluded, now), RoutedAll(run), draw).Ok?
    ensures var choice := Choose(run, excluded, now, draw);
            && (choice.Err? <==> forall c :: c in run.candidates ==> !Available(excluded, now, c))
            && (choice.Err? ==>
                  && choice.failure.kind == ProviderTemporary && !choice.failure.replaySafe
                  && if forall c :: c in run.candidates ==> c.id in excluded then choice.failure.retryAfter == None
                     else exists at :: choice.failure.retryAfter == Some(RetryAfter(None, Some(at)))
                                       && BackAt(run, excluded, now, at))
  {
    hide Router.Select, RouterAnswers.Earliest, RouterLaws.Qualifies, RouterLaws.Eligible, Lookup, RoutedAll, Available;
    var r := Asks(run, excluded, now);
    var d := Router.Select(r, RoutedAll(run), draw).value;
    RouterAnswers.DecisionReports(r, RoutedAll(run), draw);
    RoutedMembers(run);
    forall c ensures RouterLaws.Qualifies(r, Routed(run, c)) <==> Available(excluded, now, c) {
      AvailableIsEligible(run, excluded, now, c);
      RouterLaws.EligibleMeansQualified(r, Routed(run, c));
    }
    SelectedMeansDistinct(r, run, draw);
    if d.selected.Some? {
      var x := RouterAnswers.SelectedIsPreferred(r, RoutedAll(run), draw);
      PreferredIsListed(r, run, x);
      var c :| c in run.candidates && Routed(run, c) == x;
      LookupFinds(run.candidates, c);
      ChosenIsPreferred(run, excluded, now, draw);
    } else {
      NobodyQualifies(run, excluded, now, d.eligible);
      EarliestIsBack(run, excluded, now, d.nextAvailableAt);
    }
  }

  lemma NobodyQualifies(run: Run, excluded: seq<CandidateID>, now: int, eligible: seq<CandidateID>)
    requires eligible == []
    requires forall id :: id in eligible <==>
               exists x :: x in RoutedAll(run) && x.id == id && RouterLaws.Qualifies(Asks(run, excluded, now), x)
    ensures forall c :: c in run.candidates ==> !Available(excluded, now, c)
  {
    hide RouterLaws.Qualifies, RouterLaws.Eligible, Available, RoutedAll;
    RoutedMembers(run);
    forall c | c in run.candidates ensures !Available(excluded, now, c) {
      AvailableIsEligible(run, excluded, now, c);
      RouterLaws.EligibleMeansQualified(Asks(run, excluded, now), Routed(run, c));
      assert Routed(run, c) in RoutedAll(run);
      assert Routed(run, c).id !in eligible;
    }
  }

  lemma EarliestIsBack(run: Run, excluded: seq<CandidateID>, now: int, at: int)
    requires RouterAnswers.Earliest(Asks(run, excluded, now), RoutedAll(run), at)
    requires forall c :: c in run.candidates ==> !Available(excluded, now, c)
    ensures (forall c :: c in run.candidates ==> c.id in excluded) ==> at == 0
    ensures (exists c :: c in run.candidates && c.id !in excluded) ==> at != 0 && BackAt(run, excluded, now, at)
  {
    hide RouterAnswers.OnlyCooling, RoutedAll;
    var r := Asks(run, excluded, now);
    RoutedMembers(run);
    forall c
      ensures RouterAnswers.OnlyCooling(r, Routed(run, c)) <==> c.id !in excluded && !Available(excluded, now, c)
    {
      AvailableIsEligible(run, excluded, now, c);
    }
    if c :| c in run.candidates && c.id !in excluded {
      assert Routed(run, c) in RoutedAll(run);
      var x :| x in RoutedAll(run) && RouterAnswers.OnlyCooling(r, x) && x.cooldownUntil == at;
      var y :| y in run.candidates && Routed(run, y) == x;
      assert y.id !in excluded && !Available(excluded, now, y) && y.cooldownUntil == Some(at);
      forall z | z in run.candidates && z.id !in excluded && !Available(excluded, now, z)
        ensures at <= z.cooldownUntil.value
      {
        assert Routed(run, z) in RoutedAll(run) && RouterAnswers.OnlyCooling(r, Routed(run, z));
      }
    }
  }

  /** The size of the random draw: the weights of the preferred candidates together. */
  function Draws(run: Run, excluded: seq<CandidateID>, now: int): int {
    RouterLaws.Range(Asks(run, excluded, now), RoutedAll(run))
  }

  /** The choice for one value of the random source. */
  function DrawnFor(run: Run, excluded: seq<CandidateID>, now: int, draw: int): Result<Candidate> {
    Choose(run, excluded, now, (limit: int) => draw)
  }

  /** Over all draws, a candidate is chosen for exactly its effective weight if it is preferred, and never otherwise. */
  lemma OddsAreWeights(run: Run, excluded: seq<CandidateID>, now: int, c: Candidate)
    requires RouterLaws.Accepted(Asks(run, excluded, now), RoutedAll(run)) && c in run.candidates
    ensures |set d | 0 <= d < Draws(run, excluded, now) && DrawnFor(run, excluded, now, d) == Ok(c)|
            == if Preferred(run, excluded, now, c) then Router.EffectiveWeight(c.weight) else 0
  {
    hide DrawnFor, RoutedAll, RouterLaws.Preferred, Preferred, Router.EffectiveWeight;
    var r := Asks(run, excluded, now);
    var x := Routed(run, c);
    RoutedMembers(run);
    PreferredAlike(run, excluded, now, c);
    RouterLaws.DrawsAreExact(r, RoutedAll(run), x);
    forall d ensures DrawnFor(run, excluded, now, d) == Ok(c) <==>
                       RouterLaws.Chosen(r, RoutedAll(run), d) == Some(c.id)
    {
      ChooseIsChosen(run, excluded, now, c, d);
    }
    assert (set d | 0 <= d < Draws(run, excluded, now) && DrawnFor(run, excluded, now, d) == Ok(c))
           == (set d | 0 <= d < RouterLaws.Range(r, RoutedAll(run))
                       && RouterLaws.Chosen(r, RoutedAll(run), d) == Some(x.id));
  }

  lemma ChooseIsChosen(run: Run, excluded: seq<CandidateID>, now: int, c: Candidate, d: int)
    requires RouterLaws.DistinctCandidates(RoutedAll(run)) && c in run.candidates
    ensures DrawnFor(run, excluded, now, d) == Ok(c) <==>
              RouterLaws.Chosen(Asks(run, excluded, now), RoutedAll(run), d) == Some(c.id)
  {
    hide Router.Select, Lookup, RoutedAll;
    DistinctRouted(run);
    LookupFinds(run.candidates, c);
    assert forall id :: Lookup(run.candidates, id).Some? ==> Lookup(run.candidates, id).value.id == id;
  }
}
