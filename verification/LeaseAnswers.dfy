/** What a lease reply means for the leases that are alive afterwards. */
module LeaseAnswers {
  import opened LeaseScript
  import opened LeaseLaws
  import opened LeaseRetry

  predicate Names(c: Call, d: Dimension) {
    exists i :: 0 <= i < |Named(c)| && Named(c)[i] == d
  }

  /** The call is an acquire, a renewal or a release by this member. */
  predicate Touches(c: Call, m: Member) {
    (c.AcquireCall? || c.RenewCall? || c.ReleaseCall?) && c.member == m
  }

  lemma EditFollowsReply(s: Leases, c: Call)
    requires !c.DropKey?
    ensures var reply, edit := Step(s, c).1, EditOf(s, c);
            && (reply.Granted? || reply.Renewed? ==> edit == Put(c.member, c.now + c.ttl))
            && (reply.Lost? || reply.Released? ==> edit == Drop(c.member))
            && (reply.Denied? || reply.Cleaned? ==> edit == Keep)
            && (reply.Granted? || reply.Denied? <==> c.AcquireCall?)
            && (reply.Renewed? || reply.Lost? <==> c.RenewCall?)
            && (reply.Released? <==> c.ReleaseCall?) && (reply.Cleaned? <==> c.CleanupCall?)
  {
    hide LiveSlots, UpdateFirst, LongestWait, HeldCount, PrunedCount, Acquire, Counts;
    if c.AcquireCall? {
      AcquireSettles(s, c.now, c.ttl, c.member, c.limits);
    }
  }

  /**
   * What a reply means: a granted or renewed lease is alive in every named dimension until now + ttl and with no
   * other expiry; a lost or released one is alive in none of them; every other lease is alive exactly as before.
   */
  lemma ReplyDecidesLeases(config: Config, s: Leases, c: Call, from: int, d: Dimension, m: Member, e: int, t: int)
    requires Inv(config, s, from) && Conforms(config, c) && from <= c.now <= t
    ensures var reply, after := Step(s, c).1, Slot(m, e) in LiveSlots(Step(s, c).0, d, t);
            if Touches(c, m) && Names(c, d) && !reply.Denied? then
              after <==> (reply.Granted? || reply.Renewed?) && e == c.now + c.ttl && t < e
            else after <==> Slot(m, e) in LiveSlots(s, d, t)
  {
    hide LiveSlots, UpdateFirst, Step, EditOf, Named, Ordered, Conforms, SlotOK;
    assert KeyOK(config, s, d);
    LiveSlotsOf(config, s, d, t, m, e);
    if c.DropKey? {
      DropIsQuiet(config, s, c, d, t);
    } else {
      StepKeepsKey(config, s, c, d);
      LiveSlotsOf(config, Step(s, c).0, d, t, m, e);
      CallHolds(config, s, c, d, m, e);
      EditFollowsReply(s, c);
    }
  }

  /** Over every run that does not touch a member, its leases stay alive until they expire, and none appears. */
  lemma {:induction false} LeaseLivesUntilExpiry(config: Config, s: Leases, calls: seq<Call>, from: int,
                                                 d: Dimension, m: Member, e: int, t: int)
    requires Inv(config, s, from) && OrderedRun(config, calls, from) && LastClock(calls, from) <= t
    requires forall i :: 0 <= i < |calls| ==> !Touches(calls[i], m)
    ensures Slot(m, e) in LiveSlots(Run(s, calls), d, t) <==> Slot(m, e) in LiveSlots(s, d, t)
    decreases calls
  {
    hide LiveSlots, Step, Inv, Conforms, Names, Touches;
    if calls != [] {
      var c, rest := calls[0], calls[1..];
      RunKeepsInv(config, s, calls, from);
      StepKeepsInv(config, s, c, from);
      RunKeepsInv(config, Step(s, c).0, rest, c.now);
      forall i | 0 <= i < |rest| ensures !Touches(rest[i], m) {
        assert rest[i] == calls[i + 1];
      }
      ReplyDecidesLeases(config, s, c, from, d, m, e, t);
      LeaseLivesUntilExpiry(config, Step(s, c).0, rest, c.now, d, m, e, t);
    }
  }

  // ---------------------------------------------------------------------------------------------
  // When each reply is given
  // ---------------------------------------------------------------------------------------------

  /** An acquire is granted exactly when each dimension already holds the member or has room for it. */
  lemma GrantedExactlyWithRoom(s: Leases, c: Call)
    requires c.AcquireCall?
    ensures Step(s, c).1.Granted? <==>
              forall i :: 0 <= i < |c.limits| ==>
                var z := LiveSlots(s, c.limits[i].dimension, c.now);
                Has(z, c.member) || |z| < c.limits[i].maxInFlight
    ensures Step(s, c).1.Granted? ==> Step(s, c).1.at == c.now && Step(s, c).1.expiresAt == c.now + c.ttl
  {
    hide LiveSlots, UpdateFirst, LongestWait, Acquire, Counts, Has;
    AcquireSettles(s, c.now, c.ttl, c.member, c.limits);
    LongestWaitIsMaximum(s, c.now, c.member, c.limits, |c.limits|);
    forall i | 0 <= i < |c.limits|
      ensures var z := LiveSlots(s, c.limits[i].dimension, c.now);
              WaitAt(s, c.now, c.member, c.limits[i]) <= 0 <==> Has(z, c.member) || |z| < c.limits[i].maxInFlight
    {
    }
  }

  lemma RenewedExactlyWhenHeld(s: Leases, c: Call)
    requires c.RenewCall?
    ensures Step(s, c).1 ==
              if forall i :: 0 <= i < |c.dims| ==> Has(LiveSlots(s, c.dims[i], c.now), c.member)
              then Renewed(c.now, c.now + c.ttl) else Lost(c.now)
  {
    hide LiveSlots, UpdateFirst, Has;
  }

  // ---------------------------------------------------------------------------------------------
  // The numbers in a reply
  // ---------------------------------------------------------------------------------------------

  lemma {:induction false} LiveOfAlive(z: SortedSet, now: int)
    requires forall i :: 0 <= i < |z| ==> z[i].expiry > now
    ensures Live(z, now) == z
  {
  }

  lemma AppliedIsAlive(edit: Edit, z: SortedSet, now: int)
    requires Ordered(z) && (forall i :: 0 <= i < |z| ==> z[i].expiry > now) && (edit.Put? ==> edit.expiry > now)
    ensures Live(Apply(edit, z), now) == Apply(edit, z)
  {
    hide Apply, Live;
    var after := Apply(edit, z);
    forall i | 0 <= i < |after| ensures after[i].expiry > now {
      ApplyKeeps(edit, z, after[i]);
      assert after[i] in after;
    }
    LiveOfAlive(after, now);
  }

  lemma AppliedSize(edit: Edit, z: SortedSet)
    requires Ordered(z)
    ensures |Apply(edit, z)| ==
              match edit
              case Keep => |z|
              case Put(m, _) => if Has(z, m) then |z| else |z| + 1
              case Drop(m) => if Has(z, m) then |z| - 1 else |z|
  {
    hide Remove, Insert, Has, Ordered;
    if !edit.Keep? {
      RemoveKeeps(z, edit.member, Slot("", 0));
      if edit.Put? {
        GoneAfterRemove(z, edit.member);
        InsertKeeps(Remove(z, edit.member), Slot(edit.member, edit.expiry), Slot("", 0));
      }
    }
  }

  lemma GoneAfterRemove(z: SortedSet, m: Member)
    requires Ordered(z)
    ensures !Has(Remove(z, m), m)
  {
    hide Remove, Ordered;
    var rest := Remove(z, m);
    if Has(rest, m) {
      var i :| 0 <= i < |rest| && rest[i].member == m;
      RemoveKeeps(z, m, rest[i]);
    }
  }

  /** How many leases are alive in a named dimension right after the call. */
  lemma LiveAfter(config: Config, s: Leases, c: Call, from: int, i: nat)
    requires Inv(config, s, from) && Conforms(config, c) && from <= c.now && !c.DropKey? && i < |Named(c)|
    requires c.AcquireCall? || c.RenewCall? ==> c.ttl >= 1
    ensures |LiveSlots(Step(s, c).0, Named(c)[i], c.now)| == |Apply(EditOf(s, c), LiveSlots(s, Named(c)[i], c.now))|
    ensures Ordered(LiveSlots(s, Named(c)[i], c.now))
  {
    hide LiveSlots, UpdateFirst, Step, EditOf, Named, Ordered, Conforms, SlotOK, Apply, Live;
    var d := Named(c)[i];
    assert KeyOK(config, s, d);
    EditedLive(config, s, c, d, c.now);
    LiveSlotsOf(config, s, d, c.now, "", 0);
    var z := LiveSlots(s, d, c.now);
    forall k | 0 <= k < |z| ensures z[k].expiry > c.now {
      LiveSlotsOf(config, s, d, c.now, z[k].member, z[k].expiry);
      assert z[k] == Slot(z[k].member, z[k].expiry) && z[k] in z;
    }
    PutsAreLater(s, c);
    AppliedIsAlive(EditOf(s, c), z, c.now);
  }

  lemma PutsAreLater(s: Leases, c: Call)
    requires !c.DropKey? && (c.AcquireCall? || c.RenewCall? ==> c.ttl >= 1)
    ensures EditOf(s, c).Put? ==> EditOf(s, c).expiry > c.now
  {
    hide LongestWait, HeldEverywhere;
  }

  /** The counts of an acquire or a cleanup are the numbers of leases alive in each dimension afterwards. */
  lemma CountsAreLive(config: Config, s: Leases, c: Call, from: int, i: nat)
    requires Inv(config, s, from) && Conforms(config, c) && from <= c.now && (c.AcquireCall? || c.CleanupCall?)
    requires i < |Named(c)| && (c.AcquireCall? ==> c.ttl >= 1)
    ensures Step(s, c).1.Granted? || Step(s, c).1.Denied? || Step(s, c).1.Cleaned?
    ensures |Step(s, c).1.counts| == |Named(c)|
    ensures Step(s, c).1.counts[i] == |LiveSlots(Step(s, c).0, Named(c)[i], c.now)|
  {
    hide LiveSlots, UpdateFirst, LongestWait, PrunedCount, Acquire, Has, Apply, Ordered;
    LiveAfter(config, s, c, from, i);
    AppliedSize(EditOf(s, c), LiveSlots(s, Named(c)[i], c.now));
    if c.AcquireCall? {
      AcquireSettles(s, c.now, c.ttl, c.member, c.limits);
    }
  }

  /** The dimensions in which a lease is alive. */
  function HeldIn(s: Leases, dims: seq<Dimension>, member: Member, now: int): set<Dimension> {
    set i | 0 <= i < |dims| && Has(LiveSlots(s, dims[i], now), member) :: dims[i]
  }

  /** The dimensions held among the first `n`, by whether the last of them is. */
  lemma HeldStep(s: Leases, now: int, dims: Dimensions, member: Member, n: nat, x: Dimension)
    requires 0 < n <= |dims|
    ensures x in HeldIn(s, dims[..n], member, now) <==>
              || x in HeldIn(s, dims[..n - 1], member, now)
              || (x == dims[n - 1] && Has(LiveSlots(s, x, now), member))
  {
    hide LiveSlots, Has;
    assert dims[..n] == dims[..n - 1] + [dims[n - 1]];
  }

  lemma {:induction false} HeldCountIsSize(s: Leases, now: int, dims: Dimensions, member: Member, n: nat)
    requires n <= |dims|
    ensures HeldCount(s, now, dims, member, n) == |HeldIn(s, dims[..n], member, now)|
  {
    hide LiveSlots, Has;
    if n > 0 {
      HeldCountIsSize(s, now, dims, member, n - 1);
      var before, after, d := HeldIn(s, dims[..n - 1], member, now), HeldIn(s, dims[..n], member, now), dims[n - 1];
      NotYet(dims, n);
      assert d !in before;
      hide HeldIn;
      forall x ensures x in after <==> x in before || (x == d && Has(LiveSlots(s, d, now), member)) {
        HeldStep(s, now, dims, member, n, x);
      }
      assert after == if Has(LiveSlots(s, d, now), member) then before + {d} else before;
    }
  }

  lemma NotYet(dims: Dimensions, n: nat)
    requires 0 < n <= |dims|
    ensures dims[n - 1] !in dims[..n - 1]
  {
  }

  /** A release reports in how many of its dimensions the lease was alive. */
  lemma ReleaseReportsHeld(s: Leases, c: Call)
    requires c.ReleaseCall?
    ensures Step(s, c).1 == Released(c.now, |HeldIn(s, c.dims, c.member, c.now)|)
  {
    hide LiveSlots, UpdateFirst, Has, HeldCount;
    HeldCountIsSize(s, c.now, c.dims, c.member, |c.dims|);
    assert c.dims[..|c.dims|] == c.dims;
  }

  function Visible(s: Leases, now: int, dims: Dimensions, n: nat): nat
    requires n <= |dims|
  {
    if n == 0 then 0 else Visible(s, now, dims, n - 1) + |Slots(s, dims[n - 1], now)|
  }

  /** A cleanup reports by how many the visible slots of its dimensions shrink, down to the live ones. */
  lemma CleanupReportsRemoved(config: Config, s: Leases, c: Call, from: int)
    requires Inv(config, s, from) && Conforms(config, c) && from <= c.now && c.CleanupCall?
    ensures var after := Step(s, c).0;
            && Step(s, c).1.removed ==
                 Visible(s, c.now, c.dims, |c.dims|) - Visible(after, c.now, c.dims, |c.dims|)
            && forall i :: 0 <= i < |c.dims| ==> Slots(after, c.dims[i], c.now) == LiveSlots(s, c.dims[i], c.now)
  {
    hide LiveSlots, UpdateFirst, Slots, PrunedCount, Counts, Visible, KeyOK, SlotOK;
    forall i | 0 <= i < |c.dims| ensures Slots(Step(s, c).0, c.dims[i], c.now) == LiveSlots(s, c.dims[i], c.now) {
      CleanedSlots(config, s, c, from, i);
    }
    PrunedIsDifference(s, Step(s, c).0, c.now, c.dims, |c.dims|);
  }

  lemma CleanedSlots(config: Config, s: Leases, c: Call, from: int, i: nat)
    requires Inv(config, s, from) && Conforms(config, c) && from <= c.now && c.CleanupCall? && i < |c.dims|
    ensures Slots(Step(s, c).0, c.dims[i], c.now) == LiveSlots(s, c.dims[i], c.now)
  {
    hide LiveSlots, UpdateFirst, PrunedCount, Counts, SlotOK, Ordered;
    UpdateGet(s, c.now, c.dims, Keep, |c.dims|, i);
    var z := LiveSlots(s, c.dims[i], c.now);
    if z != [] {
      assert KeyOK(config, s, c.dims[i]);
      var last := z[|z| - 1];
      LiveSlotsOf(config, s, c.dims[i], c.now, last.member, last.expiry);
      assert last == Slot(last.member, last.expiry) && last in z;
    }
  }

  lemma {:induction false} PrunedIsDifference(s: Leases, after: Leases, now: int, dims: Dimensions, n: nat)
    requires n <= |dims|
    requires forall i :: 0 <= i < |dims| ==> Slots(after, dims[i], now) == LiveSlots(s, dims[i], now)
    ensures PrunedCount(s, now, dims, n) == Visible(s, now, dims, n) - Visible(after, now, dims, n)
  {
    hide LiveSlots, Slots;
    if n > 0 {
      PrunedIsDifference(s, after, now, dims, n - 1);
    }
  }
}
