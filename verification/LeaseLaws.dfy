/** What every run of the lease scripts keeps: capacity, atomicity across dimensions, and exact retry times. */
module LeaseLaws {
  import opened LeaseScript

  // ---------------------------------------------------------------------------------------------
  // One sorted set
  // ---------------------------------------------------------------------------------------------

  ghost predicate Ordered(z: SortedSet) {
    && (forall i, j :: 0 <= i < j < |z| ==> z[i].expiry <= z[j].expiry)
    && (forall i, j :: 0 <= i < j < |z| ==> z[i].member != z[j].member)
  }

  lemma {:induction false} LiveKeeps(z: SortedSet, now: int, x: Slot)
    requires Ordered(z)
    ensures Ordered(Live(z, now))
    ensures x in Live(z, now) <==> x in z && x.expiry > now
  {
    if z != [] && z[0].expiry <= now {
      LiveKeeps(z[1..], now, x);
      assert z == [z[0]] + z[1..];
    }
  }

  lemma HasInRest(z: SortedSet, member: Member)
    requires z != []
    ensures Has(z, member) <==> z[0].member == member || Has(z[1..], member)
  {
    var rest := z[1..];
    if Has(rest, member) {
      var j :| 0 <= j < |rest| && rest[j].member == member;
      assert z[j + 1].member == member;
    }
    if Has(z, member) && z[0].member != member {
      var j :| 0 <= j < |z| && z[j].member == member;
      assert rest[j - 1].member == member;
    }
  }

  /** ZREM cuts one slot out, or nothing. */
  lemma {:induction false} RemoveCuts(z: SortedSet, member: Member) returns (i: nat)
    ensures !Has(z, member) ==> Remove(z, member) == z
    ensures Has(z, member) ==> i < |z| && z[i].member == member && Remove(z, member) == z[..i] + z[i + 1..]
  {
    hide Has;
    i := 0;
    if z == [] {
      NoneInEmpty(member);
    } else {
      HasInRest(z, member);
      if z[0].member != member {
        i := RemoveCuts(z[1..], member);
        if Has(z[1..], member) {
          CutShifts(z, i);
          i := i + 1;
        } else {
          assert z == [z[0]] + z[1..];
        }
      }
    }
  }

  lemma NoneInEmpty(member: Member)
    ensures !Has([], member)
  {
  }

  lemma CutShifts(z: SortedSet, i: nat)
    requires i < |z| - 1
    ensures [z[0]] + (z[1..][..i] + z[1..][i + 1..]) == z[..i + 1] + z[i + 2..]
  {
  }

  lemma RemoveKeeps(z: SortedSet, member: Member, x: Slot)
    requires Ordered(z)
    ensures Ordered(Remove(z, member))
    ensures x in Remove(z, member) <==> x in z && x.member != member
    ensures |Remove(z, member)| == |z| - if Has(z, member) then 1 else 0
  {
    hide Remove;
    var i := RemoveCuts(z, member);
    if Has(z, member) {
      assert z == z[..i] + [z[i]] + z[i + 1..];
    }
  }

  lemma {:induction false} InsertKeeps(z: SortedSet, slot: Slot, x: Slot)
    requires Ordered(z) && !Has(z, slot.member)
    ensures Ordered(Insert(z, slot))
    ensures x in Insert(z, slot) <==> x == slot || x in z
    ensures |Insert(z, slot)| == |z| + 1
  {
    if z != [] && slot.expiry >= z[0].expiry {
      var rest := z[1..];
      assert z == [z[0]] + rest;
      InsertKeeps(rest, slot, x);
      forall i | 0 <= i < |Insert(rest, slot)|
        ensures z[0].expiry <= Insert(rest, slot)[i].expiry && z[0].member != Insert(rest, slot)[i].member
      {
        InsertKeeps(rest, slot, Insert(rest, slot)[i]);
      }
    }
  }

  /** An edit replaces at most the named member's slot. */
  lemma ApplyKeeps(edit: Edit, z: SortedSet, x: Slot)
    requires Ordered(z)
    ensures Ordered(Apply(edit, z))
    ensures x in Apply(edit, z) <==>
              || (edit.Put? && x == Slot(edit.member, edit.expiry))
              || (x in z && (edit.Keep? || x.member != edit.member))
    ensures |Apply(edit, z)| <= |z| + if edit.Put? && !Has(z, edit.member) then 1 else 0
  {
    if !edit.Keep? {
      RemoveKeeps(z, edit.member, x);
      if Has(Remove(z, edit.member), edit.member) {
        var i :| 0 <= i < |Remove(z, edit.member)| && Remove(z, edit.member)[i].member == edit.member;
        RemoveKeeps(z, edit.member, Remove(z, edit.member)[i]);
      }
      if edit.Put? {
        InsertKeeps(Remove(z, edit.member), Slot(edit.member, edit.expiry), x);
      }
    }
  }

  /** Pruning in two steps is pruning at the later one. */
  lemma {:induction false} LiveTwice(z: SortedSet, now: int, t: int)
    requires now <= t
    ensures Live(Live(z, now), t) == Live(z, t)
  {
    if z != [] && z[0].expiry <= now {
      LiveTwice(z[1..], now, t);
    }
  }

  lemma {:induction false} LiveOfDead(z: SortedSet, now: int)
    requires forall i :: 0 <= i < |z| ==> z[i].expiry <= now
    ensures Live(z, now) == []
  {
    if z != [] {
      LiveOfDead(z[1..], now);
    }
  }

  /** The order statistic: at least `n` slots are alive exactly while the n-th from the end is. */
  lemma {:induction false} LiveCount(z: SortedSet, n: nat, now: int)
    requires Ordered(z) && 1 <= n <= |z|
    ensures |Live(z, now)| >= n <==> z[|z| - n].expiry > now
  {
    if z[0].expiry <= now {
      if n < |z| {
        LiveCount(z[1..], n, now);
      } else {
        LiveShrinks(z[1..], now);
      }
    }
  }

  lemma LiveShrinks(z: SortedSet, now: int)
    ensures |Live(z, now)| <= |z|
  {
  }

  // ---------------------------------------------------------------------------------------------
  // Calls and runs
  // ---------------------------------------------------------------------------------------------

  /** The atomic steps: the four scripts, and Valkey dropping a key that is due. */
  datatype Call =
    | AcquireCall(now: int, ttl: int, member: Member, limits: Limits)
    | RenewCall(now: int, ttl: int, member: Member, dims: Dimensions)
    | ReleaseCall(now: int, member: Member, dims: Dimensions)
    | CleanupCall(now: int, dims: Dimensions)
    | DropKey(now: int, dimension: Dimension)

  function Named(c: Call): Dimensions {
    match c
    case AcquireCall(_, _, _, limits) => DimensionsOf(limits)
    case DropKey(_, _) => []
    case _ => c.dims
  }

  function EditOf(s: Leases, c: Call): Edit {
    match c
    case AcquireCall(now, ttl, member, limits) => AcquireEdit(s, now, ttl, member, limits)
    case RenewCall(now, ttl, member, dims) =>
      if HeldEverywhere(s, now, dims, member) then Put(member, now + ttl) else Drop(member)
    case ReleaseCall(_, member, _) => Drop(member)
    case _ => Keep
  }

  function Step(s: Leases, c: Call): (Leases, Reply) {
    match c
    case AcquireCall(now, ttl, member, limits) => Acquire(s, now, ttl, member, limits)
    case RenewCall(now, ttl, member, dims) => Renew(s, now, ttl, member, dims)
    case ReleaseCall(now, member, dims) => Release(s, now, member, dims)
    case CleanupCall(now, dims) => Cleanup(s, now, dims)
    case DropKey(now, d) => (if Slots(s, d, now) == [] then s - {d} else s, Cleaned(now, 0, []))
  }

  /** A set can be full without a slot at the blocking rank only under a limit below one. */
  lemma CorruptBelowOne(s: Leases, now: int, member: Member, l: Limit)
    ensures CorruptAt(s, now, member, l) <==> l.maxInFlight < 1 && !Has(LiveSlots(s, l.dimension, now), member)
  {
    hide LiveSlots;
  }

  lemma {:induction false} FirstCorruptFinds(s: Leases, now: int, member: Member, limits: AnyLimits, n: nat)
    requires n <= |limits|
    ensures FirstCorrupt(s, now, member, limits, n).Some? <==>
              exists i :: 0 <= i < n && CorruptAt(s, now, member, limits[i])
  {
    hide CorruptAt;
    if n > 0 {
      FirstCorruptFinds(s, now, member, limits, n - 1);
    }
  }

  /** Exactly when an acquire replies corrupt: some dimension without the member has a limit below one. */
  lemma CorruptExactly(s: Leases, now: int, ttl: int, member: Member, limits: AnyLimits)
    ensures Acquire(s, now, ttl, member, limits).1.Corrupt? <==>
              exists i :: 0 <= i < |limits| && limits[i].maxInFlight < 1
                          && !Has(LiveSlots(s, limits[i].dimension, now), member)
  {
    hide CorruptAt, FirstCorrupt, LiveSlots, LongestWait, UpdateFirst, PruneFirst;
    FirstCorruptFinds(s, now, member, limits, |limits|);
    forall i | 0 <= i < |limits|
      ensures CorruptAt(s, now, member, limits[i]) <==>
                limits[i].maxInFlight < 1 && !Has(LiveSlots(s, limits[i].dimension, now), member)
    {
      CorruptBelowOne(s, now, member, limits[i]);
    }
  }

  /** Under prepared limits an acquire is never corrupt, whatever the store holds. */
  lemma AcquireSettles(s: Leases, now: int, ttl: int, member: Member, limits: Limits)
    ensures Acquire(s, now, ttl, member, limits) == Settle(s, now, ttl, member, limits)
    ensures !Acquire(s, now, ttl, member, limits).1.Corrupt?
  {
    hide CorruptAt, FirstCorrupt, LiveSlots, LongestWait, UpdateFirst, PruneFirst, Counts;
    CorruptExactly(s, now, ttl, member, limits);
  }

  lemma StepIsUpdate(s: Leases, c: Call)
    requires !c.DropKey?
    ensures Step(s, c).0 == Update(s, c.now, Named(c), EditOf(s, c))
  {
    hide CorruptAt, FirstCorrupt, LiveSlots, LongestWait, UpdateFirst, PruneFirst, Counts;
    if c.AcquireCall? {
      AcquireSettles(s, c.now, c.ttl, c.member, c.limits);
    }
  }

  lemma {:induction false} UpdateGet(s: Leases, now: int, dims: Dimensions, edit: Edit, n: nat, i: nat)
    requires i < n <= |dims|
    ensures var z, after := Apply(edit, LiveSlots(s, dims[i], now)), UpdateFirst(s, now, dims, edit, n);
            if z == [] then dims[i] !in after
            else dims[i] in after && after[dims[i]] == Key(z, z[|z| - 1].expiry + GRACE_MS)
  {
    hide Apply, LiveSlots;
    if i < n - 1 {
      UpdateGet(s, now, dims, edit, n - 1, i);
    }
  }

  function Run(s: Leases, calls: seq<Call>): Leases
    decreases calls
  {
    if calls == [] then s else Run(Step(s, calls[0]).0, calls[1..])
  }

  /** Fixed configuration: a limit per dimension and a dimension set per lease. */
  datatype Config = Config(limits: map<Dimension, int>, lanes: map<Member, set<Dimension>>)

  ghost predicate SetOf(dims: Dimensions, lanes: set<Dimension>) {
    forall d :: d in lanes <==> exists i :: 0 <= i < |dims| && dims[i] == d
  }

  ghost predicate Conforms(config: Config, c: Call) {
    && (forall i :: 0 <= i < |Named(c)| ==> Named(c)[i] in config.limits)
    && (c.AcquireCall? ==> forall i :: 0 <= i < |c.limits| ==>
         c.limits[i].dimension in config.limits && c.limits[i].maxInFlight == config.limits[c.limits[i].dimension])
    && (c.AcquireCall? || c.RenewCall? || c.ReleaseCall? ==>
          c.member in config.lanes && SetOf(Named(c), config.lanes[c.member]))
    && (c.AcquireCall? || c.RenewCall? ==> c.ttl >= 1)
  }

  ghost predicate OrderedRun(config: Config, calls: seq<Call>, t: int) {
    calls != [] ==> Conforms(config, calls[0]) && t <= calls[0].now && OrderedRun(config, calls[1..], calls[0].now)
  }

  function LastClock(calls: seq<Call>, t: int): int {
    if calls == [] then t else calls[|calls| - 1].now
  }

  ghost predicate Holds(s: Leases, d: Dimension, m: Member, e: int) {
    d in s && Slot(m, e) in s[d].slots
  }

  ghost predicate KeyOK(config: Config, s: Leases, d: Dimension) {
    d in s ==>
      && Ordered(s[d].slots) && s[d].slots != []
      && s[d].expireAt == s[d].slots[|s[d].slots| - 1].expiry + GRACE_MS
      && d in config.limits && |s[d].slots| <= config.limits[d]
  }

  /** A live slot belongs to a known lease, in one of its dimensions, and is matched in all the others. */
  ghost predicate SlotOK(config: Config, s: Leases, d: Dimension, m: Member, e: int, t: int) {
    Holds(s, d, m, e) && e > t ==>
      m in config.lanes && d in config.lanes[m] && forall d' :: d' in config.lanes[m] ==> Holds(s, d', m, e)
  }

  /**
   * Capacity and atomicity: no dimension stores more members than its limit, and a lease alive anywhere
   * is alive in all its dimensions with one common expiry.
   */
  ghost predicate Inv(config: Config, s: Leases, t: int) {
    && (forall d :: KeyOK(config, s, d))
    && (forall d, m, e :: SlotOK(config, s, d, m, e, t))
  }

  lemma TailIsLatest(config: Config, s: Leases, d: Dimension, i: nat)
    requires KeyOK(config, s, d) && d in s && i < |s[d].slots|
    ensures s[d].slots[i].expiry + GRACE_MS <= s[d].expireAt
  {
  }

  /** Expiry aside, the live slots are those of the stored set. */
  lemma RawLive(config: Config, s: Leases, d: Dimension, now: int)
    requires KeyOK(config, s, d)
    ensures LiveSlots(s, d, now) == if d in s then Live(s[d].slots, now) else []
  {
    if d in s && s[d].expireAt <= now {
      LiveOfDead(s[d].slots, now);
    }
  }

  lemma LiveSlotsOf(config: Config, s: Leases, d: Dimension, now: int, m: Member, e: int)
    requires KeyOK(config, s, d)
    ensures Ordered(LiveSlots(s, d, now))
    ensures Slot(m, e) in LiveSlots(s, d, now) <==> Holds(s, d, m, e) && e > now
    ensures d in s ==> |LiveSlots(s, d, now)| <= |s[d].slots|
    ensures d !in s ==> LiveSlots(s, d, now) == []
  {
    RawLive(config, s, d, now);
    if d in s {
      LiveKeeps(s[d].slots, now, Slot(m, e));
    }
  }

  /** What one script call does to one dimension's slots. */
  lemma CallHolds(config: Config, s: Leases, c: Call, d: Dimension, m: Member, e: int)
    requires KeyOK(config, s, d) && !c.DropKey?
    ensures var edit := EditOf(s, c);
            if exists i :: 0 <= i < |Named(c)| && Named(c)[i] == d then
              Holds(Step(s, c).0, d, m, e) <==>
                || (edit.Put? && m == edit.member && e == edit.expiry)
                || (Holds(s, d, m, e) && e > c.now && (edit.Keep? || m != edit.member))
            else
              Holds(Step(s, c).0, d, m, e) == Holds(s, d, m, e)
  {
    hide UpdateFirst, LongestWait, Step, EditOf, Named, Ordered;
    StepIsUpdate(s, c);
    var edit, dims := EditOf(s, c), Named(c);
    if i :| 0 <= i < |dims| && dims[i] == d {
      UpdateGet(s, c.now, dims, edit, |dims|, i);
      LiveSlotsOf(config, s, d, c.now, m, e);
      ApplyKeeps(edit, LiveSlots(s, d, c.now), Slot(m, e));
    } else {
      UntouchedSoFar(s, c.now, dims, edit, |dims|, d);
    }
  }

  // ---------------------------------------------------------------------------------------------
  // The invariant
  // ---------------------------------------------------------------------------------------------

  lemma {:induction false} LongestWaitIsMaximum(s: Leases, now: int, member: Member, limits: AnyLimits, n: nat)
    requires n <= |limits|
    ensures forall i :: 0 <= i < n ==> WaitAt(s, now, member, limits[i]) <= LongestWait(s, now, member, limits, n)
    ensures LongestWait(s, now, member, limits, n) == 0
            || exists i :: 0 <= i < n && WaitAt(s, now, member, limits[i]) == LongestWait(s, now, member, limits, n)
    ensures LongestWait(s, now, member, limits, n) >= 0
  {
    hide WaitAt;
    if n > 0 {
      LongestWaitIsMaximum(s, now, member, limits, n - 1);
    }
  }

  /** A member is added to a set only where it already was, or where the set was below its limit. */
  lemma RoomForPut(config: Config, s: Leases, c: Call, i: nat)
    requires Conforms(config, c) && !c.DropKey? && i < |Named(c)| && EditOf(s, c).Put?
    ensures var z := LiveSlots(s, Named(c)[i], c.now);
            Has(z, EditOf(s, c).member) || |z| < config.limits[Named(c)[i]]
  {
    hide Live;
    if c.AcquireCall? {
      LongestWaitIsMaximum(s, c.now, c.member, c.limits, |c.limits|);
      assert WaitAt(s, c.now, c.member, c.limits[i]) <= 0;
    }
  }

  lemma ScriptKeepsKey(config: Config, s: Leases, c: Call, d: Dimension)
    requires KeyOK(config, s, d) && Conforms(config, c) && !c.DropKey?
    ensures KeyOK(config, Step(s, c).0, d)
  {
    hide UpdateFirst, LongestWait, Step, EditOf, Named, Apply, LiveSlots, Has, Ordered;
    StepIsUpdate(s, c);
    var edit, dims := EditOf(s, c), Named(c);
    if i :| 0 <= i < |dims| && dims[i] == d {
      UpdateGet(s, c.now, dims, edit, |dims|, i);
      LiveSlotsOf(config, s, d, c.now, "", 0);
      ApplyKeeps(edit, LiveSlots(s, d, c.now), Slot("", 0));
      if edit.Put? {
        RoomForPut(config, s, c, i);
      }
    } else {
      UntouchedSoFar(s, c.now, dims, edit, |dims|, d);
    }
  }

  lemma StepKeepsKey(config: Config, s: Leases, c: Call, d: Dimension)
    requires KeyOK(config, s, d) && Conforms(config, c)
    ensures KeyOK(config, Step(s, c).0, d)
  {
    hide Ordered;
    if !c.DropKey? {
      ScriptKeepsKey(config, s, c, d);
    }
  }

  lemma StepKeepsSlot(config: Config, s: Leases, c: Call, t: int, d: Dimension, m: Member, e: int)
    requires Inv(config, s, t) && Conforms(config, c) && t <= c.now
    ensures SlotOK(config, Step(s, c).0, d, m, e, c.now)
  {
    var after := Step(s, c).0;
    assert KeyOK(config, s, d) && SlotOK(config, s, d, m, e, t);
    if c.DropKey? {
      DroppedSlot(config, s, c, t, d, m, e);
    } else {
      ScriptKeepsSlot(config, s, c, t, d, m, e);
    }
  }

  lemma DroppedSlot(config: Config, s: Leases, c: Call, t: int, d: Dimension, m: Member, e: int)
    requires Inv(config, s, t) && c.DropKey? && t <= c.now
    ensures SlotOK(config, Step(s, c).0, d, m, e, c.now)
  {
    assert SlotOK(config, s, d, m, e, t);
    if Holds(Step(s, c).0, d, m, e) && e > c.now {
      forall d' | d' in config.lanes[m] ensures Holds(Step(s, c).0, d', m, e) {
        assert KeyOK(config, s, d');
        var i :| 0 <= i < |s[d'].slots| && s[d'].slots[i] == Slot(m, e);
        TailIsLatest(config, s, d', i);
      }
    }
  }

  lemma ScriptKeepsSlot(config: Config, s: Leases, c: Call, t: int, d: Dimension, m: Member, e: int)
    requires Inv(config, s, t) && Conforms(config, c) && t <= c.now && !c.DropKey?
    ensures SlotOK(config, Step(s, c).0, d, m, e, c.now)
  {
    hide UpdateFirst, LongestWait, Step, Ordered, LiveSlots;
    var after, edit := Step(s, c).0, EditOf(s, c);
    if Holds(after, d, m, e) && e > c.now {
      assert KeyOK(config, s, d) && SlotOK(config, s, d, m, e, t);
      CallHolds(config, s, c, d, m, e);
      if edit.Put? && m == edit.member && e == edit.expiry {
        assert SetOf(Named(c), config.lanes[m]);
      }
      forall d' | d' in config.lanes[m] ensures Holds(after, d', m, e) {
        assert KeyOK(config, s, d');
        CallHolds(config, s, c, d', m, e);
        if !edit.Keep? && m == edit.member {
          assert SetOf(Named(c), config.lanes[m]);
        }
      }
    }
  }

  lemma StepKeepsInv(config: Config, s: Leases, c: Call, t: int)
    requires Inv(config, s, t) && Conforms(config, c) && t <= c.now
    ensures Inv(config, Step(s, c).0, c.now)
  {
    hide Step, SlotOK, KeyOK, Conforms;
    var after := Step(s, c).0;
    forall d ensures KeyOK(config, after, d) {
      assert KeyOK(config, s, d);
      StepKeepsKey(config, s, c, d);
    }
    forall d, m, e ensures SlotOK(config, after, d, m, e, c.now) {
      StepKeepsSlot(config, s, c, t, d, m, e);
    }
  }

  lemma {:induction false} RunKeepsInv(config: Config, s: Leases, calls: seq<Call>, t: int)
    requires Inv(config, s, t) && OrderedRun(config, calls, t)
    ensures Inv(config, Run(s, calls), LastClock(calls, t)) && t <= LastClock(calls, t)
    decreases calls
  {
    hide Step, Inv, Conforms;
    if calls != [] {
      StepKeepsInv(config, s, calls[0], t);
      RunKeepsInv(config, Step(s, calls[0]).0, calls[1..], calls[0].now);
    }
  }

  /**
   * Over every run of acquire, renew, release, cleanup and key expiry from an empty store: each dimension
   * has at most MaxInFlight live members at every later instant, and a lease is live in all its dimensions
   * with one common expiry, or in none.
   */
  lemma CapacityAndAtomicity(config: Config, calls: seq<Call>, t: int, now: int)
    requires OrderedRun(config, calls, t) && LastClock(calls, t) <= now
    ensures var s := Run(map[], calls);
            && (forall d :: d in config.limits && config.limits[d] >= 0 ==> |LiveSlots(s, d, now)| <= config.limits[d])
            && (forall d, m, e :: Slot(m, e) in LiveSlots(s, d, now) ==>
                  m in config.lanes && d in config.lanes[m]
                  && forall d' :: d' in config.lanes[m] ==> Slot(m, e) in LiveSlots(s, d', now))
  {
    hide Step, Run, SlotOK, KeyOK, Conforms, LiveSlots, Holds, OrderedRun;
    EmptyInv(config, t);
    RunKeepsInv(config, map[], calls, t);
    var s, last := Run(map[], calls), LastClock(calls, t);
    forall d | d in config.limits && config.limits[d] >= 0 ensures |LiveSlots(s, d, now)| <= config.limits[d] {
      WithinLimit(config, s, d, now);
    }
    forall d, m, e | Slot(m, e) in LiveSlots(s, d, now)
      ensures m in config.lanes && d in config.lanes[m]
              && forall d' :: d' in config.lanes[m] ==> Slot(m, e) in LiveSlots(s, d', now)
    {
      LiveEverywhere(config, s, d, m, e, last, now);
    }
  }

  lemma EmptyInv(config: Config, t: int)
    ensures Inv(config, map[], t)
  {
  }

  lemma WithinLimit(config: Config, s: Leases, d: Dimension, now: int)
    requires KeyOK(config, s, d) && d in config.limits && config.limits[d] >= 0
    ensures |LiveSlots(s, d, now)| <= config.limits[d]
  {
    LiveSlotsOf(config, s, d, now, "", 0);
  }

  lemma LiveEverywhere(config: Config, s: Leases, d: Dimension, m: Member, e: int, t: int, now: int)
    requires Inv(config, s, t) && t <= now && Slot(m, e) in LiveSlots(s, d, now)
    ensures m in config.lanes && d in config.lanes[m]
    ensures forall d' :: d' in config.lanes[m] ==> Slot(m, e) in LiveSlots(s, d', now)
  {
    hide LiveSlots, Ordered;
    assert KeyOK(config, s, d) && SlotOK(config, s, d, m, e, t);
    LiveSlotsOf(config, s, d, now, m, e);
    forall d' | d' in config.lanes[m] ensures Slot(m, e) in LiveSlots(s, d', now) {
      assert KeyOK(config, s, d');
      LiveSlotsOf(config, s, d', now, m, e);
    }
  }
}
