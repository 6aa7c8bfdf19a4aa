/** The number of dead slots a cleanup reports, compared with a server that never drops a lease key. */
module LeaseCleanup {
  import opened LeaseScript
  import opened LeaseLaws
  import opened LeaseRetry

  // ---------------------------------------------------------------------------------------------
  // A server and its never-dropping twin
  // ---------------------------------------------------------------------------------------------

  /** On dimension `d` the twin `r` stores what `s` stores, or a set that `s` was entitled to drop by `t`. */
  ghost predicate TrailsAt(s: Leases, r: Leases, d: Dimension, t: int) {
    && (d in s ==> d in r && r[d].slots == s[d].slots)
    && (d in r ==> Ordered(r[d].slots) && r[d].slots != [])
    && (d in r && d !in s ==> r[d].slots[|r[d].slots| - 1].expiry + GRACE_MS <= t)
  }

  ghost predicate Trails(s: Leases, r: Leases, t: int) {
    forall d :: TrailsAt(s, r, d, t)
  }

  lemma AllDead(z: SortedSet, now: int)
    requires Ordered(z) && z != [] && z[|z| - 1].expiry <= now
    ensures Live(z, now) == []
  {
    LiveOfDead(z, now);
  }

  /** Both servers show the same live slots. */
  lemma TrailsShowsLive(config: Config, s: Leases, r: Leases, d: Dimension, t: int, now: int, horizon: int)
    requires KeyOK(config, s, d) && TrailsAt(s, r, d, t) && t <= now < horizon
    ensures LiveSlots(s, d, now) == LiveSlots(KeepForever(r, horizon), d, now)
  {
    hide Live;
    RawLive(config, s, d, now);
    EmptyLive(now);
    if d in r && d !in s {
      AllDead(r[d].slots, now);
    }
  }

  /** A trailing twin is one that key expiry hides from every decision. */
  lemma TrailsShadows(config: Config, s: Leases, r: Leases, t: int, horizon: int)
    requires Inv(config, s, t) && Trails(s, r, t)
    ensures Shadows(s, r, t, horizon)
  {
    hide KeyOK, SlotOK, LiveSlots, Ordered;
    forall d | d in r ensures Ordered(r[d].slots) {
      assert TrailsAt(s, r, d, t);
    }
    forall d, now | t <= now < horizon ensures LiveSlots(s, d, now) == LiveSlots(KeepForever(r, horizon), d, now) {
      assert KeyOK(config, s, d) && TrailsAt(s, r, d, t);
      TrailsShowsLive(config, s, r, d, t, now, horizon);
    }
  }

  lemma DropKeepsTrailing(config: Config, s: Leases, r: Leases, c: Call, d: Dimension, t: int)
    requires KeyOK(config, s, d) && TrailsAt(s, r, d, t) && c.DropKey? && t <= c.now
    ensures TrailsAt(Step(s, c).0, r, d, c.now)
  {
    hide Ordered;
  }

  /** A script edits both servers alike, whatever it names. */
  lemma ScriptKeepsTrailing(config: Config, s: Leases, r: Leases, c: Call, d: Dimension, t: int, horizon: int)
    requires (forall k :: KeyOK(config, s, k)) && Trails(s, r, t) && !c.DropKey? && t <= c.now < horizon
    ensures TrailsAt(Step(s, c).0, KeptStep(r, c, horizon).0, d, c.now)
  {
    hide UpdateFirst, Step, EditOf, Named, Apply, Live, KeyOK, Ordered, LiveSlots;
    var kept, dims := KeepForever(r, horizon), Named(c);
    forall k ensures LiveSlots(s, k, c.now) == LiveSlots(kept, k, c.now) {
      assert KeyOK(config, s, k) && TrailsAt(s, r, k, t);
      TrailsShowsLive(config, s, r, k, t, c.now, horizon);
    }
    SameDecision(s, kept, c);
    StepIsUpdate(s, c);
    StepIsUpdate(kept, c);
    assert TrailsAt(s, r, d, t);
    var edit := EditOf(s, c);
    if i :| 0 <= i < |dims| && dims[i] == d {
      UpdateGet(s, c.now, dims, edit, |dims|, i);
      UpdateGet(kept, c.now, dims, edit, |dims|, i);
      assert KeyOK(config, s, d);
      LiveSlotsOf(config, s, d, c.now, "", 0);
      ApplyKeeps(edit, LiveSlots(s, d, c.now), Slot("", 0));
    } else {
      UntouchedSoFar(s, c.now, dims, edit, |dims|, d);
      UntouchedSoFar(kept, c.now, dims, edit, |dims|, d);
    }
  }

  lemma StepKeepsTrailing(config: Config, s: Leases, r: Leases, c: Call, t: int, horizon: int)
    requires Inv(config, s, t) && Trails(s, r, t) && t <= c.now < horizon
    ensures Trails(Step(s, c).0, KeptStep(r, c, horizon).0, c.now)
  {
    hide TrailsAt, KeyOK, SlotOK, Step;
    forall d ensures TrailsAt(Step(s, c).0, KeptStep(r, c, horizon).0, d, c.now) {
      assert KeyOK(config, s, d) && TrailsAt(s, r, d, t);
      if c.DropKey? {
        DropKeepsTrailing(config, s, r, c, d, t);
      } else {
        ScriptKeepsTrailing(config, s, r, c, d, t, horizon);
      }
    }
  }

  // ---------------------------------------------------------------------------------------------
  // One cleanup
  // ---------------------------------------------------------------------------------------------

  /** Every set the twin still stores is there, under a key that is not yet due. */
  predicate NothingHidden(s: Leases, r: Leases, now: int, dims: seq<Dimension>) {
    forall i :: 0 <= i < |dims| && dims[i] in r ==> dims[i] in s && now < s[dims[i]].expireAt
  }

  /** A due or dropped key hides its dead slots from the count, and it has some. */
  lemma HiddenSlots(config: Config, s: Leases, r: Leases, d: Dimension, t: int, now: int, horizon: int)
    requires KeyOK(config, s, d) && TrailsAt(s, r, d, t) && t <= now < horizon
    ensures var kept := KeepForever(r, horizon);
            && LiveSlots(s, d, now) == LiveSlots(kept, d, now)
            && |Slots(s, d, now)| <= |Slots(kept, d, now)|
            && (|Slots(s, d, now)| == |Slots(kept, d, now)| <==> (d in r ==> d in s && now < s[d].expireAt))
  {
    hide Live, Ordered;
    TrailsShowsLive(config, s, r, d, t, now, horizon);
  }

  lemma {:induction false} PrunedCountAgrees(config: Config, s: Leases, r: Leases, t: int, now: int, dims: Dimensions,
                                             n: nat, horizon: int)
    requires (forall d :: KeyOK(config, s, d)) && Trails(s, r, t) && t <= now < horizon && n <= |dims|
    ensures var kept := KeepForever(r, horizon);
            && PrunedCount(s, now, dims, n) <= PrunedCount(kept, now, dims, n)
            && (PrunedCount(s, now, dims, n) == PrunedCount(kept, now, dims, n) <==>
                  NothingHidden(s, r, now, dims[..n]))
  {
    hide KeyOK, LiveSlots, Slots, TrailsAt, KeepForever;
    if n > 0 {
      PrunedCountAgrees(config, s, r, t, now, dims, n - 1, horizon);
      assert KeyOK(config, s, dims[n - 1]) && TrailsAt(s, r, dims[n - 1], t);
      HiddenSlots(config, s, r, dims[n - 1], t, now, horizon);
      assert dims[..n] == dims[..n - 1] + [dims[n - 1]];
    }
  }

  /** A call replies like the never-dropping server exactly if it is no cleanup, or nothing is hidden from it. */
  lemma RepliesAlike(config: Config, s: Leases, r: Leases, c: Call, t: int, horizon: int)
    requires Inv(config, s, t) && Conforms(config, c) && Trails(s, r, t) && t <= c.now < horizon
    ensures Step(s, c).1 == KeptStep(r, c, horizon).1 <==> (c.CleanupCall? ==> NothingHidden(s, r, c.now, c.dims))
  {
    hide KeyOK, LiveSlots, Slots, PrunedCount, UpdateFirst, SlotOK, Acquire;
    hide NothingHidden, KeepForever, Trails, Shadows;
    TrailsShadows(config, s, r, t, horizon);
    ShadowStep(config, s, r, c, t, horizon);
    if c.AcquireCall? {
      GrantedUnlessDenied(s, c);
      GrantedUnlessDenied(KeepForever(r, horizon), c);
    }
    if c.CleanupCall? {
      PrunedCountAgrees(config, s, r, t, c.now, c.dims, |c.dims|, horizon);
      assert c.dims[..|c.dims|] == c.dims;
    }
  }

  // ---------------------------------------------------------------------------------------------
  // Runs
  // ---------------------------------------------------------------------------------------------

  function KeptReplies(r: Leases, calls: seq<Call>, horizon: int): seq<Reply>
    decreases calls
  {
    if calls == [] then []
    else [KeptStep(r, calls[0], horizon).1] + KeptReplies(KeptStep(r, calls[0], horizon).0, calls[1..], horizon)
  }

  /** No cleanup of the run has slots hidden from it. */
  predicate NeverHidden(s: Leases, r: Leases, calls: seq<Call>, horizon: int)
    decreases calls
  {
    calls != [] ==>
      && (calls[0].CleanupCall? ==> NothingHidden(s, r, calls[0].now, calls[0].dims))
      && NeverHidden(Step(s, calls[0]).0, KeptStep(r, calls[0], horizon).0, calls[1..], horizon)
  }

  /**
   * Exactly when key expiry shows: over every run on a non-decreasing clock, all replies in full are those of a
   * server that never drops a lease key if and only if every cleanup finds, alive, the key of each set that the
   * other server still stores in the dimensions it names.
   */
  lemma {:induction false} ExpiryShowsExactly(config: Config, s: Leases, r: Leases, calls: seq<Call>, t: int,
                                              horizon: int)
    requires Inv(config, s, t) && Trails(s, r, t) && OrderedRun(config, calls, t)
    requires forall i :: 0 <= i < |calls| ==> calls[i].now < horizon
    ensures Replies(s, calls) == KeptReplies(r, calls, horizon) <==> NeverHidden(s, r, calls, horizon)
    decreases calls
  {
    hide Step, KeptStep, Inv, Trails, Conforms, NothingHidden;
    if calls != [] {
      var c, rest := calls[0], calls[1..];
      RepliesAlike(config, s, r, c, t, horizon);
      StepKeepsTrailing(config, s, r, c, t, horizon);
      StepKeepsInv(config, s, c, t);
      forall i | 0 <= i < |rest| ensures rest[i].now < horizon {
        assert rest[i] == calls[i + 1];
      }
      var next, next' := Step(s, c).0, KeptStep(r, c, horizon).0;
      ExpiryShowsExactly(config, next, next', rest, c.now, horizon);
      var all, kept := Replies(s, calls), KeptReplies(r, calls, horizon);
      assert all[1..] == Replies(next, rest) && kept[1..] == KeptReplies(next', rest, horizon);
      assert all == [all[0]] + all[1..] && kept == [kept[0]] + kept[1..];
    }
  }

  /** Both servers start empty. */
  lemma EmptyTrails(t: int)
    ensures Trails(map[], map[], t)
  {
  }

  // ---------------------------------------------------------------------------------------------
  // An instance
  // ---------------------------------------------------------------------------------------------

  const LIMITS := Config(map["d" := 1], map["m" := {"d"}])

  /** One lease, expired at 0, in a key that is due at 1000. */
  const DUE: Leases := map["d" := Key([Slot("m", 0)], GRACE_MS)]

  const CLEANUP := CleanupCall(GRACE_MS, ["d"])

  lemma DueIsReachable()
    ensures Inv(LIMITS, DUE, 0) && Trails(DUE, DUE, 0)
  {
    forall d ensures KeyOK(LIMITS, DUE, d) {
    }
    forall d, m, e ensures SlotOK(LIMITS, DUE, d, m, e, 0) {
    }
  }

  lemma CleanupCounts(r: Leases, removed: nat)
    requires |Slots(r, "d", GRACE_MS)| == removed && LiveSlots(r, "d", GRACE_MS) == []
    ensures Step(r, CLEANUP).1.removed == removed
  {
    hide UpdateFirst, Counts, Slots, LiveSlots;
    var dims: Dimensions := ["d"];
    assert PrunedCount(r, GRACE_MS, dims, 0) == 0;
    assert PrunedCount(r, GRACE_MS, dims, 1) == removed;
  }

  /**
   * On a store the scripts leave, a cleanup counts nothing once the key is due, whether Valkey has dropped it yet
   * or not, and counts one slot on the server that kept it.
   */
  lemma CleanupCountCanDiffer()
    ensures Inv(LIMITS, DUE, 0) && Trails(DUE, DUE, 0)
    ensures Step(DUE, CLEANUP).1.removed == 0
    ensures Step(Step(DUE, DropKey(GRACE_MS, "d")).0, CLEANUP).1.removed == 0
    ensures KeptStep(DUE, CLEANUP, GRACE_MS + 1).1.removed == 1
  {
    hide Step;
    DueIsReachable();
    LiveOfDead([Slot("m", 0)], GRACE_MS);
    LiveOfDead([], GRACE_MS);
    CleanupCounts(DUE, 0);
    DroppedIsEmpty();
    CleanupCounts(map[], 0);
    var kept := KeepForever(DUE, GRACE_MS + 1);
    assert Slots(kept, "d", GRACE_MS) == [Slot("m", 0)];
    CleanupCounts(kept, 1);
  }

  lemma DroppedIsEmpty()
    ensures Step(DUE, DropKey(GRACE_MS, "d")).0 == map[]
  {
    assert Slots(DUE, "d", GRACE_MS) == [];
  }
}
