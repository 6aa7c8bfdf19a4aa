/** Lease retry times are exact, and neither pruning nor key expiry changes any decision. */
module LeaseRetry {
  import opened Common
  import opened LeaseScript
  import opened LeaseLaws

  lemma {:induction false} LiveIsSuffix(z: SortedSet, now: int)
    ensures Live(z, now) == z[|z| - |Live(z, now)|..]
  {
    if z != [] && z[0].expiry <= now {
      LiveIsSuffix(z[1..], now);
    }
  }

  lemma {:induction false} LiveIsAlive(z: SortedSet, now: int, i: nat)
    requires Ordered(z) && i < |Live(z, now)|
    ensures Live(z, now)[i].expiry > now
  {
    LiveKeeps(z, now, Live(z, now)[i]);
  }

  /** One dimension's wait only counts down: rank count - limit is the slot whose expiry makes room. */
  lemma SetWaitCountsDown(z: SortedSet, member: Member, limit: int, now: int, t: int)
    requires Ordered(z) && limit >= 1 && now <= t && !Has(z, member)
    requires forall i :: 0 <= i < |z| ==> z[i].expiry > now
    ensures !Has(Live(z, t), member)
    ensures Wait(Live(z, t), member, limit, t) == Max(0, now + Wait(z, member, limit, now) - t)
  {
    hide Live, Ordered;
    LiveIsSuffix(z, t);
    var live := Live(z, t);
    assert live == z[|z| - |live|..];
    if |z| >= limit {
      LiveCount(z, limit, t);
      assert |live| >= limit ==> live[|live| - limit] == z[|z| - limit];
    }
  }

  lemma DimensionWaitCountsDown(config: Config, s: Leases, l: Limit, member: Member, now: int, t: int)
    requires KeyOK(config, s, l.dimension) && l.maxInFlight >= 1 && now <= t
    requires !Has(LiveSlots(s, l.dimension, now), member)
    ensures !Has(LiveSlots(s, l.dimension, t), member)
    ensures WaitAt(s, t, member, l) == Max(0, now + WaitAt(s, now, member, l) - t)
  {
    hide Wait, Has, Ordered;
    var d := l.dimension;
    RawLive(config, s, d, now);
    RawLive(config, s, d, t);
    LiveSlotsOf(config, s, d, now, "", 0);
    var raw := if d in s then s[d].slots else [];
    LiveTwice(raw, now, t);
    var z := LiveSlots(s, d, now);
    forall i | 0 <= i < |z| ensures z[i].expiry > now {
      LiveIsAlive(raw, now, i);
    }
    SetWaitCountsDown(z, member, l.maxInFlight, now, t);
  }

  /** On a reachable store, a member alive in one of its dimensions is let in everywhere. */
  lemma HolderIsGranted(config: Config, s: Leases, c: Call, t: int, i: nat)
    requires Inv(config, s, t) && t <= c.now && c.AcquireCall? && Conforms(config, c)
    requires i < |c.limits| && Has(LiveSlots(s, c.limits[i].dimension, c.now), c.member)
    ensures LongestWait(s, c.now, c.member, c.limits, |c.limits|) == 0
  {
    hide LiveSlots, Inv;
    LongestWaitIsMaximum(s, c.now, c.member, c.limits, |c.limits|);
    var z := LiveSlots(s, c.limits[i].dimension, c.now);
    var k :| 0 <= k < |z| && z[k].member == c.member;
    LiveEverywhere(config, s, c.limits[i].dimension, c.member, z[k].expiry, t, c.now);
    forall j | 0 <= j < |c.limits| ensures WaitAt(s, c.now, c.member, c.limits[j]) == 0 {
      assert Named(c)[j] in config.lanes[c.member];
      var other := LiveSlots(s, c.limits[j].dimension, c.now);
      assert Slot(c.member, z[k].expiry) in other;
      assert Has(other, c.member);
    }
  }

  lemma LongestWaitCountsDown(config: Config, s: Leases, c: Call, from: int, t: int)
    requires Inv(config, s, from) && from <= c.now <= t && c.AcquireCall? && Conforms(config, c)
    requires LongestWait(s, c.now, c.member, c.limits, |c.limits|) != 0
    ensures LongestWait(s, t, c.member, c.limits, |c.limits|)
              == Max(0, c.now + LongestWait(s, c.now, c.member, c.limits, |c.limits|) - t)
  {
    hide LiveSlots, LongestWait, WaitAt, KeyOK, Has, Conforms;
    forall i | 0 <= i < |c.limits|
      ensures WaitAt(s, t, c.member, c.limits[i]) == Max(0, c.now + WaitAt(s, c.now, c.member, c.limits[i]) - t)
    {
      assert KeyOK(config, s, c.limits[i].dimension);
      if Has(LiveSlots(s, c.limits[i].dimension, c.now), c.member) {
        HolderIsGranted(config, s, c, from, i);
        assert false;
      } else {
        DimensionWaitCountsDown(config, s, c.limits[i], c.member, c.now, t);
      }
    }
    LongestWaitIsMaximum(s, c.now, c.member, c.limits, |c.limits|);
    LongestWaitIsMaximum(s, t, c.member, c.limits, |c.limits|);
  }

  /** The same acquire at another instant. */
  function At(c: Call, now: int): Call
    requires c.AcquireCall?
  {
    AcquireCall(now, c.ttl, c.member, c.limits)
  }

  /** Whatever the store holds, no script call replies corrupt: the slot at rank count - limit always exists. */
  lemma CorruptReplyIsUnreachable(s: Leases, c: Call)
    ensures !Step(s, c).1.Corrupt?
  {
    hide Acquire, UpdateFirst, LiveSlots, PrunedCount, HeldCount;
    if c.AcquireCall? {
      AcquireSettles(s, c.now, c.ttl, c.member, c.limits);
    }
  }

  /**
   * The lease retry time is exact: on a reachable store an acquire refused at `now` is refused at every
   * later instant before the reported one, naming the same instant each time, and granted from it on.
   */
  lemma LeaseRetryIsExact(config: Config, s: Leases, c: Call, from: int, t: int)
    requires Inv(config, s, from) && from <= c.now <= t && c.AcquireCall? && Conforms(config, c)
    requires Step(s, c).1.Denied?
    ensures var retryAt := c.now + Step(s, c).1.retryAfter;
            var again := Step(s, At(c, t)).1;
            && c.now < retryAt
            && (t < retryAt ==> again.Denied? && t + again.retryAfter == retryAt)
            && (t >= retryAt ==> again.Granted?)
  {
    hide LiveSlots, LongestWait, UpdateFirst, Acquire, Counts;
    AcquireSettles(s, c.now, c.ttl, c.member, c.limits);
    AcquireSettles(s, t, c.ttl, c.member, c.limits);
    LongestWaitIsMaximum(s, c.now, c.member, c.limits, |c.limits|);
    LongestWaitCountsDown(config, s, c, from, t);
  }

  // ---------------------------------------------------------------------------------------------
  // Quiet calls and key expiry
  // ---------------------------------------------------------------------------------------------

  /** From `from` on both stores show the same live slots. */
  ghost predicate SameLive(s: Leases, s': Leases, from: int, until: int) {
    forall d, t :: from <= t < until ==> LiveSlots(s, d, t) == LiveSlots(s', d, t)
  }

  lemma EditedLive(config: Config, s: Leases, c: Call, d: Dimension, t: int)
    requires KeyOK(config, s, d) && Conforms(config, c) && !c.DropKey? && c.now <= t
    ensures var named := exists i :: 0 <= i < |Named(c)| && Named(c)[i] == d;
            LiveSlots(Step(s, c).0, d, t) ==
              if named then Live(Apply(EditOf(s, c), LiveSlots(s, d, c.now)), t) else LiveSlots(s, d, t)
  {
    hide UpdateFirst, LongestWait, Step, EditOf, Named, Apply, Has, Ordered, Live;
    var after := Step(s, c).0;
    StepIsUpdate(s, c);
    ScriptKeepsKey(config, s, c, d);
    RawLive(config, after, d, t);
    if i :| 0 <= i < |Named(c)| && Named(c)[i] == d {
      UpdateGet(s, c.now, Named(c), EditOf(s, c), |Named(c)|, i);
      EmptyLive(t);
    } else {
      UntouchedSoFar(s, c.now, Named(c), EditOf(s, c), |Named(c)|, d);
    }
  }

  lemma EmptyLive(t: int)
    ensures Live([], t) == []
  {
  }

  /** A refused acquire, a cleanup and a dropped key leave every later view of the store unchanged. */
  lemma QuietCall(config: Config, s: Leases, c: Call, from: int, d: Dimension, t: int)
    requires Inv(config, s, from) && Conforms(config, c) && from <= c.now <= t
    requires c.CleanupCall? || c.DropKey? || (c.AcquireCall? && Step(s, c).1.Denied?)
    ensures LiveSlots(Step(s, c).0, d, t) == LiveSlots(s, d, t)
  {
    assert KeyOK(config, s, d);
    if c.DropKey? {
      DropIsQuiet(config, s, c, d, t);
    } else {
      KeepIsQuiet(config, s, c, d, t);
    }
  }

  lemma DropIsQuiet(config: Config, s: Leases, c: Call, d: Dimension, t: int)
    requires KeyOK(config, s, d) && c.DropKey? && c.now <= t
    ensures LiveSlots(Step(s, c).0, d, t) == LiveSlots(s, d, t)
  {
    hide Ordered;
    RawLive(config, s, d, c.now);
    RawLive(config, s, d, t);
    if d in s {
      LiveTwice(s[d].slots, c.now, t);
    }
  }

  lemma KeepIsQuiet(config: Config, s: Leases, c: Call, d: Dimension, t: int)
    requires KeyOK(config, s, d) && Conforms(config, c) && c.now <= t
    requires c.CleanupCall? || (c.AcquireCall? && Step(s, c).1.Denied?)
    ensures LiveSlots(Step(s, c).0, d, t) == LiveSlots(s, d, t)
  {
    hide UpdateFirst, LiveSlots, Live, LongestWait;
    EditedLive(config, s, c, d, t);
    assert EditOf(s, c) == Keep;
    RawLive(config, s, d, c.now);
    RawLive(config, s, d, t);
    EmptyLive(t);
    if d in s {
      LiveTwice(s[d].slots, c.now, t);
    }
  }

  /**
   * A run without competing grants: cleanups, key drops, acquires of any kind that are refused, and repeats of the
   * acquire `c` before `retryAt`.
   */
  ghost predicate QuietRun(config: Config, s: Leases, calls: seq<Call>, c: Call, from: int, retryAt: int)
    requires c.AcquireCall?
    decreases calls
  {
    calls != [] ==>
      var q := calls[0];
      && from <= q.now && Conforms(config, q)
      && (q.CleanupCall? || q.DropKey? || Repeats(q, c, retryAt) || (q.AcquireCall? && Step(s, q).1.Denied?))
      && QuietRun(config, Step(s, q).0, calls[1..], c, q.now, retryAt)
  }

  predicate Repeats(q: Call, c: Call, retryAt: int)
    requires c.AcquireCall?
  {
    q == At(c, q.now) && q.now < retryAt
  }

  function Replies(s: Leases, calls: seq<Call>): seq<Reply>
    decreases calls
  {
    if calls == [] then [] else [Step(s, calls[0]).1] + Replies(Step(s, calls[0]).0, calls[1..])
  }

  /** Every repeat of the acquire is refused and names the same retry instant. */
  ghost predicate AllRefusedUntil(calls: seq<Call>, replies: seq<Reply>, c: Call, retryAt: int)
    requires c.AcquireCall?
  {
    && |replies| == |calls|
    && forall i :: 0 <= i < |calls| && Repeats(calls[i], c, retryAt) ==>
         replies[i].Denied? && calls[i].now + replies[i].retryAfter == retryAt
  }

  lemma {:induction false} SameWaits(s: Leases, s': Leases, now: int, member: Member, limits: Limits, n: nat)
    requires n <= |limits| && forall i :: 0 <= i < |limits| ==>
               LiveSlots(s, limits[i].dimension, now) == LiveSlots(s', limits[i].dimension, now)
    ensures LongestWait(s, now, member, limits, n) == LongestWait(s', now, member, limits, n)
  {
    hide LiveSlots;
    if n > 0 {
      SameWaits(s, s', now, member, limits, n - 1);
    }
  }

  /** From `from` on both stores show the same live slots. */
  ghost predicate Alike(s: Leases, s': Leases, from: int) {
    forall d, t :: from <= t ==> LiveSlots(s, d, t) == LiveSlots(s', d, t)
  }

  /** Nothing in a quiet run shows in a later view, and every repeat of the acquire is refused. */
  lemma {:induction false} QuietRunIsInvisible(config: Config, start: Leases, s: Leases, c: Call, calls: seq<Call>,
                                               began: int, from: int)
    requires Inv(config, start, began) && Inv(config, s, from) && began <= c.now <= from
    requires c.AcquireCall? && Conforms(config, c) && Step(start, c).1.Denied? && Alike(start, s, from)
    requires QuietRun(config, s, calls, c, from, c.now + Step(start, c).1.retryAfter)
    ensures from <= LastClock(calls, from)
    ensures Alike(start, Run(s, calls), LastClock(calls, from))
    ensures AllRefusedUntil(calls, Replies(s, calls), c, c.now + Step(start, c).1.retryAfter)
    decreases calls
  {
    hide Step, Inv, Conforms, LiveSlots;
    if calls != [] {
      var q, rest := calls[0], calls[1..];
      var retryAt, next := c.now + Step(start, c).1.retryAfter, Step(s, q).0;
      LeaseRetryIsExact(config, start, c, began, q.now);
      SameRefusal(start, s, At(c, q.now));
      StepKeepsInv(config, s, q, from);
      forall d, t | q.now <= t ensures LiveSlots(start, d, t) == LiveSlots(next, d, t) {
        QuietCall(config, s, q, from, d, t);
      }
      QuietRunIsInvisible(config, start, next, c, rest, began, q.now);
      var replies, later := Replies(s, calls), Replies(next, rest);
      forall i | 0 <= i < |calls| && Repeats(calls[i], c, retryAt)
        ensures replies[i].Denied? && calls[i].now + replies[i].retryAfter == retryAt
      {
        if i > 0 {
          assert calls[i] == rest[i - 1] && replies[i] == later[i - 1];
        }
      }
    }
  }

  /**
   * With no competing grant, the acquire is refused until exactly the first reported instant and granted from then
   * on, however often it is repeated and whatever else is refused, cleaned up or dropped meanwhile.
   */
  lemma QuietRetry(config: Config, s: Leases, c: Call, calls: seq<Call>, from: int, t: int)
    requires Inv(config, s, from) && from <= c.now && c.AcquireCall? && Conforms(config, c) && Step(s, c).1.Denied?
    requires QuietRun(config, s, calls, c, c.now, c.now + Step(s, c).1.retryAfter) && t >= LastClock(calls, c.now)
    ensures var retryAt := c.now + Step(s, c).1.retryAfter;
            var reply := Step(Run(s, calls), At(c, t)).1;
            && AllRefusedUntil(calls, Replies(s, calls), c, retryAt)
            && (t < retryAt ==> reply.Denied? && t + reply.retryAfter == retryAt)
            && (t >= retryAt ==> reply.Granted?)
  {
    hide Step, Inv, Conforms, LiveSlots;
    InvLater(config, s, from, c.now);
    QuietRunIsInvisible(config, s, s, c, calls, c.now, c.now);
    LeaseRetryIsExact(config, s, c, c.now, t);
    SameRefusal(s, Run(s, calls), At(c, t));
    GrantedUnlessDenied(Run(s, calls), At(c, t));
  }

  lemma GrantedUnlessDenied(s: Leases, c: Call)
    requires c.AcquireCall?
    ensures Step(s, c).1.Denied? || Step(s, c).1.Granted?
  {
    hide Acquire, UpdateFirst, LiveSlots, LongestWait, Counts;
    AcquireSettles(s, c.now, c.ttl, c.member, c.limits);
  }

  lemma InvLater(config: Config, s: Leases, from: int, t: int)
    requires Inv(config, s, from) && from <= t
    ensures Inv(config, s, t)
  {
    forall d, m, e ensures SlotOK(config, s, d, m, e, t) {
      assert SlotOK(config, s, d, m, e, from);
    }
  }

  lemma SameRefusal(s: Leases, s': Leases, c: Call)
    requires c.AcquireCall? && forall d :: LiveSlots(s', d, c.now) == LiveSlots(s, d, c.now)
    ensures Step(s, c).1.Denied? == Step(s', c).1.Denied?
    ensures Step(s, c).1.Denied? ==> Step(s, c).1.retryAfter == Step(s', c).1.retryAfter
  {
    hide LiveSlots, UpdateFirst, LongestWait, Acquire;
    AcquireSettles(s, c.now, c.ttl, c.member, c.limits);
    AcquireSettles(s', c.now, c.ttl, c.member, c.limits);
    SameWaits(s, s', c.now, c.member, c.limits, |c.limits|);
  }

  // ---------------------------------------------------------------------------------------------
  // Keeping keys forever
  // ---------------------------------------------------------------------------------------------

  function KeepForever(s: Leases, horizon: int): Leases {
    map d | d in s :: s[d].(expireAt := horizon)
  }

  /** A step of a server that never drops a lease key before `horizon`. */
  function KeptStep(r: Leases, c: Call, horizon: int): (Leases, Reply) {
    if c.DropKey? then (r, Cleaned(c.now, 0, [])) else Step(KeepForever(r, horizon), c)
  }

  /** What a reply decides; how many dead slots a cleanup happened to sweep is bookkeeping. */
  function Decision(reply: Reply): Reply {
    if reply.Cleaned? then Cleaned(reply.at, 0, reply.counts) else reply
  }

  function Decisions(s: Leases, calls: seq<Call>): seq<Reply>
    decreases calls
  {
    if calls == [] then [] else [Decision(Step(s, calls[0]).1)] + Decisions(Step(s, calls[0]).0, calls[1..])
  }

  function KeptDecisions(r: Leases, calls: seq<Call>, horizon: int): seq<Reply>
    decreases calls
  {
    if calls == [] then []
    else
      [Decision(KeptStep(r, calls[0], horizon).1)]
        + KeptDecisions(KeptStep(r, calls[0], horizon).0, calls[1..], horizon)
  }

  /** `r` keeps what `s` may have dropped: same live slots from `t` on, and well-formed sets. */
  ghost predicate Shadows(s: Leases, r: Leases, t: int, horizon: int) {
    && (forall d :: d in r ==> Ordered(r[d].slots))
    && SameLive(s, KeepForever(r, horizon), t, horizon)
  }

  lemma {:induction false} SameHeldCount(s: Leases, s': Leases, now: int, dims: Dimensions, member: Member, n: nat)
    requires n <= |dims| && forall d :: LiveSlots(s, d, now) == LiveSlots(s', d, now)
    ensures HeldCount(s, now, dims, member, n) == HeldCount(s', now, dims, member, n)
  {
    hide LiveSlots;
    if n > 0 {
      SameHeldCount(s, s', now, dims, member, n - 1);
    }
  }

  /** A script decides and edits by the live slots alone. */
  lemma SameDecision(s: Leases, s': Leases, c: Call)
    requires !c.DropKey? && forall d :: LiveSlots(s, d, c.now) == LiveSlots(s', d, c.now)
    ensures Decision(Step(s, c).1) == Decision(Step(s', c).1)
    ensures EditOf(s, c) == EditOf(s', c)
  {
    hide LiveSlots, UpdateFirst, LongestWait, HeldCount, Has, Acquire;
    match c
    case AcquireCall(now, ttl, member, limits) =>
      AcquireSettles(s, now, ttl, member, limits);
      AcquireSettles(s', now, ttl, member, limits);
      SameWaits(s, s', now, member, limits, |limits|);
    case RenewCall(_, _, _, _) =>
    case ReleaseCall(now, member, dims) =>
      SameHeldCount(s, s', now, dims, member, |dims|);
    case CleanupCall(_, _) =>
  }

  lemma KeptEdit(r: Leases, c: Call, d: Dimension, t: int, horizon: int)
    requires !c.DropKey? && (d in r ==> Ordered(r[d].slots)) && c.now <= t < horizon
    ensures var kept, named := KeepForever(r, horizon), exists i :: 0 <= i < |Named(c)| && Named(c)[i] == d;
            var after := KeptStep(r, c, horizon).0;
            && (d in after ==> Ordered(after[d].slots))
            && LiveSlots(KeepForever(after, horizon), d, t) ==
                 if named then Live(Apply(EditOf(kept, c), LiveSlots(kept, d, c.now)), t) else LiveSlots(kept, d, t)
  {
    hide UpdateFirst, LongestWait, Step, EditOf, Named, Apply, Has, Ordered, Live;
    var kept := KeepForever(r, horizon);
    StepIsUpdate(kept, c);
    EmptyLive(t);
    EmptyLive(c.now);
    if i :| 0 <= i < |Named(c)| && Named(c)[i] == d {
      UpdateGet(kept, c.now, Named(c), EditOf(kept, c), |Named(c)|, i);
      if d in r {
        LiveKeeps(r[d].slots, c.now, Slot("", 0));
      }
      EmptyOrdered();
      ApplyKeeps(EditOf(kept, c), LiveSlots(kept, d, c.now), Slot("", 0));
    } else {
      UntouchedSoFar(kept, c.now, Named(c), EditOf(kept, c), |Named(c)|, d);
    }
  }

  lemma EmptyOrdered()
    ensures Ordered([])
  {
  }

  lemma ShadowStep(config: Config, s: Leases, r: Leases, c: Call, t: int, horizon: int)
    requires Inv(config, s, t) && Conforms(config, c) && Shadows(s, r, t, horizon) && t <= c.now < horizon
    ensures Shadows(Step(s, c).0, KeptStep(r, c, horizon).0, c.now, horizon)
    ensures Decision(Step(s, c).1) == Decision(KeptStep(r, c, horizon).1)
  {
    hide UpdateFirst, LongestWait, LiveSlots, Live, KeyOK, SlotOK, Conforms, Ordered;
    if c.DropKey? {
      forall d, t' | c.now <= t' < horizon
        ensures LiveSlots(Step(s, c).0, d, t') == LiveSlots(KeepForever(r, horizon), d, t')
      {
        assert KeyOK(config, s, d);
        DropIsQuiet(config, s, c, d, t');
      }
    } else {
      ShadowScript(config, s, r, c, t, horizon);
    }
  }

  lemma ShadowScript(config: Config, s: Leases, r: Leases, c: Call, t: int, horizon: int)
    requires Inv(config, s, t) && Conforms(config, c) && Shadows(s, r, t, horizon)
    requires t <= c.now < horizon && !c.DropKey?
    ensures Shadows(Step(s, c).0, KeptStep(r, c, horizon).0, c.now, horizon)
    ensures Decision(Step(s, c).1) == Decision(KeptStep(r, c, horizon).1)
  {
    hide UpdateFirst, LongestWait, LiveSlots, Live, KeyOK, SlotOK, Conforms, Ordered, Step, EditOf, Named, Apply;
    var kept := KeepForever(r, horizon);
    SameDecision(s, kept, c);
    var after := KeptStep(r, c, horizon).0;
    forall d, t' | c.now <= t' < horizon
      ensures d in after ==> Ordered(after[d].slots)
      ensures LiveSlots(Step(s, c).0, d, t') == LiveSlots(KeepForever(after, horizon), d, t')
    {
      assert KeyOK(config, s, d);
      EditedLive(config, s, c, d, t');
      KeptEdit(r, c, d, t', horizon);
    }
    forall d | d in after ensures Ordered(after[d].slots) {
      KeptEdit(r, c, d, c.now, horizon);
    }
  }

  /**
   * Key expiry is unobservable for leases: dropping a key at its tail plus grace, at any moment once due,
   * changes no decision of any run on a non-decreasing clock.
   */
  lemma {:induction false} ExpiryIsUnobservable(config: Config, s: Leases, r: Leases, calls: seq<Call>, t: int,
                                                horizon: int)
    requires Inv(config, s, t) && Shadows(s, r, t, horizon) && OrderedRun(config, calls, t)
    requires forall i :: 0 <= i < |calls| ==> calls[i].now < horizon
    ensures Decisions(s, calls) == KeptDecisions(r, calls, horizon)
    decreases calls
  {
    hide Step, KeptStep, Inv, Shadows, Conforms;
    if calls != [] {
      var c, rest := calls[0], calls[1..];
      ShadowStep(config, s, r, c, t, horizon);
      StepKeepsInv(config, s, c, t);
      forall i | 0 <= i < |rest| ensures rest[i].now < horizon {
        assert rest[i] == calls[i + 1];
      }
      ExpiryIsUnobservable(config, Step(s, c).0, KeptStep(r, c, horizon).0, rest, c.now, horizon);
    }
  }
}
