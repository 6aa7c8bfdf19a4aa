/**
 * What every run of the rate scripts keeps: balances in range, the token-rate bound, fixed-window
 * accounting, once-only refunds, and the invisibility of key expiry.
 */
module RateLaws {
  import opened Common
  import opened RateScript

  // ---------------------------------------------------------------------------------------------
  // One bucket
  // ---------------------------------------------------------------------------------------------

  /** A stored entry as the scripts write it for configuration `l`. */
  ghost predicate EntryOK(l: Limit, e: Entry)
    requires l.Shape()
  {
    && 0.0 <= e.hash.tokens <= l.capacity as real
    && match e.hash
       case RefillHash(_, updated) =>
         l.Refilling? && updated >= 0 && e.expireAt == updated + l.idleTtlMs
       case WindowHash(_, index, capacity, windowMs, offsetMs) =>
         && l.FixedWindow? && capacity == l.capacity && windowMs == l.windowMs && offsetMs == l.offsetMs
         && e.expireAt == l.WindowEnd(index)
  }

  /** The entry was written by a clock no later than `t`. */
  ghost predicate Behind(l: Limit, e: Entry, t: int)
    requires l.Shape() && EntryOK(l, e)
  {
    if l.Refilling? then e.hash.updatedMs <= t else e.hash.index <= l.WindowIndex(t)
  }

  lemma WindowBoundary(l: Limit, t: int, index: int)
    requires l.FixedWindow? && l.windowMs >= 1
    ensures l.WindowEnd(index) <= t <==> index < l.WindowIndex(t)
  {
    QuotientBoundary(t - l.offsetMs, l.windowMs, index);
  }

  lemma QuotientBoundary(x: int, w: int, j: int)
    requires w >= 1
    ensures (j + 1) * w <= x <==> j < x / w
  {
    var i := x / w;
    assert i * w <= x < (i + 1) * w;
    if j < i {
      Scaled(j + 1, i, w);
    } else {
      Scaled(i + 1, j + 1, w);
    }
  }

  lemma Scaled(a: int, b: int, w: int)
    requires a <= b && w >= 1
    ensures a * w <= b * w
  {
  }

  lemma AccruedAdds(l: Limit, a: int, b: int)
    requires l.Refilling? && l.Shape()
    ensures l.Accrued(a + b) == l.Accrued(a) + l.Accrued(b)
    ensures l.Rate() > 0.0
    ensures a >= 0 ==> l.Accrued(a) >= 0.0
  {
    assert l.Rate() > 0.0 by {
      assert l.refill as real / l.intervalMs as real * l.intervalMs as real == l.refill as real;
    }
  }

  /** What a script writes after reading is again a well-formed entry, stamped by this clock. */
  lemma WrittenOK(l: Limit, hash: Option<Bucket>, now: int, tokens: real)
    requires l.Shape() && now >= 0 && Observe(l, hash, now).Some?
    requires 0.0 <= tokens <= l.capacity as real
    ensures EntryOK(l, Written(l, Observe(l, hash, now).value, tokens, now))
    ensures now < Written(l, Observe(l, hash, now).value, tokens, now).expireAt
  {
    if l.FixedWindow? {
      WindowBoundary(l, now, l.WindowIndex(now));
    }
  }

  lemma ObservedInRange(l: Limit, hash: Option<Bucket>, now: int)
    requires l.Shape() && Observe(l, hash, now).Some?
    ensures 0.0 <= Observe(l, hash, now).value.tokens <= l.capacity as real
  {
    if l.Refilling? && hash.Some? && now >= hash.value.updatedMs {
      AccruedAdds(l, now - hash.value.updatedMs, 0);
    }
  }

  /** Key expiry cannot be told from refilling (or from the window ending). */
  lemma ExpiredReadsAsAbsent(l: Limit, e: Entry, t: int)
    requires l.Shape() && EntryOK(l, e) && e.expireAt <= t
    ensures Observe(l, Some(e.hash), t) == Observe(l, None, t)
    ensures CanRefund(l, Some(e.hash), t) == CanRefund(l, None, t)
  {
    if l.Refilling? {
      AccruedAdds(l, l.idleTtlMs, t - e.hash.updatedMs - l.idleTtlMs);
    } else {
      WindowBoundary(l, t, e.hash.index);
    }
  }

  /** A bucket entry written behind `t` never reads as corrupt from `t` on. */
  lemma BehindIsReadable(l: Limit, e: Entry, t: int, now: int)
    requires l.Shape() && EntryOK(l, e) && Behind(l, e, t) && t <= now
    ensures Behind(l, e, now)
    ensures Observe(l, Some(e.hash), now).Some?
  {
    if l.FixedWindow? {
      WindowBoundary(l, now, l.WindowIndex(t) - 1);
      WindowBoundary(l, t, l.WindowIndex(t) - 1);
    }
  }

  /** Capped refill composes: writing back what was read changes no later reading. */
  lemma ReadingIsIdempotent(l: Limit, hash: Option<Bucket>, now: int, t: int)
    requires l.Shape() && 0 <= now <= t && Observe(l, hash, now).Some?
    ensures var o := Observe(l, hash, now).value;
            Observe(l, Some(Written(l, o, o.tokens, now).hash), t) == Observe(l, hash, t)
  {
    ObservedInRange(l, hash, now);
    if l.Refilling? {
      AccruedAdds(l, t - now, 0);
      if hash.Some? && now >= hash.value.updatedMs {
        AccruedAdds(l, now - hash.value.updatedMs, t - now);
      }
    } else {
      WindowBoundary(l, t, l.WindowIndex(now) - 1);
      WindowBoundary(l, now, l.WindowIndex(now) - 1);
    }
  }

  // ---------------------------------------------------------------------------------------------
  // Calls and runs
  // ---------------------------------------------------------------------------------------------

  const MARKER_TTL_MS := 2_592_000_000

  datatype World = World(buckets: Buckets, markers: Markers)

  /** The atomic steps: the three scripts, and Valkey dropping one key that is due. */
  datatype Call =
    | AcquireCall(now: int, limits: Arguments)
    | InspectCall(now: int, limits: Arguments)
    | RefundCall(now: int, reference: Reference, limits: Arguments)
    | DropKey(now: int, key: Key)

  function LimitsOf(c: Call): Arguments {
    if c.DropKey? then [] else c.limits
  }

  function Step(w: World, c: Call): (World, Reply)
  {
    match c
    case AcquireCall(now, limits) =>
      var (b, reply) := Acquire(w.buckets, now, limits);
      (w.(buckets := b), reply)
    case InspectCall(now, limits) =>
      var (b, reply) := Inspect(w.buckets, now, limits);
      (w.(buckets := b), reply)
    case RefundCall(now, reference, limits) =>
      var (b, m, reply) := Refund(w.buckets, w.markers, now, reference, MARKER_TTL_MS, limits);
      (World(b, m), reply)
    case DropKey(now, key) =>
      (if Lookup(w.buckets, key, now).None? then w.(buckets := w.buckets - {key}) else w, Inspected(now, []))
  }

  function Run(w: World, calls: seq<Call>): World
    decreases calls
  {
    if calls == [] then w else Run(Step(w, calls[0]).0, calls[1..])
  }

  function Replies(w: World, calls: seq<Call>): seq<Reply>
    decreases calls
  {
    if calls == [] then [] else [Step(w, calls[0]).1] + Replies(Step(w, calls[0]).0, calls[1..])
  }

  /** Fixed limits: one configuration per key; only the requested amount varies between calls. */
  ghost predicate GoodConfig(config: map<Key, Limit>) {
    forall k :: k in config ==> config[k].key == k && config[k].Valid()
  }

  ghost predicate Conforms(config: map<Key, Limit>, l: Limit) {
    l.key in config && l == config[l.key].Asking(l.requested)
  }

  ghost predicate ConformingCall(config: map<Key, Limit>, c: Call) {
    forall i :: 0 <= i < |LimitsOf(c)| ==> Conforms(config, LimitsOf(c)[i])
  }

  /** Calls conform to `config` and their clocks never step back, starting from `t`. */
  ghost predicate OrderedRun(config: map<Key, Limit>, calls: seq<Call>, t: int) {
    calls != [] ==>
      ConformingCall(config, calls[0]) && t <= calls[0].now && OrderedRun(config, calls[1..], calls[0].now)
  }

  function LastClock(calls: seq<Call>, t: int): int {
    if calls == [] then t else calls[|calls| - 1].now
  }

  ghost predicate KeyInv(config: map<Key, Limit>, b: Buckets, k: Key, t: int)
    requires GoodConfig(config)
  {
    k in b ==> k in config && EntryOK(config[k], b[k]) && Behind(config[k], b[k], t)
  }

  ghost predicate Inv(config: map<Key, Limit>, b: Buckets, t: int) {
    && t >= 0
    && GoodConfig(config)
    && forall k :: KeyInv(config, b, k, t)
  }

  lemma EmptyInv(config: map<Key, Limit>, t: int)
    requires t >= 0 && GoodConfig(config)
    ensures Inv(config, map[], t)
  {
  }

  /** Where a call's arguments mention key `k`, or -1. */
  function IndexOf(limits: seq<Limit>, k: Key): (i: int)
    ensures -1 <= i < |limits|
    ensures i >= 0 ==> limits[i].key == k
    ensures i < 0 ==> forall j :: 0 <= j < |limits| ==> limits[j].key != k
  {
    if limits == [] then -1
    else if limits[|limits| - 1].key == k then |limits| - 1
    else IndexOf(limits[..|limits| - 1], k)
  }

  /** Tokens of bucket `k` granted by this call. */
  function Charged(w: World, c: Call, k: Key): int {
    var i := IndexOf(LimitsOf(c), k);
    if c.AcquireCall? && i >= 0 && Step(w, c).1.Granted? then c.limits[i].requested else 0
  }

  /** Tokens of bucket `k` handed back by this call (before the cap). */
  function Returned(w: World, c: Call, k: Key): int {
    var i := IndexOf(LimitsOf(c), k);
    if c.RefundCall? && i >= 0 && Step(w, c).1.Refunded? && Step(w, c).1.applied
       && CanRefund(c.limits[i], Lookup(w.buckets, k, c.now), c.now)
    then c.limits[i].requested else 0
  }

  ghost predicate Untouched(before: Buckets, after: Buckets, k: Key) {
    (k in after <==> k in before) && (k in before ==> after[k] == before[k])
  }

  lemma {:induction false} StoreFirstGet(b: Buckets, limits: Arguments, entries: seq<Entry>, n: nat, i: nat)
    requires |entries| == |limits| && i < n <= |limits|
    ensures limits[i].key in StoreFirst(b, limits, entries, n)
    ensures StoreFirst(b, limits, entries, n)[limits[i].key] == entries[i]
  {
    if i < n - 1 {
      StoreFirstGet(b, limits, entries, n - 1, i);
    }
  }

  lemma {:induction false} StoreFirstOther(b: Buckets, limits: Arguments, entries: seq<Entry>, n: nat, k: Key)
    requires |entries| == |limits| && n <= |limits|
    requires forall i :: 0 <= i < |limits| ==> limits[i].key != k
    ensures Untouched(b, StoreFirst(b, limits, entries, n), k)
  {
    if n > 0 {
      StoreFirstOther(b, limits, entries, n - 1, k);
    }
  }

  /** The key now holds its own reading with the balance set to `tokens`. */
  ghost predicate Rewrote(before: Buckets, after: Buckets, l: Limit, tokens: real, now: int)
    requires l.Shape()
  {
    var o := ObserveAt(before, l, now);
    o.Some? && l.key in after && after[l.key] == Written(l, o.value, tokens, now)
  }

  lemma AcquireGet(b: Buckets, now: int, limits: Arguments, i: nat)
    requires i < |limits| && Readable(b, limits, now)
    ensures var (after, reply) := Acquire(b, now, limits);
            var l, tokens := limits[i], ObserveAt(b, limits[i], now).value.tokens;
            && (reply.Granted? ==> tokens >= l.requested as real)
            && Rewrote(b, after, l, if reply.Granted? then tokens - l.requested as real else tokens, now)
  {
    var obs := Balances(b, limits, now);
    var retry := LongestWait(limits, obs);
    assert ObserveAt(b, limits[i], now) == Some(obs[i]);
    LongestWaitIsMaximum(limits, obs);
    assert Wait(limits[i], obs[i]) <= retry;
    var tokens := AfterAcquire(limits, obs, retry == 0);
    var entries := EntriesOf(limits, obs, tokens, now);
    StoreFirstGet(b, limits, entries, |limits|, i);
    assert entries[i] == Written(limits[i], obs[i], tokens[i], now);
  }

  lemma RefundGet(b: Buckets, markers: Markers, now: int, reference: Reference, limits: Arguments, i: nat)
    requires i < |limits| && Readable(b, limits, now) && !Marked(markers, reference, now)
    ensures var after := Refund(b, markers, now, reference, MARKER_TTL_MS, limits).0;
            var l, o := limits[i], ObserveAt(b, limits[i], now).value;
            Rewrote(b, after, l, Credited(l, o, CanRefund(l, Lookup(b, l.key, now), now)), now)
  {
    var obs := Balances(b, limits, now);
    assert ObserveAt(b, limits[i], now) == Some(obs[i]);
    var tokens := AfterRefund(b, now, limits, obs, true);
    var entries := EntriesOf(limits, obs, tokens, now);
    StoreFirstGet(b, limits, entries, |limits|, i);
    assert entries[i] == Written(limits[i], obs[i], tokens[i], now);
  }

  lemma {:induction false} InspectOther(b: Buckets, now: int, limits: Arguments, n: nat, k: Key)
    requires n <= |limits|
    requires forall i :: 0 <= i < n ==> limits[i].key != k
    ensures Untouched(b, InspectFirst(b, now, limits, n).0, k)
  {
    if n > 0 {
      InspectOther(b, now, limits, n - 1, k);
    }
  }

  /** Inspect leaves a key alone or rewrites it with its own current reading. */
  lemma {:induction false} InspectGet(b: Buckets, now: int, limits: Arguments, n: nat, i: nat)
    requires i < n <= |limits|
    ensures var after := InspectFirst(b, now, limits, n).0;
            || Untouched(b, after, limits[i].key)
            || (ObserveAt(b, limits[i], now).Some?
                && Rewrote(b, after, limits[i], ObserveAt(b, limits[i], now).value.tokens, now))
    decreases n
  {
    if i < n - 1 {
      InspectGet(b, now, limits, n - 1, i);
    } else {
      InspectOther(b, now, limits, i, limits[i].key);
    }
  }

  lemma {:induction false} InspectSucceeds(b: Buckets, now: int, limits: Arguments, n: nat)
    requires n <= |limits| && Readable(b, limits, now)
    ensures InspectFirst(b, now, limits, n).1.Some?
  {
    if n > 0 {
      InspectSucceeds(b, now, limits, n - 1);
      InspectOther(b, now, limits, n - 1, limits[n - 1].key);
    }
  }

  /** The balance a call leaves behind when it read `tokens`. */
  function Settled(w: World, c: Call, l: Limit, tokens: real): real {
    MinReal(l.capacity as real, tokens - Charged(w, c, l.key) as real + Returned(w, c, l.key) as real)
  }

  ghost predicate Spared(w: World, c: Call, k: Key) {
    Untouched(w.buckets, Step(w, c).0.buckets, k) && Charged(w, c, k) == 0 && Returned(w, c, k) == 0
  }

  ghost predicate Resettled(w: World, c: Call, l: Limit)
    requires l.Shape()
  {
    && ObserveAt(w.buckets, l, c.now).Some?
    && var tokens := ObserveAt(w.buckets, l, c.now).value.tokens;
       && (Charged(w, c, l.key) > 0 ==> tokens >= Charged(w, c, l.key) as real)
       && Rewrote(w.buckets, Step(w, c).0.buckets, l, Settled(w, c, l, tokens), c.now)
  }

  lemma CallSparesOthers(w: World, c: Call, k: Key)
    requires IndexOf(LimitsOf(c), k) < 0 && !c.DropKey?
    ensures Spared(w, c, k)
  {
    var b, limits := w.buckets, c.limits;
    if c.InspectCall? {
      InspectOther(b, c.now, limits, |limits|, k);
    } else if Readable(b, limits, c.now) {
      var obs := Balances(b, limits, c.now);
      var tokens := if c.AcquireCall? then AfterAcquire(limits, obs, LongestWait(limits, obs) == 0)
                    else AfterRefund(b, c.now, limits, obs, !Marked(w.markers, c.reference, c.now));
      StoreFirstOther(b, limits, EntriesOf(limits, obs, tokens, c.now), |limits|, k);
    }
  }

  lemma AcquireEffect(w: World, c: Call, i: nat)
    requires c.AcquireCall? && i < |c.limits| && IndexOf(c.limits, c.limits[i].key) == i
    ensures Spared(w, c, c.limits[i].key) || Resettled(w, c, c.limits[i])
  {
    hide Observe, Wait, Written, StoreFirst, EntriesOf, AfterAcquire, Reported, LongestWait;
    if Readable(w.buckets, c.limits, c.now) {
      var l, granted := c.limits[i], Step(w, c).1.Granted?;
      assert Charged(w, c, l.key) == (if granted then l.requested else 0) && Returned(w, c, l.key) == 0;
      AcquireGet(w.buckets, c.now, c.limits, i);
      ObservedInRange(l, Lookup(w.buckets, l.key, c.now), c.now);
      assert Resettled(w, c, l);
    }
  }

  lemma InspectEffect(w: World, c: Call, i: nat)
    requires c.InspectCall? && i < |c.limits|
    ensures Spared(w, c, c.limits[i].key) || Resettled(w, c, c.limits[i])
  {
    InspectGet(w.buckets, c.now, c.limits, |c.limits|, i);
    if ObserveAt(w.buckets, c.limits[i], c.now).Some? {
      ObservedInRange(c.limits[i], Lookup(w.buckets, c.limits[i].key, c.now), c.now);
    }
  }

  lemma RefundMoves(w: World, c: Call, i: nat)
    requires c.RefundCall? && i < |c.limits| && IndexOf(c.limits, c.limits[i].key) == i
    ensures var l := c.limits[i];
            var applied := Readable(w.buckets, c.limits, c.now) && !Marked(w.markers, c.reference, c.now);
            && Charged(w, c, l.key) == 0
            && Returned(w, c, l.key) == (if applied && CanRefund(l, Lookup(w.buckets, l.key, c.now), c.now)
                                         then l.requested else 0)
            && (!applied ==> Step(w, c).0.buckets == w.buckets)
            && Step(w, c).0.buckets == Refund(w.buckets, w.markers, c.now, c.reference, MARKER_TTL_MS, c.limits).0
  {
    hide Observe, CanRefund, Written, StoreFirst, EntriesOf, AfterRefund, Reported, IndexOf;
  }

  lemma RefundEffect(w: World, c: Call, i: nat)
    requires c.RefundCall? && i < |c.limits| && IndexOf(c.limits, c.limits[i].key) == i
    ensures Spared(w, c, c.limits[i].key) || Resettled(w, c, c.limits[i])
  {
    hide Observe, CanRefund, Written, Refund, Step, Charged, Returned, IndexOf;
    RefundMoves(w, c, i);
    if Readable(w.buckets, c.limits, c.now) && !Marked(w.markers, c.reference, c.now) {
      RefundGet(w.buckets, w.markers, c.now, c.reference, c.limits, i);
      ObservedInRange(c.limits[i], Lookup(w.buckets, c.limits[i].key, c.now), c.now);
    }
  }

  /** What one script call does to one key, whichever script it is. */
  lemma CallEffect(w: World, c: Call, k: Key)
    requires !c.DropKey?
    ensures var i := IndexOf(c.limits, k);
            Spared(w, c, k) || (i >= 0 && Resettled(w, c, c.limits[i]))
  {
    var i := IndexOf(c.limits, k);
    if i < 0 {
      CallSparesOthers(w, c, k);
    } else {
      match c
      case AcquireCall(_, _) => AcquireEffect(w, c, i);
      case InspectCall(_, _) => InspectEffect(w, c, i);
      case RefundCall(_, _, _) => RefundEffect(w, c, i);
    }
  }

  // ---------------------------------------------------------------------------------------------
  // Invariant and rate bound
  // ---------------------------------------------------------------------------------------------

  /** The balance a script would read from bucket `k` at clock `t`. */
  function Available(config: map<Key, Limit>, b: Buckets, k: Key, t: int): real
    requires k in config && config[k].Shape()
  {
    var o := Observe(config[k], Lookup(b, k, t), t);
    if o.Some? then o.value.tokens else 0.0
  }

  lemma ConfiguredReading(config: map<Key, Limit>, b: Buckets, l: Limit, now: int, t: int)
    requires Inv(config, b, t) && t <= now && Conforms(config, l) && l.Valid()
    ensures ObserveAt(b, l, now).Some?
    ensures 0.0 <= ObserveAt(b, l, now).value.tokens <= l.capacity as real
    ensures l.key in b ==> ObserveAt(b, l, now) == Observe(l, Some(b[l.key].hash), now)
  {
    assert KeyInv(config, b, l.key, t);
    if l.key in b {
      var e := b[l.key];
      assert EntryOK(l, e) && Behind(l, e, t);
      BehindIsReadable(l, e, t, now);
      if e.expireAt <= now {
        ExpiredReadsAsAbsent(l, e, now);
      }
    }
    ObservedInRange(l, Lookup(b, l.key, now), now);
  }

  lemma AllReadable(config: map<Key, Limit>, b: Buckets, limits: Arguments, now: int, t: int)
    requires Inv(config, b, t) && t <= now
    requires forall i :: 0 <= i < |limits| ==> Conforms(config, limits[i])
    ensures Readable(b, limits, now)
  {
    forall i | 0 <= i < |limits| ensures ObserveAt(b, limits[i], now).Some? {
      ConfiguredReading(config, b, limits[i], now, t);
    }
  }

  lemma RewriteKeepsKey(config: map<Key, Limit>, b: Buckets, after: Buckets, l: Limit, tokens: real, now: int, t: int)
    requires Inv(config, b, t) && t <= now && Conforms(config, l) && l.Valid()
    requires 0.0 <= tokens <= l.capacity as real && Rewrote(b, after, l, tokens, now)
    ensures KeyInv(config, after, l.key, now)
  {
    assert KeyInv(config, b, l.key, t);
    WrittenOK(l, Lookup(b, l.key, now), now, tokens);
    assert EntryOK(config[l.key], after[l.key]);
  }

  lemma StepKeepsKey(config: map<Key, Limit>, w: World, c: Call, t: int, k: Key)
    requires Inv(config, w.buckets, t) && ConformingCall(config, c) && t <= c.now
    ensures KeyInv(config, Step(w, c).0.buckets, k, c.now)
  {
    hide Observe, Written, Acquire, Inspect, Refund;
    assert KeyInv(config, w.buckets, k, t);
    if k in w.buckets {
      BehindIsReadable(config[k], w.buckets[k], t, c.now);
    }
    if !c.DropKey? {
      CallEffect(w, c, k);
      if !Spared(w, c, k) {
        var l := c.limits[IndexOf(c.limits, k)];
        ConfiguredReading(config, w.buckets, l, c.now, t);
        var tokens := ObserveAt(w.buckets, l, c.now).value.tokens;
        RewriteKeepsKey(config, w.buckets, Step(w, c).0.buckets, l, Settled(w, c, l, tokens), c.now, t);
      }
    }
  }

  /** Every step keeps the invariant, and on an ordered clock no reply is ever corrupt. */
  lemma StepKeepsInv(config: map<Key, Limit>, w: World, c: Call, t: int)
    requires Inv(config, w.buckets, t) && ConformingCall(config, c) && t <= c.now
    ensures Inv(config, Step(w, c).0.buckets, c.now)
    ensures !Step(w, c).1.Corrupt?
  {
    AllReadable(config, w.buckets, LimitsOf(c), c.now, t);
    if c.InspectCall? {
      InspectSucceeds(w.buckets, c.now, c.limits, |c.limits|);
    }
    forall k ensures KeyInv(config, Step(w, c).0.buckets, k, c.now) {
      StepKeepsKey(config, w, c, t, k);
    }
  }
}
