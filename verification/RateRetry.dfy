/** The reported retry time is exact, and readings in between do not disturb it. */
module RateRetry {
  import opened Common
  import opened RateScript
  import opened RateLaws
  import opened RateBounds

  /** Entries have the shape the scripts write; the clock may have been ahead of now. */
  ghost predicate Shaped(config: map<Key, Limit>, b: Buckets) {
    && GoodConfig(config)
    && forall k :: k in b ==> k in config && EntryOK(config[k], b[k])
  }

  function Raw(b: Buckets, k: Key): Option<Bucket> {
    if k in b then Some(b[k].hash) else None
  }

  /** Key expiry aside, a reading is determined by the stored hash. */
  lemma RawReading(config: map<Key, Limit>, b: Buckets, l: Limit, t: int)
    requires Shaped(config, b) && Conforms(config, l) && l.Shape()
    ensures ObserveAt(b, l, t) == Observe(l, Raw(b, l.key), t)
  {
    hide Observe;
    if l.key in b && b[l.key].expireAt <= t {
      EntryOKAsking(config[l.key], l.requested, b[l.key]);
      ExpiredReadsAsAbsent(l, b[l.key], t);
    }
  }

  /** The refill time is the least whole number of milliseconds whose accrual covers the shortage. */
  lemma RefillMsSpec(l: Limit, shortage: real, n: int)
    requires l.Refilling? && l.refill >= 1
    ensures l.RefillMs(shortage) == n <==>
              (n - 1) as real * l.refill as real < shortage * l.intervalMs as real <= n as real * l.refill as real
  {
    hide Ceil, Limit.RefillMs;
    var a, r := shortage * l.intervalMs as real, l.refill as real;
    RefillMsIsCeil(l, shortage, a / r);
    CeilSpec(a / r, n);
    QuotientOrder(a, n as real, r, a / r);
    QuotientOrder(a, (n - 1) as real, r, a / r);
  }

  lemma QuotientOrder(a: real, y: real, r: real, x: real)
    requires r > 0.0 && x == a / r
    ensures x <= y <==> a <= y * r
  {
    DivideMultiply(a, r);
    ScaleOrder(x, y, r);
  }

  lemma RefillMsIsCeil(l: Limit, shortage: real, x: real)
    requires l.Refilling? && l.refill >= 1 && x == shortage * l.intervalMs as real / l.refill as real
    ensures l.RefillMs(shortage) == Ceil(x)
  {
  }

  lemma DivideMultiply(a: real, r: real)
    requires r > 0.0
    ensures a / r * r == a
  {
  }

  lemma ScaleOrder(x: real, y: real, r: real)
    requires r > 0.0
    ensures x <= y <==> x * r <= y * r
  {
  }

  lemma CeilSpec(x: real, n: int)
    ensures Ceil(x) == n <==> (n - 1) as real < x <= n as real
  {
  }

  /** Refilling for `ms` milliseconds shortens the remaining refill by exactly that much. */
  lemma RefillMsCountsDown(l: Limit, shortage: real, ms: int)
    requires l.Refilling? && l.Shape()
    ensures l.RefillMs(shortage - l.Accrued(ms)) == l.RefillMs(shortage) - ms
  {
    hide Limit.RefillMs, Limit.Accrued;
    var n := l.RefillMs(shortage);
    AccruedTimesInterval(l, ms);
    RefillMsSpec(l, shortage, n);
    RefillMsSpec(l, shortage - l.Accrued(ms), n - ms);
    Distribute(shortage, l.Accrued(ms), l.intervalMs as real);
    Distribute(n as real, ms as real, l.refill as real);
    Distribute((n - 1) as real, ms as real, l.refill as real);
  }

  lemma Distribute(a: real, b: real, c: real)
    ensures (a - b) * c == a * c - b * c
  {
  }

  lemma AccruedTimesInterval(l: Limit, ms: int)
    requires l.Refilling? && l.Shape()
    ensures l.Accrued(ms) * l.intervalMs as real == ms as real * l.refill as real
  {
    var i, r := l.intervalMs as real, l.refill as real;
    assert r / i * i == r;
    assert ms as real * (r / i) * i == ms as real * (r / i * i);
  }

  /** A refilling bucket's reading at `t`, from its reading at `now`. */
  lemma RefillLater(l: Limit, hash: Option<Bucket>, now: int, t: int)
    requires l.Shape() && l.Refilling? && 0 <= now <= t && Observe(l, hash, now).Some?
    ensures Observe(l, hash, t).Some?
    ensures var o, later := Observe(l, hash, now).value, Observe(l, hash, t).value;
            && o.stamp == now + o.delay && o.delay >= 0
            && later.delay == Max(0, o.stamp - t)
            && later.tokens == MinReal(l.capacity as real, o.tokens + l.Accrued(Max(0, t - o.stamp)))
  {
    ObservedInRange(l, hash, now);
    ReadingIsIdempotent(l, hash, now, t);
    AccruedAdds(l, 0, 0);
  }

  lemma RefillWaitCountsDown(l: Limit, hash: Option<Bucket>, now: int, t: int)
    requires l.Valid() && l.Refilling? && 0 <= now <= t && Observe(l, hash, now).Some?
    ensures Observe(l, hash, t).Some?
    ensures Wait(l, Observe(l, hash, t).value) == Max(0, now + Wait(l, Observe(l, hash, now).value) - t)
  {
    hide Observe, Limit.RefillMs, Limit.Accrued;
    RefillLater(l, hash, now, t);
    ObservedInRange(l, hash, now);
    var o, later := Observe(l, hash, now).value, Observe(l, hash, t).value;
    var ms := Max(0, t - o.stamp);
    var shortage := l.requested as real - o.tokens;
    AccruedAdds(l, ms, 0);
    SignOfWait(l, shortage);
    SignOfWait(l, shortage - l.Accrued(ms));
    RefillMsCountsDown(l, shortage, ms);
    if later.tokens < l.requested as real {
      assert l.requested as real - later.tokens == shortage - l.Accrued(ms);
    }
  }

  /** A shortage takes at least one millisecond to refill, and no shortage takes none. */
  lemma SignOfWait(l: Limit, d: real)
    requires l.Refilling? && l.Shape()
    ensures d > 0.0 <==> l.RefillMs(d) >= 1
  {
    var i, r := l.intervalMs as real, l.refill as real;
    var x := d * i / r;
    assert x * r == d * i;
    if d > 0.0 {
      assert d * i > 0.0;
      assert x > 0.0;
    } else {
      assert d * i <= 0.0;
      assert x <= 0.0;
    }
  }

  lemma WindowWaitCountsDown(l: Limit, hash: Option<Bucket>, now: int, t: int)
    requires l.Valid() && l.FixedWindow? && 0 <= now <= t && Observe(l, hash, now).Some?
    ensures Observe(l, hash, t).Some?
    ensures Wait(l, Observe(l, hash, t).value) == Max(0, now + Wait(l, Observe(l, hash, now).value) - t)
  {
    var index := l.WindowIndex(now);
    WindowBoundary(l, now, index);
    WindowBoundary(l, now, index - 1);
    WindowBoundary(l, t, index - 1);
    WindowBoundary(l, t, index);
    WindowBoundary(l, t, l.WindowIndex(t));
  }

  /** One bucket's wait only counts down, reaching zero exactly when the bucket can pay. */
  lemma WaitCountsDown(l: Limit, hash: Option<Bucket>, now: int, t: int)
    requires l.Valid() && 0 <= now <= t && Observe(l, hash, now).Some?
    ensures Observe(l, hash, t).Some?
    ensures Wait(l, Observe(l, hash, t).value) == Max(0, now + Wait(l, Observe(l, hash, now).value) - t)
  {
    hide Observe, Wait;
    if l.Refilling? {
      RefillWaitCountsDown(l, hash, now, t);
    } else {
      WindowWaitCountsDown(l, hash, now, t);
    }
  }

  ghost predicate ConformingArguments(config: map<Key, Limit>, limits: Arguments) {
    forall i :: 0 <= i < |limits| ==> Conforms(config, limits[i])
  }

  /** Over any mix of buckets the longest wait counts down to zero too. */
  lemma LongestWaitCountsDown(config: map<Key, Limit>, b: Buckets, limits: Arguments, now: int, t: int)
    requires Shaped(config, b) && ConformingArguments(config, limits) && 0 <= now <= t && Readable(b, limits, now)
    ensures Readable(b, limits, t)
    ensures LongestWait(limits, Balances(b, limits, t))
              == Max(0, now + LongestWait(limits, Balances(b, limits, now)) - t)
  {
    hide Observe, Wait, LongestWait;
    forall i | 0 <= i < |limits|
      ensures ObserveAt(b, limits[i], now).Some? && ObserveAt(b, limits[i], t).Some?
      ensures Wait(limits[i], ObserveAt(b, limits[i], t).value)
                == Max(0, now + Wait(limits[i], ObserveAt(b, limits[i], now).value) - t)
    {
      RawReading(config, b, limits[i], now);
      RawReading(config, b, limits[i], t);
      WaitCountsDown(limits[i], Raw(b, limits[i].key), now, t);
    }
    var first, later := Balances(b, limits, now), Balances(b, limits, t);
    forall i | 0 <= i < |limits|
      ensures Wait(limits[i], later[i]) == Max(0, now + Wait(limits[i], first[i]) - t)
    {
      assert ObserveAt(b, limits[i], now) == Some(first[i]) && ObserveAt(b, limits[i], t) == Some(later[i]);
    }
    LongestWaitIsMaximum(limits, first);
    LongestWaitIsMaximum(limits, later);
  }

  /**
   * The retry time is exact: an acquire refused at `now` is refused at every later instant before
   * now + retryAfter, each time naming that same instant, and granted from it on.
   */
  lemma RetryTimeIsExact(config: map<Key, Limit>, b: Buckets, limits: Arguments, now: int, t: int)
    requires Shaped(config, b) && ConformingArguments(config, limits) && 0 <= now <= t
    requires Acquire(b, now, limits).1.Denied?
    ensures var retryAt := now + Acquire(b, now, limits).1.retryAfter;
            && now < retryAt
            && (t < retryAt ==> Acquire(b, t, limits).1.Denied? && t + Acquire(b, t, limits).1.retryAfter == retryAt)
            && (t >= retryAt ==> Acquire(b, t, limits).1.Granted?)
  {
    LongestWaitCountsDown(config, b, limits, now, t);
  }

  // ---------------------------------------------------------------------------------------------
  // Quiet runs
  // ---------------------------------------------------------------------------------------------

  /** No reading from `t` on tells the two stores apart. */
  ghost predicate Indistinguishable(config: map<Key, Limit>, b: Buckets, b': Buckets, t: int) {
    forall l: Limit, now :: Conforms(config, l) && l.Shape() && now >= t ==>
      ObserveAt(b, l, now) == ObserveAt(b', l, now)
  }

  lemma QuietKey(config: map<Key, Limit>, w: World, c: Call, k: Key)
    requires Shaped(config, w.buckets) && ConformingCall(config, c) && c.now >= 0 && !c.DropKey?
    requires Charged(w, c, k) == 0 && Returned(w, c, k) == 0
    ensures var after := Step(w, c).0.buckets;
            && (k in after ==> k in config && EntryOK(config[k], after[k]))
            && (k in config ==> forall now :: now >= c.now ==>
                  Observe(config[k], Raw(after, k), now) == Observe(config[k], Raw(w.buckets, k), now))
  {
    hide Step, Charged, Returned, Observe, Written, EntryOK;
    CallEffect(w, c, k);
    if !Spared(w, c, k) {
      var l := c.limits[IndexOf(c.limits, k)];
      assert l == LimitsOf(c)[IndexOf(c.limits, k)] && l.Valid();
      var after := Step(w, c).0.buckets;
      RawReading(config, w.buckets, l, c.now);
      var own, hash := config[k], Raw(w.buckets, k);
      assert own.Valid();
      SameReading(own, l.requested, hash, c.now);
      ObservedInRange(own, hash, c.now);
      var o := Observe(own, hash, c.now).value;
      WrittenAsking(own, l.requested, o, o.tokens, c.now);
      WrittenOK(own, hash, c.now, o.tokens);
      forall now | now >= c.now ensures Observe(own, Raw(after, k), now) == Observe(own, hash, now) {
        ReadingIsIdempotent(own, hash, c.now, now);
      }
    }
  }

  lemma SameReading(l: Limit, amount: int, hash: Option<Bucket>, now: int)
    requires l.Shape() && l.Asking(amount).Shape()
    ensures Observe(l, hash, now) == Observe(l.Asking(amount), hash, now)
  {
    if l.Refilling? {
      if hash.Some? && hash.value.RefillHash? {
        assert l.Accrued(now - hash.value.updatedMs) == l.Asking(amount).Accrued(now - hash.value.updatedMs);
      }
    } else {
      assert l.WindowIndex(now) == l.Asking(amount).WindowIndex(now);
    }
  }

  lemma WrittenAsking(l: Limit, amount: int, o: Observed, tokens: real, now: int)
    ensures Written(l, o, tokens, now) == Written(l.Asking(amount), o, tokens, now)
  {
  }

  /** Inspecting, or being refused, leaves a store no later reading can tell from the old one. */
  lemma QuietCall(config: map<Key, Limit>, w: World, c: Call)
    requires Shaped(config, w.buckets) && ConformingCall(config, c) && c.now >= 0
    requires c.InspectCall? || (c.AcquireCall? && !Step(w, c).1.Granted?)
    ensures Shaped(config, Step(w, c).0.buckets)
    ensures Indistinguishable(config, w.buckets, Step(w, c).0.buckets, c.now)
  {
    hide Step, Observe, EntryOK, Shaped, ConformingCall;
    var after := Step(w, c).0.buckets;
    forall k
      ensures k in after ==> k in config && config[k].Shape() && EntryOK(config[k], after[k])
      ensures k in config ==> config[k].Shape() && forall now :: now >= c.now ==>
                Observe(config[k], Raw(after, k), now) == Observe(config[k], Raw(w.buckets, k), now)
    {
      NothingChanged(w, c, k);
      QuietKey(config, w, c, k);
      ShapedConfig(config, w.buckets, k);
    }
    ShapedBy(config, w.buckets, after);
    forall l: Limit, now | Conforms(config, l) && l.Shape() && now >= c.now
      ensures ObserveAt(w.buckets, l, now) == ObserveAt(after, l, now)
    {
      RawReading(config, w.buckets, l, now);
      RawReading(config, after, l, now);
      ShapedConfig(config, w.buckets, l.key);
      SameReading(config[l.key], l.requested, Raw(after, l.key), now);
      SameReading(config[l.key], l.requested, Raw(w.buckets, l.key), now);
    }
  }

  lemma NothingChanged(w: World, c: Call, k: Key)
    requires c.InspectCall? || (c.AcquireCall? && !Step(w, c).1.Granted?)
    ensures Charged(w, c, k) == 0 && Returned(w, c, k) == 0
  {
    hide Step;
  }

  lemma ShapedConfig(config: map<Key, Limit>, b: Buckets, k: Key)
    requires Shaped(config, b)
    ensures k in config ==> config[k].Valid() && config[k].key == k
  {
  }

  lemma ShapedBy(config: map<Key, Limit>, b: Buckets, after: Buckets)
    requires Shaped(config, b)
    requires forall k :: k in after ==> k in config && config[k].Shape() && EntryOK(config[k], after[k])
    ensures Shaped(config, after)
  {
    hide EntryOK;
  }

  /**
   * A run without competing grants: inspections, acquires of any kind that are refused, and repeats of the
   * request `limits` before `retryAt`.
   */
  ghost predicate QuietRun(config: map<Key, Limit>, w: World, calls: seq<Call>, limits: Arguments, from: int,
                           retryAt: int)
    decreases calls
  {
    calls != [] ==>
      var c := calls[0];
      && from <= c.now && ConformingCall(config, c)
      && (c.InspectCall? || Repeats(c, limits, retryAt) || (c.AcquireCall? && !Step(w, c).1.Granted?))
      && QuietRun(config, Step(w, c).0, calls[1..], limits, c.now, retryAt)
  }

  predicate Repeats(c: Call, limits: Arguments, retryAt: int) {
    c.AcquireCall? && c.limits == limits && c.now < retryAt
  }

  /** Every repeat of the request is refused and names the same retry instant. */
  ghost predicate AllRefusedUntil(calls: seq<Call>, replies: seq<Reply>, limits: Arguments, retryAt: int) {
    && |replies| == |calls|
    && forall i :: 0 <= i < |calls| && Repeats(calls[i], limits, retryAt) ==>
         replies[i].Denied? && calls[i].now + replies[i].retryAfter == retryAt
  }

  lemma SameRefusal(config: map<Key, Limit>, b: Buckets, b': Buckets, limits: Arguments, now: int)
    requires Indistinguishable(config, b, b', now) && ConformingArguments(config, limits)
    ensures Acquire(b, now, limits).1 == Acquire(b', now, limits).1
  {
    hide Observe, Wait, LongestWait, StoreFirst;
    forall i | 0 <= i < |limits| ensures ObserveAt(b, limits[i], now) == ObserveAt(b', limits[i], now) {
      assert limits[i].Valid();
    }
    assert Readable(b, limits, now) == Readable(b', limits, now);
    if Readable(b, limits, now) {
      assert Balances(b, limits, now) == Balances(b', limits, now);
    }
  }

  lemma StillIndistinguishable(config: map<Key, Limit>, a: Buckets, b: Buckets, c: Buckets, from: int, t: int)
    requires Indistinguishable(config, a, b, from) && Indistinguishable(config, b, c, t) && from <= t
    ensures Indistinguishable(config, a, c, t)
  {
    hide Observe;
  }

  /** Nothing in a quiet run shows in a later reading, and every repeat of the request is refused. */
  lemma {:induction false} QuietRunIsInvisible(config: map<Key, Limit>, start: Buckets, w: World, limits: Arguments,
                                               calls: seq<Call>, now: int, from: int)
    requires Shaped(config, start) && Shaped(config, w.buckets) && ConformingArguments(config, limits)
    requires 0 <= now <= from && Indistinguishable(config, start, w.buckets, from)
    requires Acquire(start, now, limits).1.Denied?
    requires QuietRun(config, w, calls, limits, from, now + Acquire(start, now, limits).1.retryAfter)
    ensures from <= LastClock(calls, from)
    ensures Indistinguishable(config, start, Run(w, calls).buckets, LastClock(calls, from))
    ensures AllRefusedUntil(calls, Replies(w, calls), limits, now + Acquire(start, now, limits).1.retryAfter)
    decreases calls
  {
    hide Step, Acquire, Shaped, Indistinguishable;
    if calls != [] {
      var c, rest := calls[0], calls[1..];
      var retryAt, next := now + Acquire(start, now, limits).1.retryAfter, Step(w, c).0;
      Reflexive(config, w.buckets, c.now);
      StillIndistinguishable(config, start, w.buckets, w.buckets, from, c.now);
      RetryTimeIsExact(config, start, limits, now, c.now);
      SameRefusal(config, start, w.buckets, limits, c.now);
      StepOfAcquire(w, c);
      QuietCall(config, w, c);
      StillIndistinguishable(config, start, w.buckets, next.buckets, c.now, c.now);
      QuietRunIsInvisible(config, start, next, limits, rest, now, c.now);
      var replies, later := Replies(w, calls), Replies(next, rest);
      forall i | 0 <= i < |calls| && Repeats(calls[i], limits, retryAt)
        ensures replies[i].Denied? && calls[i].now + replies[i].retryAfter == retryAt
      {
        if i > 0 {
          assert calls[i] == rest[i - 1] && replies[i] == later[i - 1];
        }
      }
    }
  }

  lemma Reflexive(config: map<Key, Limit>, b: Buckets, t: int)
    ensures Indistinguishable(config, b, b, t)
  {
  }

  /**
   * With no competing grant, the request is refused until exactly the first reported instant and granted from
   * then on, however often it is repeated and whatever else is refused or inspected meanwhile.
   */
  lemma QuietRetry(config: map<Key, Limit>, w: World, limits: Arguments, calls: seq<Call>, now: int, t: int)
    requires Shaped(config, w.buckets) && ConformingArguments(config, limits) && 0 <= now
    requires Acquire(w.buckets, now, limits).1.Denied?
    requires QuietRun(config, w, calls, limits, now, now + Acquire(w.buckets, now, limits).1.retryAfter)
    requires t >= LastClock(calls, now)
    ensures var retryAt := now + Acquire(w.buckets, now, limits).1.retryAfter;
            var reply := Acquire(Run(w, calls).buckets, t, limits).1;
            && AllRefusedUntil(calls, Replies(w, calls), limits, retryAt)
            && (t < retryAt ==> reply.Denied? && t + reply.retryAfter == retryAt)
            && (t >= retryAt ==> reply.Granted?)
  {
    hide Step, Acquire, Shaped, Indistinguishable;
    Reflexive(config, w.buckets, now);
    QuietRunIsInvisible(config, w.buckets, w, limits, calls, now, now);
    var after := Run(w, calls).buckets;
    RetryTimeIsExact(config, w.buckets, limits, now, t);
    Reflexive(config, after, t);
    StillIndistinguishable(config, w.buckets, after, after, LastClock(calls, now), t);
    SameRefusal(config, w.buckets, after, limits, t);
  }

  lemma StepOfAcquire(w: World, c: Call)
    ensures c.AcquireCall? ==> Step(w, c).1 == Acquire(w.buckets, c.now, c.limits).1
  {
    hide Acquire;
  }
}
