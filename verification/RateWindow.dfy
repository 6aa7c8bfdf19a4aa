/** Fixed windows: a capacity change freezes the window, and daily resets agree with the calendar. */
module RateWindow {
  import opened Common
  import opened RateScript
  import opened RateLaws
  import opened RateBounds
  import opened RateExpiry

  /** Every mention of key `k` is a fixed window of this length and offset, whatever its capacity. */
  ghost predicate Windowed(c: Call, k: Key, windowMs: int, offsetMs: int) {
    forall i :: 0 <= i < |LimitsOf(c)| && LimitsOf(c)[i].key == k ==>
      LimitsOf(c)[i].FixedWindow? && LimitsOf(c)[i].windowMs == windowMs && LimitsOf(c)[i].offsetMs == offsetMs
  }

  /** The key holds an exhausted window `index`, alive until that window ends. */
  ghost predicate Frozen(b: Buckets, k: Key, index: int, windowMs: int, offsetMs: int) {
    && k in b && b[k].hash.WindowHash? && b[k].hash.tokens == 0.0
    && b[k].hash.index == index && b[k].hash.windowMs == windowMs && b[k].hash.offsetMs == offsetMs
    && b[k].expireAt == (index + 1) * windowMs + offsetMs
  }

  /** An acquire or inspection at an instant of window `index`. */
  ghost predicate InWindow(c: Call, k: Key, index: int, windowMs: int, offsetMs: int) {
    && (c.AcquireCall? || c.InspectCall?)
    && windowMs >= 1 && (c.now - offsetMs) / windowMs == index && Windowed(c, k, windowMs, offsetMs)
  }

  lemma FrozenReading(l: Limit, hash: Bucket, now: int)
    requires l.Valid() && l.FixedWindow? && hash.WindowHash? && hash.index == l.WindowIndex(now)
    requires hash.tokens == 0.0 || hash.capacity != l.capacity
    ensures Observe(l, Some(hash), now).Some?
    ensures var o := Observe(l, Some(hash), now).value;
            && o.tokens == 0.0 && Wait(l, o) > 0
            && var e := Written(l, o, 0.0, now);
               Frozen(map[l.key := e], l.key, l.WindowIndex(now), l.windowMs, l.offsetMs)
  {
    WindowBoundary(l, now, l.WindowIndex(now));
  }

  /** A bucket with nothing left blocks the whole acquire. */
  lemma EmptyBucketBlocks(w: World, c: Call, i: nat)
    requires c.AcquireCall? && i < |c.limits|
    requires ObserveAt(w.buckets, c.limits[i], c.now).Some?
             && Wait(c.limits[i], ObserveAt(w.buckets, c.limits[i], c.now).value) > 0
    ensures !Step(w, c).1.Granted?
  {
    hide Observe, Wait, LongestWait, StoreFirst;
    if Readable(w.buckets, c.limits, c.now) {
      var obs := Balances(w.buckets, c.limits, c.now);
      assert ObserveAt(w.buckets, c.limits[i], c.now) == Some(obs[i]);
      LongestWaitIsMaximum(c.limits, obs);
    }
  }

  lemma FrozenStep(w: World, c: Call, k: Key, index: int, windowMs: int, offsetMs: int)
    requires Frozen(w.buckets, k, index, windowMs, offsetMs) && InWindow(c, k, index, windowMs, offsetMs)
    ensures Frozen(Step(w, c).0.buckets, k, index, windowMs, offsetMs) && Charged(w, c, k) == 0
  {
    hide Step, Observe, Wait;
    var i := IndexOf(c.limits, k);
    if i < 0 {
      CallSparesOthers(w, c, k);
    } else {
      var l := c.limits[i];
      assert l == LimitsOf(c)[i] && l.Valid();
      WindowBoundary(l, c.now, index);
      FrozenReading(l, w.buckets[k].hash, c.now);
      if c.AcquireCall? {
        EmptyBucketBlocks(w, c, i);
      }
      CallEffect(w, c, k);
    }
  }

  /** An exhausted window grants nothing more before it ends, under any capacities. */
  lemma {:induction false} FrozenRun(w: World, calls: seq<Call>, k: Key, index: int, windowMs: int, offsetMs: int)
    requires Frozen(w.buckets, k, index, windowMs, offsetMs)
    requires forall i :: 0 <= i < |calls| ==> InWindow(calls[i], k, index, windowMs, offsetMs)
    ensures TotalCharged(w, calls, k) == 0
    decreases calls
  {
    hide Step, Charged, Frozen, InWindow;
    if calls != [] {
      FrozenStep(w, calls[0], k, index, windowMs, offsetMs);
      forall i | 0 <= i < |calls[1..]| ensures InWindow(calls[1..][i], k, index, windowMs, offsetMs) {
        assert calls[1..][i] == calls[i + 1];
      }
      FrozenRun(Step(w, calls[0]).0, calls[1..], k, index, windowMs, offsetMs);
    }
  }

  /**
   * Absent refunds, changing the capacity in mid-window allows no further grant in that window: neither the
   * call that carries the new capacity nor any later one is granted, whatever capacity it names.
   */
  lemma CapacityChangeFreezesWindow(w: World, change: Call, calls: seq<Call>, k: Key, index: int, windowMs: int,
                                    offsetMs: int)
    requires InWindow(change, k, index, windowMs, offsetMs) && Readable(w.buckets, change.limits, change.now)
    requires k in w.buckets && change.now < w.buckets[k].expireAt
    requires w.buckets[k].hash.WindowHash? && w.buckets[k].hash.index == index
    requires var i := IndexOf(change.limits, k); i >= 0 && change.limits[i].capacity != w.buckets[k].hash.capacity
    requires forall i :: 0 <= i < |calls| ==> InWindow(calls[i], k, index, windowMs, offsetMs)
    ensures Charged(w, change, k) == 0
    ensures TotalCharged(Step(w, change).0, calls, k) == 0
  {
    hide Step, Observe, Wait;
    var i := IndexOf(change.limits, k);
    var l := change.limits[i];
    assert l == LimitsOf(change)[i] && l.Valid();
    FrozenReading(l, w.buckets[k].hash, change.now);
    if change.AcquireCall? {
      EmptyBucketBlocks(w, change, i);
    }
    PreciseEffect(w, change, i);
    FrozenRun(Step(w, change).0, calls, k, index, windowMs, offsetMs);
  }

  // ---------------------------------------------------------------------------------------------
  // Daily quotas
  // ---------------------------------------------------------------------------------------------

  const DAY_MS := 86_400_000
  const MINUTE_MS := 60_000

  function DailyTokenBucket(key: Key, capacity: int, resetMinute: int, requested: int): Limit {
    FixedWindow(key, capacity, requested, DAY_MS, resetMinute * MINUTE_MS)
  }

  /** The calendar's answer: today's reset instant, or tomorrow's once today's has passed. */
  function NextDailyReset(observedAt: int, resetMinute: int): int {
    var today := observedAt / DAY_MS * DAY_MS + resetMinute * MINUTE_MS;
    if today > observedAt then today else today + DAY_MS
  }

  /** The reported reset is the instant at which the script's window ends, for every time and reset minute. */
  lemma DailyResetAgreesWithScript(key: Key, capacity: int, resetMinute: int, requested: int, observedAt: int)
    requires 0 <= resetMinute < 1440
    ensures var l := DailyTokenBucket(key, capacity, resetMinute, requested);
            NextDailyReset(observedAt, resetMinute) == l.WindowEnd(l.WindowIndex(observedAt))
  {
    var offset := resetMinute * MINUTE_MS;
    var day := observedAt / DAY_MS;
    var index := (observedAt - offset) / DAY_MS;
    assert day * DAY_MS <= observedAt < (day + 1) * DAY_MS;
    assert index * DAY_MS <= observedAt - offset < (index + 1) * DAY_MS;
    assert index == day || index == day - 1;
  }
}
