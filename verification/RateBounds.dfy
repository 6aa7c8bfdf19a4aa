/** Run-level bounds on granted tokens: rate, fixed window, and clocks that step backwards. */
module RateBounds {
  import opened Common
  import opened RateScript
  import opened RateLaws

  function TotalCharged(w: World, calls: seq<Call>, k: Key): int
    decreases calls
  {
    if calls == [] then 0 else Charged(w, calls[0], k) + TotalCharged(Step(w, calls[0]).0, calls[1..], k)
  }

  function TotalReturned(w: World, calls: seq<Call>, k: Key): int
    decreases calls
  {
    if calls == [] then 0 else Returned(w, calls[0], k) + TotalReturned(Step(w, calls[0]).0, calls[1..], k)
  }

  /** Writing a balance and reading it back at the same instant gives that balance. */
  lemma WrittenReadsBack(l: Limit, hash: Option<Bucket>, now: int, tokens: real)
    requires l.Shape() && now >= 0 && Observe(l, hash, now).Some? && 0.0 <= tokens <= l.capacity as real
    ensures var e := Written(l, Observe(l, hash, now).value, tokens, now);
            Observe(l, Some(e.hash), now).Some? && Observe(l, Some(e.hash), now).value.tokens == tokens
  {
    if l.Refilling? {
      AccruedAdds(l, 0, 0);
    }
  }

  lemma AvailableInRange(config: map<Key, Limit>, b: Buckets, k: Key, t: int)
    requires Inv(config, b, t) && k in config
    ensures 0.0 <= Available(config, b, k, t) <= config[k].capacity as real
  {
    ConfiguredReading(config, b, config[k], t, t);
  }

  /** What time alone can add to a balance. */
  function Growth(l: Limit, from: int, to: int): real
    requires l.Shape()
  {
    if l.Refilling? then l.Accrued(to - from) else 0.0
  }

  /** Both instants lie in one window (always, for a refilling bucket). */
  predicate SameWindow(l: Limit, a: int, b: int)
    requires l.Shape()
  {
    l.FixedWindow? ==> l.WindowIndex(a) == l.WindowIndex(b)
  }

  lemma TimePasses(config: map<Key, Limit>, b: Buckets, k: Key, from: int, to: int)
    requires Inv(config, b, from) && from <= to && k in config && SameWindow(config[k], from, to)
    ensures Available(config, b, k, to) <= Available(config, b, k, from) + Growth(config[k], from, to)
  {
    var l := config[k];
    ConfiguredReading(config, b, l, from, from);
    ConfiguredReading(config, b, l, to, from);
    assert KeyInv(config, b, k, from);
    if l.Refilling? {
      AccruedAdds(l, to - from, 0);
      if k in b {
        AccruedAdds(l, from - b[k].hash.updatedMs, to - from);
      }
    }
  }

  lemma ScriptLedger(config: map<Key, Limit>, w: World, c: Call, k: Key, t: int)
    requires Inv(config, w.buckets, t) && ConformingCall(config, c) && t <= c.now && k in config && !c.DropKey?
    ensures Available(config, Step(w, c).0.buckets, k, c.now) + Charged(w, c, k) as real
              <= Available(config, w.buckets, k, c.now) + Returned(w, c, k) as real
  {
    hide Step, Charged, Returned, Observe, Inv;
    var after := Step(w, c).0.buckets;
    CallEffect(w, c, k);
    if Spared(w, c, k) {
      assert Lookup(after, k, c.now) == Lookup(w.buckets, k, c.now);
    } else {
      var l := c.limits[IndexOf(c.limits, k)];
      assert l == LimitsOf(c)[IndexOf(c.limits, k)] && l.Valid();
      ConfiguredReading(config, w.buckets, l, c.now, t);
      SettledInRange(w, c, l, ObserveAt(w.buckets, l, c.now).value.tokens);
      var settled := Settled(w, c, l, ObserveAt(w.buckets, l, c.now).value.tokens);
      InvConfig(config, w.buckets, t, l, Lookup(w.buckets, k, c.now), c.now);
      WrittenOK(l, Lookup(w.buckets, k, c.now), c.now, settled);
      WrittenReadsBack(l, Lookup(w.buckets, k, c.now), c.now, settled);
      InvConfig(config, w.buckets, t, l, Lookup(after, k, c.now), c.now);
      assert Available(config, after, k, c.now) == settled;
    }
  }

  /** Reading does not depend on the requested amount. */
  lemma InvConfig(config: map<Key, Limit>, b: Buckets, t: int, l: Limit, hash: Option<Bucket>, now: int)
    requires Inv(config, b, t) && Conforms(config, l)
    ensures t >= 0 && config[l.key].Valid() && l.Shape() && config[l.key].capacity == l.capacity
    ensures Observe(config[l.key], hash, now) == Observe(l, hash, now)
  {
    var own := config[l.key];
    if l.Refilling? {
      if hash.Some? && hash.value.RefillHash? {
        assert own.Accrued(now - hash.value.updatedMs) == l.Accrued(now - hash.value.updatedMs);
      }
    } else {
      assert own.WindowIndex(now) == l.WindowIndex(now);
    }
  }

  lemma SettledInRange(w: World, c: Call, l: Limit, tokens: real)
    requires 0.0 <= tokens <= l.capacity as real
    requires Charged(w, c, l.key) > 0 ==> tokens >= Charged(w, c, l.key) as real
    ensures 0.0 <= Settled(w, c, l, tokens) <= l.capacity as real
    ensures Charged(w, c, l.key) >= 0 && Returned(w, c, l.key) >= 0
  {
    hide Step, CanRefund;
    var i := IndexOf(LimitsOf(c), l.key);
    assert i >= 0 ==> LimitsOf(c)[i].Valid();
  }

  /** One call conserves tokens: what remains plus what was granted comes from the balance and refunds. */
  lemma CallLedger(config: map<Key, Limit>, w: World, c: Call, k: Key, t: int)
    requires Inv(config, w.buckets, t) && ConformingCall(config, c) && t <= c.now && k in config
    ensures Available(config, Step(w, c).0.buckets, k, c.now) + Charged(w, c, k) as real
              <= Available(config, w.buckets, k, c.now) + Returned(w, c, k) as real
  {
    hide Available, Inv;
    if c.DropKey? {
      DropLedger(config, w, c, k, t);
    } else {
      ScriptLedger(config, w, c, k, t);
    }
  }

  lemma DropLedger(config: map<Key, Limit>, w: World, c: Call, k: Key, t: int)
    requires Inv(config, w.buckets, t) && c.DropKey? && k in config
    ensures Available(config, Step(w, c).0.buckets, k, c.now) == Available(config, w.buckets, k, c.now)
  {
    hide Observe;
    assert Lookup(Step(w, c).0.buckets, k, c.now) == Lookup(w.buckets, k, c.now);
  }

  /**
   * Conservation over every run: from any reachable state, for any interleaving of the scripts and of
   * key expiry on a non-decreasing clock, the balance stays in range and
   *   final balance + granted <= initial balance + refill + refunds,
   * where the refill term is elapsed time times rate, or nothing within one fixed window.
   */
  lemma {:induction false} RunConservesTokens(config: map<Key, Limit>, w: World, calls: seq<Call>, k: Key, t: int)
    requires Inv(config, w.buckets, t) && OrderedRun(config, calls, t) && k in config
    requires forall i :: 0 <= i < |calls| ==> SameWindow(config[k], t, calls[i].now)
    ensures var last := LastClock(calls, t);
            && Inv(config, Run(w, calls).buckets, last) && t <= last
            && Available(config, Run(w, calls).buckets, k, last) + TotalCharged(w, calls, k) as real
                 <= Available(config, w.buckets, k, t) + Growth(config[k], t, last) + TotalReturned(w, calls, k) as real
    decreases calls
  {
    hide Step, Charged, Returned, Available, KeyInv;
    if calls == [] {
      if config[k].Refilling? {
        AccruedAdds(config[k], 0, 0);
      }
    } else {
      var c, rest := calls[0], calls[1..];
      var next := Step(w, c).0;
      TimePasses(config, w.buckets, k, t, c.now);
      CallLedger(config, w, c, k, t);
      StepKeepsInv(config, w, c, t);
      forall i | 0 <= i < |rest| ensures SameWindow(config[k], c.now, rest[i].now) {
        assert rest[i] == calls[i + 1];
      }
      RunConservesTokens(config, next, rest, k, c.now);
      assert LastClock(rest, c.now) == LastClock(calls, t);
      if config[k].Refilling? {
        AccruedAdds(config[k], c.now - t, LastClock(calls, t) - c.now);
      }
    }
  }

  /** The rate bound: between any two instants at most capacity + elapsed * refill / interval + refunds is granted. */
  lemma RateBound(config: map<Key, Limit>, w: World, calls: seq<Call>, k: Key, t: int)
    requires Inv(config, w.buckets, t) && OrderedRun(config, calls, t) && k in config && config[k].Refilling?
    ensures var l := config[k];
            TotalCharged(w, calls, k) as real
              <= l.capacity as real + (LastClock(calls, t) - t) as real * (l.refill as real / l.intervalMs as real)
                 + TotalReturned(w, calls, k) as real
  {
    hide Run, TotalCharged, TotalReturned, Available;
    RunConservesTokens(config, w, calls, k, t);
    AvailableInRange(config, w.buckets, k, t);
    AvailableInRange(config, Run(w, calls).buckets, k, LastClock(calls, t));
  }

  /** The fixed-window quota: within one window at most capacity + refunds applied in it is granted. */
  lemma WindowBound(config: map<Key, Limit>, w: World, calls: seq<Call>, k: Key, t: int)
    requires Inv(config, w.buckets, t) && OrderedRun(config, calls, t) && k in config && config[k].FixedWindow?
    requires forall i :: 0 <= i < |calls| ==> config[k].WindowIndex(calls[i].now) == config[k].WindowIndex(t)
    ensures TotalCharged(w, calls, k) <= config[k].capacity + TotalReturned(w, calls, k)
  {
    hide Run, TotalCharged, TotalReturned, Available;
    RunConservesTokens(config, w, calls, k, t);
    AvailableInRange(config, w.buckets, k, t);
    AvailableInRange(config, Run(w, calls).buckets, k, LastClock(calls, t));
  }

  // ---------------------------------------------------------------------------------------------
  // Clocks that step backwards
  // ---------------------------------------------------------------------------------------------

  /** Arbitrary clocks; every call finds key `k` alive. */
  ghost predicate LiveRun(config: map<Key, Limit>, w: World, calls: seq<Call>, k: Key)
    decreases calls
  {
    calls != [] ==>
      var c := calls[0];
      && c.now >= 0 && ConformingCall(config, c) && Lookup(w.buckets, k, c.now).Some?
      && LiveRun(config, Step(w, c).0, calls[1..], k)
  }

  function HighestClock(calls: seq<Call>, t: int): int {
    if calls == [] then t else HighestClock(calls[1..], Max(t, calls[0].now))
  }

  /** The stored hash of key `k`, alive or not. */
  ghost predicate Held(config: map<Key, Limit>, b: Buckets, k: Key)
    requires k in config && config[k].Shape()
  {
    k in b && b[k].hash.RefillHash? && EntryOK(config[k], b[k])
  }

  lemma EntryOKAsking(l: Limit, amount: int, e: Entry)
    requires l.Shape() && l.Asking(amount).Shape()
    ensures EntryOK(l, e) == EntryOK(l.Asking(amount), e)
    ensures l.Refilling? ==> forall ms :: l.Accrued(ms) == l.Asking(amount).Accrued(ms)
  {
  }

  lemma LiveRewrite(l: Limit, e: Entry, now: int, settled: real)
    requires l.Shape() && l.Refilling? && EntryOK(l, e) && now >= 0 && Observe(l, Some(e.hash), now).Some?
    requires 0.0 <= settled <= l.capacity as real
    ensures var o := Observe(l, Some(e.hash), now).value;
            var after := Written(l, o, settled, now);
            && EntryOK(l, after) && after.hash.tokens == settled
            && e.hash.updatedMs <= after.hash.updatedMs <= Max(e.hash.updatedMs, now)
            && o.tokens <= e.hash.tokens + l.Accrued(after.hash.updatedMs - e.hash.updatedMs)
  {
    AccruedAdds(l, 0, 0);
    WrittenOK(l, Some(e.hash), now, settled);
  }

  lemma LiveCallLedger(config: map<Key, Limit>, w: World, c: Call, k: Key)
    requires GoodConfig(config) && k in config && config[k].Refilling? && Held(config, w.buckets, k)
    requires c.now >= 0 && ConformingCall(config, c) && Lookup(w.buckets, k, c.now).Some? && !c.DropKey?
    ensures var l, before, after := config[k], w.buckets[k].hash, Step(w, c).0.buckets;
            && Held(config, after, k)
            && before.updatedMs <= after[k].hash.updatedMs <= Max(before.updatedMs, c.now)
            && after[k].hash.tokens + Charged(w, c, k) as real
                 <= before.tokens + l.Accrued(after[k].hash.updatedMs - before.updatedMs) + Returned(w, c, k) as real
  {
    hide Step, Charged, Returned, Observe, Written, EntryOK;
    AccruedAdds(config[k], 0, 0);
    CallEffect(w, c, k);
    if !Spared(w, c, k) {
      var asked := c.limits[IndexOf(c.limits, k)];
      assert asked == LimitsOf(c)[IndexOf(c.limits, k)] && asked.Valid();
      ObservedInRange(asked, Lookup(w.buckets, k, c.now), c.now);
      SettledInRange(w, c, asked, ObserveAt(w.buckets, asked, c.now).value.tokens);
      var settled := Settled(w, c, asked, ObserveAt(w.buckets, asked, c.now).value.tokens);
      EntryOKAsking(config[k], asked.requested, w.buckets[k]);
      LiveRewrite(asked, w.buckets[k], c.now, settled);
      EntryOKAsking(config[k], asked.requested, Step(w, c).0.buckets[k]);
    }
  }

  /**
   * A clock that steps back credits no millisecond twice: with the key alive throughout, all credit
   * comes from the advance of the stored stamp, which never exceeds the highest clock seen.
   */
  lemma {:induction false} NoMillisecondTwice(config: map<Key, Limit>, w: World, calls: seq<Call>, k: Key)
    requires GoodConfig(config) && k in config && config[k].Refilling? && Held(config, w.buckets, k)
    requires LiveRun(config, w, calls, k)
    ensures var l, before, after := config[k], w.buckets[k].hash, Run(w, calls).buckets;
            && Held(config, after, k)
            && before.updatedMs <= after[k].hash.updatedMs <= HighestClock(calls, before.updatedMs)
            && after[k].hash.tokens + TotalCharged(w, calls, k) as real
                 <= before.tokens + l.Accrued(after[k].hash.updatedMs - before.updatedMs)
                    + TotalReturned(w, calls, k) as real
    decreases calls
  {
    hide Step, Charged, Returned, EntryOK;
    var l := config[k];
    AccruedAdds(l, 0, 0);
    if calls != [] {
      var c, rest := calls[0], calls[1..];
      var next := Step(w, c).0;
      if c.DropKey? {
        LiveDrop(config, w, c, k);
      } else {
        LiveCallLedger(config, w, c, k);
      }
      NoMillisecondTwice(config, next, rest, k);
      HighestClockMonotone(rest, next.buckets[k].hash.updatedMs, Max(w.buckets[k].hash.updatedMs, c.now));
      AccruedAdds(l, next.buckets[k].hash.updatedMs - w.buckets[k].hash.updatedMs,
                  Run(w, calls).buckets[k].hash.updatedMs - next.buckets[k].hash.updatedMs);
    }
  }

  lemma LiveDrop(config: map<Key, Limit>, w: World, c: Call, k: Key)
    requires k in w.buckets && c.DropKey? && Lookup(w.buckets, k, c.now).Some?
    ensures k in Step(w, c).0.buckets && Step(w, c).0.buckets[k] == w.buckets[k]
    ensures Charged(w, c, k) == 0 && Returned(w, c, k) == 0
  {
  }

  lemma {:induction false} HighestClockMonotone(calls: seq<Call>, a: int, b: int)
    requires a <= b
    ensures HighestClock(calls, a) <= HighestClock(calls, b)
    decreases calls
  {
    if calls != [] {
      HighestClockMonotone(calls[1..], Max(a, calls[0].now), Max(b, calls[0].now));
    }
  }
}
