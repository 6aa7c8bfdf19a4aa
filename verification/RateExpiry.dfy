/** Letting keys expire is invisible: no run can be told from one in which every bucket is kept forever. */
module RateExpiry {
  import opened Common
  import opened RateScript
  import opened RateLaws
  import opened RateBounds
  import opened RateRetry

  /** The same store with every expiry pushed to `horizon`. */
  function Keep(b: Buckets, horizon: int): Buckets {
    map k | k in b :: b[k].(expireAt := horizon)
  }

  /** A step of a server that never drops a bucket before `horizon`. */
  function KeptStep(w: World, c: Call, horizon: int): (World, Reply) {
    if c.DropKey? then (w, Inspected(c.now, [])) else Step(World(Keep(w.buckets, horizon), w.markers), c)
  }

  function KeptReplies(w: World, calls: seq<Call>, horizon: int): seq<Reply>
    decreases calls
  {
    if calls == [] then []
    else [KeptStep(w, calls[0], horizon).1] + KeptReplies(KeptStep(w, calls[0], horizon).0, calls[1..], horizon)
  }

  /** The expiry the scripts themselves would give this hash. */
  function Natural(l: Limit, hash: Bucket): Entry {
    Entry(hash,
          if l.Refilling? && hash.RefillHash? then hash.updatedMs + l.idleTtlMs
          else if l.FixedWindow? && hash.WindowHash? then l.WindowEnd(hash.index)
          else 0)
  }

  /** `b` expires keys, `r` keeps them: they agree, except that `b` may have lost keys already due. */
  ghost predicate KeyAgrees(config: map<Key, Limit>, b: Buckets, r: Buckets, k: Key, t: int)
    requires GoodConfig(config)
  {
    && (k in b ==> k in r && r[k].hash == b[k].hash)
    && (k in r ==> k in config && EntryOK(config[k], Natural(config[k], r[k].hash)))
    && (k in r && k !in b ==> Natural(config[k], r[k].hash).expireAt <= t)
  }

  ghost predicate Agree(config: map<Key, Limit>, b: Buckets, r: Buckets, t: int) {
    GoodConfig(config) && forall k :: KeyAgrees(config, b, r, k, t)
  }

  ghost predicate SameView(b: Buckets, b': Buckets, l: Limit, now: int)
    requires l.Shape()
  {
    && ObserveAt(b, l, now) == ObserveAt(b', l, now)
    && CanRefund(l, Lookup(b, l.key, now), now) == CanRefund(l, Lookup(b', l.key, now), now)
  }

  lemma AgreementIsInvisible(config: map<Key, Limit>, b: Buckets, r: Buckets, l: Limit, now: int, t: int, horizon: int)
    requires Inv(config, b, t) && Agree(config, b, r, t) && Conforms(config, l) && l.Valid() && t <= now < horizon
    ensures SameView(b, Keep(r, horizon), l, now)
  {
    hide Observe, CanRefund, EntryOK;
    var k := l.key;
    assert KeyAgrees(config, b, r, k, t) && KeyInv(config, b, k, t);
    if k in r {
      var own, e := config[k], Natural(config[k], r[k].hash);
      EntryOKAsking(own, l.requested, e);
      assert Lookup(Keep(r, horizon), k, now) == Some(r[k].hash);
      if k in b {
        EntryOKAsking(own, l.requested, b[k]);
        NaturalIsWritten(own, b[k]);
      }
      if k !in b || b[k].expireAt <= now {
        assert Lookup(b, k, now) == None;
        ExpiredReadsAsAbsent(l, e, now);
      }
    }
  }

  lemma NaturalIsWritten(l: Limit, e: Entry)
    requires l.Shape() && EntryOK(l, e)
    ensures Natural(l, e.hash) == e
  {
  }

  /** Whether this call writes buckets at all. */
  predicate Writes(w: World, c: Call) {
    c.AcquireCall? || c.InspectCall? || (c.RefundCall? && !Marked(w.markers, c.reference, c.now))
  }

  /** The balance this call writes for limit `l`, given what it read and replied. */
  function NewTokens(b: Buckets, c: Call, l: Limit, o: Observed, reply: Reply): real
    requires l.Shape()
  {
    match c
    case AcquireCall(_, _) => if reply.Granted? then o.tokens - l.requested as real else o.tokens
    case RefundCall(now, _, _) => Credited(l, o, CanRefund(l, Lookup(b, l.key, now), now))
    case _ => o.tokens
  }

  lemma {:induction false} InspectWritesAll(b: Buckets, now: int, limits: Arguments, n: nat, i: nat)
    requires i < n <= |limits| && Readable(b, limits, now)
    ensures Rewrote(b, InspectFirst(b, now, limits, n).0, limits[i], ObserveAt(b, limits[i], now).value.tokens, now)
    decreases n
  {
    hide Observe, Written;
    InspectSucceeds(b, now, limits, n - 1);
    InspectOther(b, now, limits, n - 1, limits[n - 1].key);
    if i < n - 1 {
      InspectWritesAll(b, now, limits, n - 1, i);
    }
  }

  lemma PreciseEffect(w: World, c: Call, i: nat)
    requires !c.DropKey? && i < |c.limits| && Readable(w.buckets, c.limits, c.now) && Writes(w, c)
    ensures var l, b := c.limits[i], w.buckets;
            var o := ObserveAt(b, l, c.now).value;
            Rewrote(b, Step(w, c).0.buckets, l, NewTokens(b, c, l, o, Step(w, c).1), c.now)
  {
    hide Observe, Written, CanRefund, Wait, LongestWait, StoreFirst;
    match c
    case AcquireCall(now, limits) => AcquireGet(w.buckets, now, limits, i);
    case InspectCall(now, limits) => InspectWritesAll(w.buckets, now, limits, |limits|, i);
    case RefundCall(now, reference, limits) => RefundGet(w.buckets, w.markers, now, reference, limits, i);
  }

  ghost predicate SameViews(b: Buckets, b': Buckets, limits: Arguments, now: int) {
    forall i :: 0 <= i < |limits| ==> SameView(b, b', limits[i], now)
  }

  lemma SameBalances(b: Buckets, b': Buckets, limits: Arguments, now: int)
    requires SameViews(b, b', limits, now)
    ensures Readable(b, limits, now) == Readable(b', limits, now)
    ensures Readable(b, limits, now) ==> Balances(b, limits, now) == Balances(b', limits, now)
  {
    hide Observe, CanRefund;
    assert forall i :: 0 <= i < |limits| ==> SameView(b, b', limits[i], now);
    if Readable(b, limits, now) {
      assert Balances(b, limits, now) == Balances(b', limits, now);
    }
  }

  lemma {:induction false} SameInspection(b: Buckets, b': Buckets, now: int, limits: Arguments, n: nat)
    requires n <= |limits| && SameViews(b, b', limits, now) && Readable(b, limits, now)
    ensures InspectFirst(b, now, limits, n).1 == InspectFirst(b', now, limits, n).1
  {
    hide Observe, CanRefund, Written;
    SameBalances(b, b', limits, now);
    if n > 0 {
      SameInspection(b, b', now, limits, n - 1);
      InspectOther(b, now, limits, n - 1, limits[n - 1].key);
      InspectOther(b', now, limits, n - 1, limits[n - 1].key);
      InspectSucceeds(b, now, limits, n);
      InspectSucceeds(b', now, limits, n);
      assert SameView(b, b', limits[n - 1], now);
    }
  }

  /** A script's reply and marker update depend only on what it can see. */
  lemma SameReply(w: World, w': World, c: Call)
    requires !c.DropKey? && w.markers == w'.markers
    requires SameViews(w.buckets, w'.buckets, c.limits, c.now) && Readable(w.buckets, c.limits, c.now)
    ensures Step(w, c).1 == Step(w', c).1 && Step(w, c).0.markers == Step(w', c).0.markers
  {
    hide Observe, CanRefund, LongestWait, StoreFirst;
    SameBalances(w.buckets, w'.buckets, c.limits, c.now);
    if c.InspectCall? {
      SameInspection(w.buckets, w'.buckets, c.now, c.limits, |c.limits|);
    } else if c.RefundCall? {
      var obs := Balances(w.buckets, c.limits, c.now);
      assert forall i :: 0 <= i < |c.limits| ==> SameView(w.buckets, w'.buckets, c.limits[i], c.now);
      forall applied: bool
        ensures AfterRefund(w.buckets, c.now, c.limits, obs, applied)
                  == AfterRefund(w'.buckets, c.now, c.limits, obs, applied)
      {
      }
    }
  }

  lemma AgreeingViews(config: map<Key, Limit>, w: World, r: World, c: Call, t: int, horizon: int)
    requires Inv(config, w.buckets, t) && Agree(config, w.buckets, r.buckets, t)
    requires ConformingCall(config, c) && t <= c.now < horizon && !c.DropKey?
    ensures Readable(w.buckets, c.limits, c.now)
    ensures SameViews(w.buckets, Keep(r.buckets, horizon), c.limits, c.now)
  {
    hide Observe, CanRefund, Inv, Agree;
    AllReadable(config, w.buckets, LimitsOf(c), c.now, t);
    forall i | 0 <= i < |c.limits| ensures SameView(w.buckets, Keep(r.buckets, horizon), c.limits[i], c.now) {
      assert c.limits[i] == LimitsOf(c)[i];
      AgreementIsInvisible(config, w.buckets, r.buckets, c.limits[i], c.now, t, horizon);
    }
  }

  /** Both servers write the same entry for a key the call mentions. */
  lemma SameWrite(w: World, w': World, c: Call, i: nat)
    requires !c.DropKey? && w.markers == w'.markers && Readable(w.buckets, c.limits, c.now)
    requires SameViews(w.buckets, w'.buckets, c.limits, c.now) && i < |c.limits| && Writes(w, c)
    ensures var k, after, after' := c.limits[i].key, Step(w, c).0.buckets, Step(w', c).0.buckets;
            k in after && k in after' && after[k] == after'[k]
  {
    hide Observe, CanRefund, Step, Written;
    SameBalances(w.buckets, w'.buckets, c.limits, c.now);
    SameReply(w, w', c);
    assert SameView(w.buckets, w'.buckets, c.limits[i], c.now);
    PreciseEffect(w, c, i);
    PreciseEffect(w', c, i);
  }

  lemma UnwrittenStep(w: World, c: Call)
    requires !c.DropKey? && !Writes(w, c)
    ensures Step(w, c).0.buckets == w.buckets
  {
    hide Observe;
  }

  lemma ScriptKeyAgrees(config: map<Key, Limit>, w: World, r: World, c: Call, k: Key, t: int, horizon: int)
    requires Inv(config, w.buckets, t) && Agree(config, w.buckets, r.buckets, t) && w.markers == r.markers
    requires ConformingCall(config, c) && t <= c.now < horizon && !c.DropKey?
    ensures KeyAgrees(config, Step(w, c).0.buckets, KeptStep(r, c, horizon).0.buckets, k, c.now)
  {
    hide Observe, CanRefund, Step, EntryOK, Behind;
    var kept := World(Keep(r.buckets, horizon), r.markers);
    assert KeyAgrees(config, w.buckets, r.buckets, k, t);
    AgreeingViews(config, w, r, c, t, horizon);
    var i := IndexOf(c.limits, k);
    if !Writes(w, c) {
      UnwrittenStep(w, c);
      UnwrittenStep(kept, c);
    } else if i < 0 {
      CallSparesOthers(w, c, k);
      CallSparesOthers(kept, c, k);
    } else {
      SameWrite(w, kept, c, i);
      StepKeepsInv(config, w, c, t);
      assert KeyInv(config, Step(w, c).0.buckets, k, c.now);
      NaturalIsWritten(config[k], Step(w, c).0.buckets[k]);
    }
  }

  lemma DropKeyAgrees(config: map<Key, Limit>, w: World, r: World, c: Call, k: Key, t: int)
    requires Inv(config, w.buckets, t) && Agree(config, w.buckets, r.buckets, t) && c.DropKey? && t <= c.now
    ensures KeyAgrees(config, Step(w, c).0.buckets, r.buckets, k, c.now)
  {
    hide EntryOK, Behind;
    assert KeyAgrees(config, w.buckets, r.buckets, k, t) && KeyInv(config, w.buckets, k, t);
    if k in w.buckets {
      NaturalIsWritten(config[k], w.buckets[k]);
    }
  }

  lemma StepAgrees(config: map<Key, Limit>, w: World, r: World, c: Call, t: int, horizon: int)
    requires Inv(config, w.buckets, t) && Agree(config, w.buckets, r.buckets, t) && w.markers == r.markers
    requires ConformingCall(config, c) && t <= c.now < horizon
    ensures Agree(config, Step(w, c).0.buckets, KeptStep(r, c, horizon).0.buckets, c.now)
    ensures Step(w, c).1 == KeptStep(r, c, horizon).1
    ensures Step(w, c).0.markers == KeptStep(r, c, horizon).0.markers
  {
    if c.DropKey? {
      forall k ensures KeyAgrees(config, Step(w, c).0.buckets, r.buckets, k, c.now) {
        DropKeyAgrees(config, w, r, c, k, t);
      }
    } else {
      ScriptAgrees(config, w, r, c, t, horizon);
    }
  }

  lemma ScriptAgrees(config: map<Key, Limit>, w: World, r: World, c: Call, t: int, horizon: int)
    requires Inv(config, w.buckets, t) && Agree(config, w.buckets, r.buckets, t) && w.markers == r.markers
    requires ConformingCall(config, c) && t <= c.now < horizon && !c.DropKey?
    ensures Agree(config, Step(w, c).0.buckets, KeptStep(r, c, horizon).0.buckets, c.now)
    ensures Step(w, c).1 == KeptStep(r, c, horizon).1
    ensures Step(w, c).0.markers == KeptStep(r, c, horizon).0.markers
  {
    hide Observe, CanRefund, Step, KeyAgrees;
    AgreeingViews(config, w, r, c, t, horizon);
    SameReply(w, World(Keep(r.buckets, horizon), r.markers), c);
    forall k ensures KeyAgrees(config, Step(w, c).0.buckets, KeptStep(r, c, horizon).0.buckets, k, c.now) {
      ScriptKeyAgrees(config, w, r, c, k, t, horizon);
    }
  }

  /**
   * Key expiry is unobservable: on a non-decreasing clock, a server that drops keys at their TTL (at any
   * moment once due) answers every call of every run exactly as one that never drops a bucket.
   */
  lemma {:induction false} ExpiryIsUnobservable(config: map<Key, Limit>, w: World, r: World, calls: seq<Call>, t: int,
                                                horizon: int)
    requires Inv(config, w.buckets, t) && Agree(config, w.buckets, r.buckets, t) && w.markers == r.markers
    requires OrderedRun(config, calls, t) && (forall i :: 0 <= i < |calls| ==> calls[i].now < horizon)
    ensures Replies(w, calls) == KeptReplies(r, calls, horizon)
    decreases calls
  {
    hide Step, Inv, Agree, KeptStep;
    if calls != [] {
      var c, rest := calls[0], calls[1..];
      StepAgrees(config, w, r, c, t, horizon);
      StepKeepsInv(config, w, c, t);
      forall i | 0 <= i < |rest| ensures rest[i].now < horizon {
        assert rest[i] == calls[i + 1];
      }
      ExpiryIsUnobservable(config, Step(w, c).0, KeptStep(r, c, horizon).0, rest, c.now, horizon);
    }
  }
}
