/** Refunds: applied at most once per reference, and equal to having reserved the actual amount. */
module RateRefund {
  import opened Common
  import opened RateScript
  import opened RateLaws
  import opened RateBounds
  import opened RateRetry

  // ---------------------------------------------------------------------------------------------
  // At most once
  // ---------------------------------------------------------------------------------------------

  predicate Applied(w: World, c: Call, reference: Reference) {
    c.RefundCall? && c.reference == reference && Step(w, c).1.Refunded? && Step(w, c).1.applied
  }

  function Applications(w: World, calls: seq<Call>, reference: Reference): nat
    decreases calls
  {
    if calls == [] then 0
    else (if Applied(w, calls[0], reference) then 1 else 0) + Applications(Step(w, calls[0]).0, calls[1..], reference)
  }

  /** A script error, and a refund whose marker is live, leave marker and balances untouched. */
  lemma RefusedCallChangesNothing(w: World, c: Call)
    requires c.AcquireCall? ==> Step(w, c).1.Corrupt?
    requires c.RefundCall? ==> !Applied(w, c, c.reference)
    requires c.AcquireCall? || c.RefundCall?
    ensures Step(w, c).0 == w
  {
    hide Observe, LongestWait, StoreFirst, CanRefund;
  }

  lemma MarkerStep(w: World, c: Call, reference: Reference)
    ensures Applied(w, c, reference) ==> Step(w, c).0.markers == w.markers[reference := c.now + MARKER_TTL_MS]
    ensures Applied(w, c, reference) ==> !Marked(w.markers, reference, c.now)
    ensures !Applied(w, c, reference) && reference in w.markers ==>
              reference in Step(w, c).0.markers && Step(w, c).0.markers[reference] == w.markers[reference]
  {
    hide Observe, LongestWait, StoreFirst, CanRefund, InspectFirst;
  }

  lemma {:induction false} MarkedIsNeverApplied(w: World, calls: seq<Call>, reference: Reference)
    requires reference in w.markers
    requires forall i :: 0 <= i < |calls| ==> calls[i].now < w.markers[reference]
    ensures Applications(w, calls, reference) == 0
    decreases calls
  {
    hide Step;
    if calls != [] {
      MarkerStep(w, calls[0], reference);
      assert !Applied(w, calls[0], reference);
      forall i | 0 <= i < |calls[1..]| ensures calls[1..][i].now < w.markers[reference] {
        assert calls[1..][i] == calls[i + 1];
      }
      MarkedIsNeverApplied(Step(w, calls[0]).0, calls[1..], reference);
    }
  }

  /** Whatever the clock does within one marker lifetime, a reference is credited at most once. */
  lemma {:induction false} RefundAtMostOnce(w: World, calls: seq<Call>, reference: Reference, from: int)
    requires forall i :: 0 <= i < |calls| ==> from <= calls[i].now < from + MARKER_TTL_MS
    ensures Applications(w, calls, reference) <= 1
    decreases calls
  {
    hide Step;
    if calls != [] {
      var c, rest := calls[0], calls[1..];
      forall i | 0 <= i < |rest| ensures from <= rest[i].now < from + MARKER_TTL_MS {
        assert rest[i] == calls[i + 1];
      }
      MarkerStep(w, c, reference);
      if Applied(w, c, reference) {
        MarkedIsNeverApplied(Step(w, c).0, rest, reference);
      } else {
        RefundAtMostOnce(Step(w, c).0, rest, reference, from);
      }
    }
  }

  // ---------------------------------------------------------------------------------------------
  // Reconciliation
  // ---------------------------------------------------------------------------------------------

  /** An acquire is granted exactly when every bucket holds what is asked of it. */
  lemma GrantedIffAllCanPay(b: Buckets, now: int, limits: Arguments)
    ensures Acquire(b, now, limits).1.Granted? <==>
              && Readable(b, limits, now)
              && forall i :: 0 <= i < |limits| ==>
                   ObserveAt(b, limits[i], now).value.tokens >= limits[i].requested as real
  {
    hide Observe, LongestWait, StoreFirst, Wait;
    if Readable(b, limits, now) {
      var obs := Balances(b, limits, now);
      LongestWaitIsMaximum(limits, obs);
      forall i | 0 <= i < |limits|
        ensures ObserveAt(b, limits[i], now).value.tokens >= limits[i].requested as real <==>
                  Wait(limits[i], obs[i]) <= 0
      {
        assert ObserveAt(b, limits[i], now) == Some(obs[i]);
        WaitIsPositive(limits[i], Lookup(b, limits[i].key, now), now);
      }
    }
  }

  lemma WaitIsPositive(l: Limit, hash: Option<Bucket>, now: int)
    requires l.Valid() && Observe(l, hash, now).Some?
    ensures var o := Observe(l, hash, now).value; o.tokens >= l.requested as real <==> Wait(l, o) <= 0
  {
    hide Limit.RefillMs;
  }

  ghost predicate Reconciled(l: Limit, o: Observed, reservedAt: int, refundedAt: int, estimate: int, actual: int,
                             t: int)
    requires l.Shape()
  {
    var reserved := Written(l, o, o.tokens - estimate as real, reservedAt).hash;
    && Observe(l, Some(reserved), refundedAt).Some?
    && var o' := Observe(l, Some(reserved), refundedAt).value;
       var credited := Credited(l.Asking(estimate - actual), o', CanRefund(l, Some(reserved), refundedAt));
       Observe(l, Some(Written(l, o', credited, refundedAt).hash), t)
         == Observe(l, Some(Written(l, o, o.tokens - actual as real, reservedAt).hash), t)
  }

  /** Reserving `estimate` and later returning `estimate - actual` reads as having reserved `actual`. */
  lemma ReconcileBucket(l: Limit, hash: Option<Bucket>, reservedAt: int, refundedAt: int, estimate: int, actual: int,
                        t: int)
    requires l.Shape() && 0 <= reservedAt <= refundedAt <= t && Observe(l, hash, reservedAt).Some?
    requires 0 <= actual <= estimate && estimate as real <= Observe(l, hash, reservedAt).value.tokens
    ensures Reconciled(l, Observe(l, hash, reservedAt).value, reservedAt, refundedAt, estimate, actual, t)
  {
    ObservedInRange(l, hash, reservedAt);
    if l.FixedWindow? {
      ReconcileWindow(l, hash, reservedAt, refundedAt, estimate, actual, t);
    } else {
      ReconcileRefill(l, hash, reservedAt, refundedAt, estimate, actual, t);
    }
  }

  lemma ReconcileWindow(l: Limit, hash: Option<Bucket>, reservedAt: int, refundedAt: int, estimate: int, actual: int,
                        t: int)
    requires l.Shape() && l.FixedWindow? && 0 <= reservedAt <= refundedAt <= t && Observe(l, hash, reservedAt).Some?
    requires 0 <= actual <= estimate
             && estimate as real <= Observe(l, hash, reservedAt).value.tokens <= l.capacity as real
    ensures Reconciled(l, Observe(l, hash, reservedAt).value, reservedAt, refundedAt, estimate, actual, t)
  {
    var first, second, last := l.WindowIndex(reservedAt), l.WindowIndex(refundedAt), l.WindowIndex(t);
    WindowBoundary(l, reservedAt, first - 1);
    WindowBoundary(l, refundedAt, first - 1);
    WindowBoundary(l, refundedAt, second - 1);
    WindowBoundary(l, t, second - 1);
    assert first <= second <= last;
  }

  lemma ReconcileRefill(l: Limit, hash: Option<Bucket>, reservedAt: int, refundedAt: int, estimate: int, actual: int,
                        t: int)
    requires l.Shape() && l.Refilling? && 0 <= reservedAt <= refundedAt <= t && Observe(l, hash, reservedAt).Some?
    requires 0 <= actual <= estimate
             && estimate as real <= Observe(l, hash, reservedAt).value.tokens <= l.capacity as real
    ensures Reconciled(l, Observe(l, hash, reservedAt).value, reservedAt, refundedAt, estimate, actual, t)
  {
    hide Limit.Accrued;
    var o := Observe(l, hash, reservedAt).value;
    AccruedAdds(l, 0, 0);
    AccruedAdds(l, Max(0, refundedAt - o.stamp), Max(0, t - Max(refundedAt, o.stamp)));
    AccruedAdds(l, Max(0, t - Max(refundedAt, o.stamp)), 0);
  }

  /** Any script keeps the stored entries well shaped, whatever its clock. */
  lemma ShapedStep(config: map<Key, Limit>, w: World, c: Call)
    requires Shaped(config, w.buckets) && ConformingCall(config, c) && c.now >= 0 && !c.DropKey?
    ensures Shaped(config, Step(w, c).0.buckets)
  {
    hide Step, Charged, Returned, Observe, Written, EntryOK;
    var after := Step(w, c).0.buckets;
    forall k | k in after ensures k in config && EntryOK(config[k], after[k]) {
      CallEffect(w, c, k);
      if !Spared(w, c, k) {
        var l := c.limits[IndexOf(c.limits, k)];
        assert l == LimitsOf(c)[IndexOf(c.limits, k)] && l.Valid();
        ObservedInRange(l, Lookup(w.buckets, k, c.now), c.now);
        var tokens := ObserveAt(w.buckets, l, c.now).value.tokens;
        SettledInRange(w, c, l, tokens);
        WrittenOK(l, Lookup(w.buckets, k, c.now), c.now, Settled(w, c, l, tokens));
        EntryOKAsking(config[k], l.requested, after[k]);
      }
    }
  }

  /** Expiry aside, whether a bucket takes a refund is determined by the stored hash. */
  lemma RawRefund(config: map<Key, Limit>, b: Buckets, l: Limit, t: int)
    requires Shaped(config, b) && Conforms(config, l) && l.Shape()
    ensures CanRefund(l, Lookup(b, l.key, t), t) == CanRefund(l, Raw(b, l.key), t)
  {
    hide CanRefund, Observe;
    if l.key in b && b[l.key].expireAt <= t {
      EntryOKAsking(config[l.key], l.requested, b[l.key]);
      ExpiredReadsAsAbsent(l, b[l.key], t);
    }
  }

  /**
   * `actual` asks, bucket by bucket, for what `limits` asked minus what `refund` returns, and leaves out the
   * buckets that are refunded in full.
   */
  ghost predicate Reconciles(limits: Arguments, refund: Arguments, actual: Arguments) {
    && (forall i :: 0 <= i < |limits| ==> SettlesBucket(limits[i], refund, actual))
    && (forall j :: 0 <= j < |refund| ==> IndexOf(limits, refund[j].key) >= 0)
    && (forall a :: 0 <= a < |actual| ==> IndexOf(limits, actual[a].key) >= 0)
  }

  function Remaining(l: Limit, refund: Arguments): int {
    var j := IndexOf(refund, l.key);
    if j < 0 then l.requested else l.requested - refund[j].requested
  }

  ghost predicate SettlesBucket(l: Limit, refund: Arguments, actual: Arguments) {
    var j, a, left := IndexOf(refund, l.key), IndexOf(actual, l.key), Remaining(l, refund);
    && (j >= 0 ==> refund[j] == l.Asking(refund[j].requested))
    && left >= 0
    && if left == 0 then a < 0 else a >= 0 && actual[a] == l.Asking(left)
  }

  ghost predicate SameKeyReading(config: map<Key, Limit>, b: Buckets, b': Buckets, k: Key, t: int) {
    k in config && config[k].Shape() ==> Observe(config[k], Raw(b, k), t) == Observe(config[k], Raw(b', k), t)
  }

  lemma ReadingsDecide(config: map<Key, Limit>, b: Buckets, b': Buckets, from: int)
    requires Shaped(config, b) && Shaped(config, b')
    requires forall k, t :: t >= from ==> SameKeyReading(config, b, b', k, t)
    ensures Indistinguishable(config, b, b', from)
  {
    hide Observe, Shaped;
    forall l: Limit, now | Conforms(config, l) && l.Shape() && now >= from
      ensures ObserveAt(b, l, now) == ObserveAt(b', l, now)
    {
      RawReading(config, b, l, now);
      RawReading(config, b', l, now);
      ShapedConfig(config, b, l.key);
      assert SameKeyReading(config, b, b', l.key, now);
      SameReading(config[l.key], l.requested, Raw(b, l.key), now);
      SameReading(config[l.key], l.requested, Raw(b', l.key), now);
    }
  }

  /** A granted acquire, seen through the key's own configuration. */
  lemma GrantedWrite(config: map<Key, Limit>, w: World, c: Call, i: nat)
    requires Shaped(config, w.buckets) && ConformingCall(config, c) && c.AcquireCall? && i < |c.limits|
    requires Step(w, c).1.Granted?
    ensures var k, asked, after := c.limits[i].key, c.limits[i].requested, Step(w, c).0.buckets;
            && k in config && config[k].Valid() && k in after && Observe(config[k], Raw(w.buckets, k), c.now).Some?
            && var o := Observe(config[k], Raw(w.buckets, k), c.now).value;
               o.tokens >= asked as real && after[k] == Written(config[k], o, o.tokens - asked as real, c.now)
  {
    hide Observe, LongestWait, StoreFirst, Wait, Written;
    var l := c.limits[i];
    assert l == LimitsOf(c)[i] && l.Valid();
    AcquireGet(w.buckets, c.now, c.limits, i);
    RawReading(config, w.buckets, l, c.now);
    SameReading(config[l.key], l.requested, Raw(w.buckets, l.key), c.now);
    var o := ObserveAt(w.buckets, l, c.now).value;
    WrittenAsking(config[l.key], l.requested, o, o.tokens - l.requested as real, c.now);
  }

  /** An applied refund, seen through the key's own configuration. */
  lemma RefundWrite(config: map<Key, Limit>, w: World, c: Call, j: nat)
    requires Shaped(config, w.buckets) && ConformingCall(config, c) && c.RefundCall? && j < |c.limits|
    requires Readable(w.buckets, c.limits, c.now) && !Marked(w.markers, c.reference, c.now)
    ensures var k, after := c.limits[j].key, Step(w, c).0.buckets;
            && k in config && config[k].Valid() && k in after && Observe(config[k], Raw(w.buckets, k), c.now).Some?
            && var o := Observe(config[k], Raw(w.buckets, k), c.now).value;
               after[k] == Written(config[k], o,
                                   Credited(c.limits[j], o, CanRefund(config[k], Raw(w.buckets, k), c.now)), c.now)
  {
    hide Observe, StoreFirst, Written, CanRefund;
    var l := c.limits[j];
    assert l == LimitsOf(c)[j] && l.Valid();
    RefundGet(w.buckets, w.markers, c.now, c.reference, c.limits, j);
    RawReading(config, w.buckets, l, c.now);
    RawRefund(config, w.buckets, l, c.now);
    SameReading(config[l.key], l.requested, Raw(w.buckets, l.key), c.now);
    SameRefundRule(config[l.key], l.requested, Raw(w.buckets, l.key), c.now);
    var o := ObserveAt(w.buckets, l, c.now).value;
    WrittenAsking(config[l.key], l.requested, o, Credited(l, o, CanRefund(l, Raw(w.buckets, l.key), c.now)), c.now);
  }

  lemma SameRefundRule(l: Limit, amount: int, hash: Option<Bucket>, now: int)
    requires l.Shape() && l.Asking(amount).Shape()
    ensures CanRefund(l, hash, now) == CanRefund(l.Asking(amount), hash, now)
  {
  }

  /** The three calls compared: reserve the estimate, refund the difference, or reserve the actual at once. */
  ghost predicate Compared(config: map<Key, Limit>, w: World, reserve: Call, refund: Call, actual: Call) {
    && Shaped(config, w.buckets)
    && reserve.AcquireCall? && refund.RefundCall? && actual.AcquireCall?
    && ConformingCall(config, reserve) && ConformingCall(config, refund) && ConformingCall(config, actual)
    && 0 <= reserve.now == actual.now <= refund.now
    && Reconciles(reserve.limits, refund.limits, actual.limits)
    && Step(w, reserve).1.Granted?
    && !Marked(Step(w, reserve).0.markers, refund.reference, refund.now)
  }

  /** The bucket of the reserve that an entry of the actual call stands for. */
  lemma ActualEntry(limits: Arguments, refund: Arguments, actual: Arguments, a: nat)
    requires Reconciles(limits, refund, actual) && a < |actual|
    ensures var i := IndexOf(limits, actual[a].key);
            && i >= 0 && actual[a] == limits[i].Asking(Remaining(limits[i], refund))
            && actual[a].requested <= limits[i].requested
  {
    var i := IndexOf(limits, actual[a].key);
    assert SettlesBucket(limits[i], refund, actual);
    assert IndexOf(actual, limits[i].key) == a;
    var j := IndexOf(refund, limits[i].key);
    assert j >= 0 ==> refund[j].Valid();
  }

  lemma ActualIsGranted(config: map<Key, Limit>, w: World, reserve: Call, refund: Call, actual: Call)
    requires Compared(config, w, reserve, refund, actual)
    ensures Step(w, actual).1.Granted?
  {
    hide Observe, StoreFirst, LongestWait, Reconciles, IndexOf;
    GrantedIffAllCanPay(w.buckets, reserve.now, reserve.limits);
    GrantedIffAllCanPay(w.buckets, actual.now, actual.limits);
    forall a | 0 <= a < |actual.limits|
      ensures ObserveAt(w.buckets, actual.limits[a], actual.now).Some?
      ensures ObserveAt(w.buckets, actual.limits[a], actual.now).value.tokens >= actual.limits[a].requested as real
    {
      ActualEntry(reserve.limits, refund.limits, actual.limits, a);
      var l, m := reserve.limits[IndexOf(reserve.limits, actual.limits[a].key)], actual.limits[a];
      assert l.Valid() && m.Valid();
      SameReading(l, m.requested, Lookup(w.buckets, l.key, reserve.now), reserve.now);
    }
  }

  lemma RefundIsReadable(config: map<Key, Limit>, w: World, reserve: Call, refund: Call, actual: Call)
    requires Compared(config, w, reserve, refund, actual)
    ensures Shaped(config, Step(w, reserve).0.buckets)
    ensures Readable(Step(w, reserve).0.buckets, refund.limits, refund.now)
  {
    hide Step, Observe, Written;
    ShapedStep(config, w, reserve);
    var b := Step(w, reserve).0.buckets;
    forall j | 0 <= j < |refund.limits| ensures ObserveAt(b, refund.limits[j], refund.now).Some? {
      var l := refund.limits[j];
      assert l == LimitsOf(refund)[j] && l.Valid();
      var i := IndexOf(reserve.limits, l.key);
      GrantedWrite(config, w, reserve, i);
      var own, asked := config[l.key], reserve.limits[i].requested;
      ObservedInRange(own, Raw(w.buckets, l.key), reserve.now);
      ReconcileBucket(own, Raw(w.buckets, l.key), reserve.now, refund.now, asked, asked, refund.now);
      RawReading(config, b, l, refund.now);
      SameReading(own, l.requested, Raw(b, l.key), refund.now);
    }
  }

  /** The store after the actual call: that bucket charged what remains, or untouched when nothing does. */
  lemma ActualWrite(config: map<Key, Limit>, w: World, reserve: Call, refund: Call, actual: Call, i: nat, t: int)
    requires Compared(config, w, reserve, refund, actual) && Step(w, actual).1.Granted? && t >= reserve.now
    requires i < |reserve.limits|
    ensures var l := reserve.limits[i];
            && l.key in config && config[l.key].Valid()
            && Observe(config[l.key], Raw(w.buckets, l.key), reserve.now).Some?
            && var o := Observe(config[l.key], Raw(w.buckets, l.key), reserve.now).value;
               var hash := Written(config[l.key], o, o.tokens - Remaining(l, refund.limits) as real, reserve.now).hash;
               Observe(config[l.key], Raw(Step(w, actual).0.buckets, l.key), t) == Observe(config[l.key], Some(hash), t)
  {
    hide Step, Observe, Written, Shaped, CanRefund, ConformingCall, IndexOf;
    var l := reserve.limits[i];
    assert SettlesBucket(l, refund.limits, actual.limits);
    GrantedWrite(config, w, reserve, i);
    var o := Observe(config[l.key], Raw(w.buckets, l.key), reserve.now).value;
    var a := IndexOf(actual.limits, l.key);
    if a >= 0 {
      GrantedWrite(config, w, actual, a);
    } else {
      CallSparesOthers(w, actual, l.key);
      ReadingIsIdempotent(config[l.key], Raw(w.buckets, l.key), reserve.now, t);
      assert o.tokens - 0 as real == o.tokens;
    }
  }

  lemma ReconcileMentionedKey(config: map<Key, Limit>, w: World, reserve: Call, refund: Call, actual: Call, i: nat,
                              t: int)
    requires Compared(config, w, reserve, refund, actual) && Step(w, actual).1.Granted? && t >= refund.now
    requires Shaped(config, Step(w, reserve).0.buckets) && i < |reserve.limits|
    requires Readable(Step(w, reserve).0.buckets, refund.limits, refund.now)
    ensures var after := Step(Step(w, reserve).0, refund).0.buckets;
            SameKeyReading(config, after, Step(w, actual).0.buckets, reserve.limits[i].key, t)
  {
    hide Step, Observe, Written, Shaped, CanRefund, ConformingCall, Readable, IndexOf;
    var l, reserved := reserve.limits[i], Step(w, reserve).0;
    var k := l.key;
    assert SettlesBucket(l, refund.limits, actual.limits);
    GrantedWrite(config, w, reserve, i);
    ActualWrite(config, w, reserve, refund, actual, i, t);
    var j := IndexOf(refund.limits, k);
    if j < 0 {
      CallSparesOthers(reserved, refund, k);
    } else {
      RefundWrite(config, reserved, refund, j);
      assert l.Valid() && refund.limits[j].Valid();
      CreditedBy(config, reserve, refund, i, j);
      ReconcileBucket(config[k], Raw(w.buckets, k), reserve.now, refund.now, l.requested, Remaining(l, refund.limits),
                      t);
    }
  }

  /** The credit depends on the refund's capacity and amount only. */
  lemma CreditedBy(config: map<Key, Limit>, reserve: Call, refund: Call, i: nat, j: nat)
    requires !reserve.DropKey? && !refund.DropKey? && i < |reserve.limits| && j < |refund.limits|
    requires ConformingCall(config, refund)
    ensures var l := refund.limits[j];
            && l.key in config
            && forall o, accepts ::
                 Credited(l, o, accepts) == Credited(config[l.key].Asking(l.requested), o, accepts)
  {
    assert refund.limits[j] == LimitsOf(refund)[j];
  }

  lemma ReconcileOtherKey(w: World, reserve: Call, refund: Call, actual: Call, k: Key)
    requires reserve.AcquireCall? && refund.RefundCall? && actual.AcquireCall?
    requires Reconciles(reserve.limits, refund.limits, actual.limits) && IndexOf(reserve.limits, k) < 0
    ensures Raw(Step(Step(w, reserve).0, refund).0.buckets, k) == Raw(Step(w, actual).0.buckets, k)
  {
    hide Step;
    CallSparesOthers(w, reserve, k);
    CallSparesOthers(w, actual, k);
    CallSparesOthers(Step(w, reserve).0, refund, k);
  }

  lemma ReconcileKey(config: map<Key, Limit>, w: World, reserve: Call, refund: Call, actual: Call, k: Key, t: int)
    requires Compared(config, w, reserve, refund, actual) && Step(w, actual).1.Granted? && t >= refund.now
    requires Shaped(config, Step(w, reserve).0.buckets)
    requires Readable(Step(w, reserve).0.buckets, refund.limits, refund.now)
    ensures SameKeyReading(config, Step(Step(w, reserve).0, refund).0.buckets, Step(w, actual).0.buckets, k, t)
  {
    hide Step, Observe, Written, Shaped, CanRefund, ConformingCall, Readable, Reconciles;
    if IndexOf(reserve.limits, k) < 0 {
      ReconcileOtherKey(w, reserve, refund, actual, k);
    } else {
      ReconcileMentionedKey(config, w, reserve, refund, actual, IndexOf(reserve.limits, k), t);
    }
  }

  /**
   * Reconciliation: with no other traffic, reserving the estimate and refunding estimate - actual leaves a
   * store no later reading can tell from one that reserved the actual amount (nothing at all in buckets whose
   * actual amount is zero), for every mix of bucket kinds and across window resets.
   */
  lemma ReconcileEqualsReservingActual(config: map<Key, Limit>, w: World, reserve: Call, refund: Call, actual: Call)
    requires Compared(config, w, reserve, refund, actual)
    ensures Step(w, actual).1.Granted?
    ensures Applied(Step(w, reserve).0, refund, refund.reference)
    ensures Indistinguishable(config, Step(Step(w, reserve).0, refund).0.buckets, Step(w, actual).0.buckets, refund.now)
  {
    hide Step, Observe, Written, CanRefund, Readable;
    ActualIsGranted(config, w, reserve, refund, actual);
    RefundIsReadable(config, w, reserve, refund, actual);
    var reserved := Step(w, reserve).0;
    ReadableRefundApplies(reserved, refund);
    ShapedStep(config, reserved, refund);
    ShapedStep(config, w, actual);
    forall k, t | t >= refund.now
      ensures SameKeyReading(config, Step(reserved, refund).0.buckets, Step(w, actual).0.buckets, k, t)
    {
      ReconcileKey(config, w, reserve, refund, actual, k, t);
    }
    ReadingsDecide(config, Step(reserved, refund).0.buckets, Step(w, actual).0.buckets, refund.now);
  }

  lemma ReadableRefundApplies(w: World, c: Call)
    requires c.RefundCall? && Readable(w.buckets, c.limits, c.now) && !Marked(w.markers, c.reference, c.now)
    ensures Applied(w, c, c.reference)
  {
    hide Observe, StoreFirst, CanRefund;
  }
}
