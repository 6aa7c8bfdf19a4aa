/** The balances a rate reply reports: how much could be taken from each bucket. */
module RateAnswers {
  import opened Common
  import opened RateScript
  import opened RateLaws
  import opened RateBounds
  import opened RateExpiry
  import opened RateRetry
  import opened RateRefund

  lemma AskingKeepsShape(l: Limit, amount: int)
    requires l.Shape()
    ensures l.Asking(amount).Shape() && (1 <= amount <= l.capacity ==> l.Asking(amount).Valid())
  {
    if l.Refilling? {
      assert l.Asking(amount).Accrued(l.idleTtlMs) == l.Accrued(l.idleTtlMs);
    }
  }

  /** An acquire of `amount` tokens from this bucket alone would be granted. */
  ghost predicate CanTake(b: Buckets, l: Limit, now: int, amount: int)
    requires l.Shape() && 1 <= amount <= l.capacity
  {
    AskingKeepsShape(l, amount);
    Acquire(b, now, [l.Asking(amount)]).1.Granted?
  }

  /** `n` is the greatest amount that could be taken from this bucket now. */
  ghost predicate Spendable(b: Buckets, l: Limit, now: int, n: int)
    requires l.Shape()
  {
    0 <= n <= l.capacity && forall amount :: 1 <= amount <= l.capacity ==> (CanTake(b, l, now, amount) <==> amount <= n)
  }

  lemma SpendableIsUnique(b: Buckets, l: Limit, now: int, n: int, m: int)
    requires l.Shape() && Spendable(b, l, now, n) && Spendable(b, l, now, m)
    ensures n == m
  {
    hide CanTake;
    var top := Max(n, m);
    assert top >= 1 ==> (CanTake(b, l, now, top) <==> top <= n);
  }

  lemma CanTakeWithin(b: Buckets, l: Limit, now: int, amount: int)
    requires l.Shape() && 1 <= amount <= l.capacity && ObserveAt(b, l, now).Some?
    ensures CanTake(b, l, now, amount) <==> amount as real <= ObserveAt(b, l, now).value.tokens
  {
    hide Observe;
    AskingKeepsShape(l, amount);
    SameReading(l, amount, Lookup(b, l.key, now), now);
    GrantedIffAllCanPay(b, now, [l.Asking(amount)]);
  }

  lemma FloorOrder(x: real, n: int)
    ensures n <= x.Floor <==> n as real <= x
  {
  }

  /** The floor of the balance is what can be taken. */
  lemma FloorIsSpendable(b: Buckets, l: Limit, now: int)
    requires l.Shape() && ObserveAt(b, l, now).Some?
    ensures Spendable(b, l, now, ObserveAt(b, l, now).value.tokens.Floor)
  {
    hide Observe, CanTake;
    ObservedInRange(l, Lookup(b, l.key, now), now);
    var tokens := ObserveAt(b, l, now).value.tokens;
    FloorOrder(tokens, 0);
    FloorOrder(tokens, l.capacity + 1);
    forall amount | 1 <= amount <= l.capacity ensures CanTake(b, l, now, amount) <==> amount <= tokens.Floor {
      CanTakeWithin(b, l, now, amount);
      FloorOrder(tokens, amount);
    }
  }

  /** A rewritten bucket shows the balance it was rewritten with. */
  lemma RewrittenShows(before: Buckets, after: Buckets, l: Limit, tokens: real, now: int)
    requires l.Shape() && now >= 0 && Rewrote(before, after, l, tokens, now) && 0.0 <= tokens <= l.capacity as real
    ensures ObserveAt(after, l, now).Some? && ObserveAt(after, l, now).value.tokens == tokens
  {
    hide Observe, Written, EntryOK;
    WrittenOK(l, Lookup(before, l.key, now), now, tokens);
    WrittenReadsBack(l, Lookup(before, l.key, now), now, tokens);
  }

  // ---------------------------------------------------------------------------------------------
  // The reported numbers
  // ---------------------------------------------------------------------------------------------

  lemma {:induction false} InspectReads(b: Buckets, now: int, limits: Arguments, n: nat, i: nat)
    requires i < n <= |limits| && Readable(b, limits, now)
    ensures var report := InspectFirst(b, now, limits, n).1;
            report.Some? && |report.value| == n && report.value[i] == ObserveAt(b, limits[i], now).value.tokens.Floor
    decreases n
  {
    hide Observe, Written;
    InspectSucceeds(b, now, limits, n);
    InspectSucceeds(b, now, limits, n - 1);
    InspectOther(b, now, limits, n - 1, limits[n - 1].key);
    ObservedInRange(limits[n - 1], Lookup(b, limits[n - 1].key, now), now);
    if i < n - 1 {
      InspectReads(b, now, limits, n - 1, i);
    } else if n > 1 {
      InspectReads(b, now, limits, n - 1, 0);
    } else {
      assert InspectFirst(b, now, limits, 0) == (b, Some([]));
    }
  }

  lemma AcquireReads(b: Buckets, now: int, limits: Arguments, i: nat)
    requires i < |limits| && Readable(b, limits, now)
    ensures var reply, tokens := Acquire(b, now, limits).1, ObserveAt(b, limits[i], now).value.tokens;
            && !reply.Corrupt? && (reply.Granted? || reply.Denied?) && |reply.remaining| == |limits| && reply.at == now
            && (reply.Denied? ==> reply.remaining[i] == tokens.Floor)
            && (reply.Granted? ==> reply.remaining[i] == (tokens - limits[i].requested as real).Floor)
  {
    hide Observe, Written, StoreFirst, LongestWait, EntriesOf;
    assert ObserveAt(b, limits[i], now) == Some(Balances(b, limits, now)[i]);
    ObservedInRange(limits[i], Lookup(b, limits[i].key, now), now);
    AcquireGet(b, now, limits, i);
  }

  lemma RefundReads(b: Buckets, markers: Markers, now: int, reference: Reference, limits: Arguments, i: nat)
    requires i < |limits| && Readable(b, limits, now)
    ensures var reply := Refund(b, markers, now, reference, MARKER_TTL_MS, limits).2;
            var l, o := limits[i], ObserveAt(b, limits[i], now).value;
            var accepts := !Marked(markers, reference, now) && CanRefund(l, Lookup(b, l.key, now), now);
            && reply.Refunded? && |reply.remaining| == |limits| && reply.at == now
            && reply.remaining[i] == Credited(l, o, accepts).Floor
            && 0.0 <= Credited(l, o, accepts) <= l.capacity as real
  {
    hide Observe, Written, StoreFirst, EntriesOf, CanRefund;
    assert ObserveAt(b, limits[i], now) == Some(Balances(b, limits, now)[i]);
    ObservedInRange(limits[i], Lookup(b, limits[i].key, now), now);
  }

  lemma FloorLess(x: real, n: int)
    ensures (x - n as real).Floor == x.Floor - n
  {
  }

  /** Every number a reply reports is what could be taken from that bucket right after the call. */
  lemma ReportsWhatIsLeft(config: map<Key, Limit>, w: World, c: Call, t: int, i: nat)
    requires Inv(config, w.buckets, t) && ConformingCall(config, c) && t <= c.now && !c.DropKey? && i < |c.limits|
    ensures var (after, reply) := Step(w, c);
            && !reply.Corrupt? && reply.at == c.now && |reply.remaining| == |c.limits|
            && Spendable(after.buckets, c.limits[i], c.now, reply.remaining[i])
  {
    hide Step, Observe, Spendable, Acquire, Refund, InspectFirst, ConformingCall;
    StepKeepsInv(config, w, c, t);
    ConformingLimits(config, c);
    AllReadable(config, w.buckets, c.limits, c.now, t);
    match c
    case AcquireCall(now, limits) => AcquireLeaves(w, c, i);
    case InspectCall(now, limits) => InspectLeaves(w, c, i);
    case RefundCall(now, reference, limits) => RefundLeaves(w, c, i);
  }

  lemma ConformingLimits(config: map<Key, Limit>, c: Call)
    requires ConformingCall(config, c) && !c.DropKey?
    ensures forall i :: 0 <= i < |c.limits| ==> Conforms(config, c.limits[i])
  {
    assert LimitsOf(c) == c.limits;
  }

  lemma AcquireLeaves(w: World, c: Call, i: nat)
    requires c.AcquireCall? && i < |c.limits| && Readable(w.buckets, c.limits, c.now) && c.now >= 0
    ensures var (after, reply) := Step(w, c);
            && !reply.Corrupt? && reply.at == c.now && |reply.remaining| == |c.limits|
            && Spendable(after.buckets, c.limits[i], c.now, reply.remaining[i])
  {
    hide Observe, Spendable, Acquire, Rewrote;
    var l, tokens := c.limits[i], ObserveAt(w.buckets, c.limits[i], c.now).value.tokens;
    AcquireReads(w.buckets, c.now, c.limits, i);
    AcquireGet(w.buckets, c.now, c.limits, i);
    ObservedInRange(l, Lookup(w.buckets, l.key, c.now), c.now);
    var left := if Step(w, c).1.Granted? then tokens - l.requested as real else tokens;
    RewrittenShows(w.buckets, Step(w, c).0.buckets, l, left, c.now);
    FloorIsSpendable(Step(w, c).0.buckets, l, c.now);
  }

  lemma InspectLeaves(w: World, c: Call, i: nat)
    requires c.InspectCall? && i < |c.limits| && Readable(w.buckets, c.limits, c.now) && c.now >= 0
    ensures var (after, reply) := Step(w, c);
            && !reply.Corrupt? && reply.at == c.now && |reply.remaining| == |c.limits|
            && Spendable(after.buckets, c.limits[i], c.now, reply.remaining[i])
  {
    hide Observe, Spendable, InspectFirst, Rewrote;
    var l := c.limits[i];
    InspectReads(w.buckets, c.now, c.limits, |c.limits|, i);
    InspectWritesAll(w.buckets, c.now, c.limits, |c.limits|, i);
    ObservedInRange(l, Lookup(w.buckets, l.key, c.now), c.now);
    RewrittenShows(w.buckets, Step(w, c).0.buckets, l, ObserveAt(w.buckets, l, c.now).value.tokens, c.now);
    FloorIsSpendable(Step(w, c).0.buckets, l, c.now);
  }

  lemma RefundLeaves(w: World, c: Call, i: nat)
    requires c.RefundCall? && i < |c.limits| && Readable(w.buckets, c.limits, c.now) && c.now >= 0
    ensures var (after, reply) := Step(w, c);
            && !reply.Corrupt? && reply.at == c.now && |reply.remaining| == |c.limits|
            && Spendable(after.buckets, c.limits[i], c.now, reply.remaining[i])
  {
    hide Observe, Spendable, Refund, Rewrote, CanRefund;
    var l := c.limits[i];
    RefundReads(w.buckets, w.markers, c.now, c.reference, c.limits, i);
    if Marked(w.markers, c.reference, c.now) {
      MarkedRefundKeeps(w, c);
    } else {
      RefundGet(w.buckets, w.markers, c.now, c.reference, c.limits, i);
      var o := ObserveAt(w.buckets, l, c.now).value;
      var tokens := Credited(l, o, CanRefund(l, Lookup(w.buckets, l.key, c.now), c.now));
      RewrittenShows(w.buckets, Step(w, c).0.buckets, l, tokens, c.now);
    }
    FloorIsSpendable(Step(w, c).0.buckets, l, c.now);
  }

  lemma MarkedRefundKeeps(w: World, c: Call)
    requires c.RefundCall? && Marked(w.markers, c.reference, c.now)
    ensures Step(w, c).0.buckets == w.buckets
  {
    hide Observe, StoreFirst, CanRefund;
  }

  /**
   * Against the store before the call: an inspection and a refused acquire report what could be taken from each
   * bucket, a granted acquire that amount less what it took.
   */
  lemma ReportsWhatWasThere(config: map<Key, Limit>, w: World, c: Call, t: int, i: nat)
    requires Inv(config, w.buckets, t) && ConformingCall(config, c) && t <= c.now && i < |LimitsOf(c)|
    requires c.InspectCall? || c.AcquireCall?
    ensures var reply := Step(w, c).1;
            && (reply.Inspected? || reply.Denied? || reply.Granted?) && |reply.remaining| == |c.limits|
            && Spendable(w.buckets, c.limits[i], c.now,
                         reply.remaining[i] + if reply.Granted? then c.limits[i].requested else 0)
  {
    hide Observe, Spendable, Acquire, InspectFirst, ConformingCall;
    ConformingLimits(config, c);
    AllReadable(config, w.buckets, c.limits, c.now, t);
    var l := c.limits[i];
    FloorIsSpendable(w.buckets, l, c.now);
    if c.InspectCall? {
      InspectReads(w.buckets, c.now, c.limits, |c.limits|, i);
    } else {
      AcquireReads(w.buckets, c.now, c.limits, i);
      FloorLess(ObserveAt(w.buckets, l, c.now).value.tokens, l.requested);
    }
  }

  // ---------------------------------------------------------------------------------------------
  // When a refund applies
  // ---------------------------------------------------------------------------------------------

  /** The instant of the last applied refund with this reference. */
  function LastApplied(w: World, calls: seq<Call>, reference: Reference, before: Option<int>): Option<int>
    decreases calls
  {
    if calls == [] then before
    else LastApplied(Step(w, calls[0]).0, calls[1..], reference,
                     if Applied(w, calls[0], reference) then Some(calls[0].now) else before)
  }

  /** The marker of the reference stands for its last applied refund. */
  predicate MarkerStands(w: World, reference: Reference, last: Option<int>) {
    if last.Some? then reference in w.markers && w.markers[reference] == last.value + MARKER_TTL_MS
    else reference !in w.markers
  }

  lemma NoMarkerAppears(w: World, c: Call, reference: Reference)
    ensures !Applied(w, c, reference) && reference !in w.markers ==> reference !in Step(w, c).0.markers
  {
    hide Observe, LongestWait, StoreFirst, CanRefund, InspectFirst;
  }

  lemma {:induction false} MarkerIsLastApplied(w: World, calls: seq<Call>, reference: Reference, before: Option<int>)
    requires MarkerStands(w, reference, before)
    ensures MarkerStands(Run(w, calls), reference, LastApplied(w, calls, reference, before))
    decreases calls
  {
    hide Step, Applied;
    if calls != [] {
      var c := calls[0];
      MarkerStep(w, c, reference);
      NoMarkerAppears(w, c, reference);
      MarkerIsLastApplied(Step(w, c).0, calls[1..], reference,
                          if Applied(w, c, reference) then Some(c.now) else before);
    }
  }

  lemma {:induction false} RunKeepsReadable(config: map<Key, Limit>, w: World, calls: seq<Call>, t: int)
    requires Inv(config, w.buckets, t) && OrderedRun(config, calls, t)
    ensures Inv(config, Run(w, calls).buckets, LastClock(calls, t))
    decreases calls
  {
    hide Step, ConformingCall, Inv;
    if calls != [] {
      StepKeepsInv(config, w, calls[0], t);
      RunKeepsReadable(config, Step(w, calls[0]).0, calls[1..], calls[0].now);
    }
  }

  /**
   * After any run, a refund is credited exactly when no refund with its reference was credited within the lifetime of
   * the marker: a first refund always is, and so is one after the marker has lapsed.
   */
  lemma RefundAppliesExactly(config: map<Key, Limit>, w: World, calls: seq<Call>, t: int, c: Call)
    requires Inv(config, w.buckets, t) && OrderedRun(config, calls, t)
    requires c.RefundCall? && ConformingCall(config, c) && LastClock(calls, t) <= c.now && c.reference !in w.markers
    ensures var last := LastApplied(w, calls, c.reference, None);
            Applied(Run(w, calls), c, c.reference) <==> last.None? || last.value + MARKER_TTL_MS <= c.now
  {
    hide Step, Observe, ConformingCall, Run, LastApplied, Inv, OrderedRun, Applied, LastClock;
    var after := Run(w, calls);
    RunKeepsReadable(config, w, calls, t);
    MarkerIsLastApplied(w, calls, c.reference, None);
    ConformingLimits(config, c);
    AllReadable(config, after.buckets, c.limits, c.now, LastClock(calls, t));
    MarkerStep(after, c, c.reference);
    if !Marked(after.markers, c.reference, c.now) {
      ReadableRefundApplies(after, c);
    }
  }
}
