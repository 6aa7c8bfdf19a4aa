/**
 * The three rate scripts (acquire, inspect, refund) that Valkey runs atomically over
 * refilling buckets and fixed-window quotas.  `now` is the server clock in milliseconds;
 * token balances are exact reals.
 */
module RateScript {
  import opened Common

  type Key = string
  type Reference = string

  /** One bucket's slice of the script arguments.  A positive window selects `FixedWindow`. */
  datatype Limit =
    | Refilling(key: Key, capacity: int, requested: int, refill: int, intervalMs: int, idleTtlMs: int)
    | FixedWindow(key: Key, capacity: int, requested: int, windowMs: int, offsetMs: int)
  {
    /** What argument preparation guarantees about one bucket. */
    predicate Valid() {
      && 1 <= requested <= capacity
      && Shape()
    }

    predicate Shape() {
      && 1 <= capacity
      && (Refilling? ==> refill >= 1 && intervalMs >= 1 && idleTtlMs >= 1
                         && Accrued(idleTtlMs) >= capacity as real)
      && (FixedWindow? ==> windowMs >= 1)
    }

    function Rate(): real
      requires Refilling? && intervalMs >= 1
    {
      refill as real / intervalMs as real
    }

    /** Tokens refilled over `ms` milliseconds, before the cap. */
    function Accrued(ms: int): real
      requires Refilling? && intervalMs >= 1
    {
      ms as real * Rate()
    }

    /** Whole milliseconds until a shortage is refilled. */
    function RefillMs(shortage: real): int
      requires Refilling? && refill >= 1
    {
      Ceil(shortage * intervalMs as real / refill as real)
    }

    function WindowIndex(now: int): int
      requires FixedWindow? && windowMs >= 1
    {
      (now - offsetMs) / windowMs
    }

    /** First instant after window `index`. */
    function WindowEnd(index: int): int
      requires FixedWindow?
    {
      (index + 1) * windowMs + offsetMs
    }

    /** The same bucket configuration asking for another amount. */
    function Asking(amount: int): Limit { this.(requested := amount) }
  }

  /** The hash a script stores under a bucket key. */
  datatype Bucket =
    | RefillHash(tokens: real, updatedMs: int)
    | WindowHash(tokens: real, index: int, capacity: int, windowMs: int, offsetMs: int)

  /** A stored hash and the instant at which PEXPIRE lets the key go. */
  datatype Entry = Entry(hash: Bucket, expireAt: int)

  /** What a script reads from one bucket: balance, stamp to write back, key lifetime, clock lag. */
  datatype Observed = Observed(tokens: real, stamp: int, ttl: int, delay: int)

  datatype Reply =
    | Granted(at: int, remaining: seq<int>)
    | Denied(at: int, retryAfter: int, remaining: seq<int>)
    | Inspected(at: int, remaining: seq<int>)
    | Refunded(at: int, applied: bool, remaining: seq<int>)
    | Corrupt

  type Buckets = map<Key, Entry>

  function Lookup(b: Buckets, k: Key, now: int): Option<Bucket> {
    if k in b && now < b[k].expireAt then Some(b[k].hash) else None
  }

  /** The read half that the three scripts share; None is CORRUPT_COORDINATION_BUCKET. */
  function Observe(l: Limit, hash: Option<Bucket>, now: int): Option<Observed>
    requires l.Shape()
  {
    match l
    case FixedWindow(_, capacity, _, windowMs, offsetMs) =>
      var index := l.WindowIndex(now);
      var untilReset := Max(1, l.WindowEnd(index) - now);
      (match hash
       case None => Some(Observed(capacity as real, index, untilReset, 0))
       case Some(RefillHash(_, _)) => None
       case Some(WindowHash(tokens, stored, storedCapacity, storedWindow, storedOffset)) =>
         if stored > index then None
         else if stored == index then
           if storedCapacity == capacity && storedWindow == windowMs && storedOffset == offsetMs then
             Some(Observed(MinReal(capacity as real, MaxReal(0.0, tokens)), index, untilReset, 0))
           else
             Some(Observed(0.0, index, untilReset, 0))
         else Some(Observed(capacity as real, index, untilReset, 0)))
    case Refilling(_, capacity, _, _, _, idleTtlMs) =>
      (match hash
       case None => Some(Observed(capacity as real, now, idleTtlMs, 0))
       case Some(WindowHash(_, _, _, _, _)) => None
       case Some(RefillHash(tokens, updated)) =>
         if updated < 0 || updated > now + idleTtlMs then None
         else
           var held := MinReal(capacity as real, MaxReal(0.0, tokens));
           if now >= updated then
             Some(Observed(MinReal(capacity as real, held + l.Accrued(now - updated)), now, idleTtlMs, 0))
           else
             Some(Observed(held, updated, idleTtlMs + (updated - now), updated - now)))
  }

  /** A fixed window takes a refund only while it still holds this very configuration. */
  predicate CanRefund(l: Limit, hash: Option<Bucket>, now: int)
    requires l.Shape()
  {
    l.FixedWindow? ==>
      && hash.Some? && hash.value.WindowHash?
      && hash.value.index == l.WindowIndex(now)
      && hash.value.capacity == l.capacity && hash.value.windowMs == l.windowMs && hash.value.offsetMs == l.offsetMs
  }

  /** Milliseconds until this bucket alone could serve the request; 0 when it can now. */
  function Wait(l: Limit, o: Observed): int
    requires l.Shape()
  {
    if o.tokens >= l.requested as real then 0
    else if l.FixedWindow? then o.ttl
    else Max(1, o.delay + l.RefillMs(l.requested as real - o.tokens))
  }

  /** HSET followed by PEXPIRE. */
  function Written(l: Limit, o: Observed, tokens: real, now: int): Entry {
    if l.FixedWindow? then
      Entry(WindowHash(tokens, o.stamp, l.capacity, l.windowMs, l.offsetMs), now + o.ttl)
    else
      Entry(RefillHash(tokens, o.stamp), now + o.ttl)
  }

  predicate WellFormedArguments(limits: seq<Limit>) {
    && (forall i :: 0 <= i < |limits| ==> limits[i].Valid())
    && (forall i, j :: 0 <= i < j < |limits| ==> limits[i].key != limits[j].key)
  }

  /** Script arguments as preparation hands them over. */
  type Arguments = limits: seq<Limit> | WellFormedArguments(limits) witness []

  function ObserveAt(b: Buckets, l: Limit, now: int): Option<Observed>
    requires l.Shape()
  {
    Observe(l, Lookup(b, l.key, now), now)
  }

  predicate Readable(b: Buckets, limits: Arguments, now: int)
  {
    forall i :: 0 <= i < |limits| ==> ObserveAt(b, limits[i], now).Some?
  }

  function Balances(b: Buckets, limits: Arguments, now: int): (o: seq<Observed>)
    requires Readable(b, limits, now)
    ensures |o| == |limits|
    ensures forall i :: 0 <= i < |limits| ==> ObserveAt(b, limits[i], now) == Some(o[i])
  {
    seq(|limits|, i requires 0 <= i < |limits| => ObserveAt(b, limits[i], now).value)
  }

  /** The largest wait among the buckets observed so far. */
  function LongestWait(limits: Arguments, obs: seq<Observed>): (w: int)
    requires |obs| <= |limits|
    ensures w >= 0
  {
    if obs == [] then 0
    else
      var last := |obs| - 1;
      Max(LongestWait(limits, obs[..last]), Wait(limits[last], obs[last]))
  }

  /** The retry delay is the maximum of the buckets' waits, and zero exactly when every bucket can pay. */
  lemma {:induction false} LongestWaitIsMaximum(limits: Arguments, obs: seq<Observed>)
    requires |obs| <= |limits|
    ensures forall i :: 0 <= i < |obs| ==> Wait(limits[i], obs[i]) <= LongestWait(limits, obs)
    ensures LongestWait(limits, obs) == 0
            || exists i :: 0 <= i < |obs| && Wait(limits[i], obs[i]) == LongestWait(limits, obs)
  {
    if obs != [] {
      LongestWaitIsMaximum(limits, obs[..|obs| - 1]);
    }
  }

  /** Writes `entries[i]` under the i-th key, for the first `n` keys. */
  function StoreFirst(b: Buckets, limits: Arguments, entries: seq<Entry>, n: nat): Buckets
    requires |entries| == |limits| && n <= |limits|
  {
    if n == 0 then b else StoreFirst(b, limits, entries, n - 1)[limits[n - 1].key := entries[n - 1]]
  }

  function Reported(tokens: seq<real>): seq<int> {
    seq(|tokens|, i requires 0 <= i < |tokens| => MaxReal(0.0, tokens[i]).Floor)
  }

  function EntriesOf(limits: Arguments, obs: seq<Observed>, tokens: seq<real>, now: int): seq<Entry>
    requires |obs| == |limits| == |tokens|
  {
    seq(|limits|, i requires 0 <= i < |limits| => Written(limits[i], obs[i], tokens[i], now))
  }

  function AfterAcquire(limits: Arguments, obs: seq<Observed>, granted: bool): seq<real>
    requires |obs| == |limits|
  {
    seq(|limits|, i requires 0 <= i < |limits| =>
      if granted then obs[i].tokens - limits[i].requested as real else obs[i].tokens)
  }

  /** acquireRateScript: all buckets are charged or none is. */
  function Acquire(b: Buckets, now: int, limits: Arguments): (Buckets, Reply)
  {
    if !Readable(b, limits, now) then (b, Corrupt)
    else
      var obs := Balances(b, limits, now);
      var retry := LongestWait(limits, obs);
      var tokens := AfterAcquire(limits, obs, retry == 0);
      (StoreFirst(b, limits, EntriesOf(limits, obs, tokens, now), |limits|),
       if retry == 0 then Granted(now, Reported(tokens)) else Denied(now, retry, Reported(tokens)))
  }

  /** inspectRateScript after its first `n` iterations: it writes as it reads and stops at a corrupt bucket. */
  function InspectFirst(b: Buckets, now: int, limits: Arguments, n: nat): (r: (Buckets, Option<seq<int>>))
    requires n <= |limits|
  {
    if n == 0 then (b, Some([]))
    else
      var (before, report) := InspectFirst(b, now, limits, n - 1);
      if report.None? then (before, None)
      else
        var l := limits[n - 1];
        var o := ObserveAt(before, l, now);
        if o.None? then (before, None)
        else (before[l.key := Written(l, o.value, o.value.tokens, now)],
              Some(report.value + [MaxReal(0.0, o.value.tokens).Floor]))
  }

  function Inspect(b: Buckets, now: int, limits: Arguments): (Buckets, Reply)
  {
    var (after, report) := InspectFirst(b, now, limits, |limits|);
    (after, if report.None? then Corrupt else Inspected(now, report.value))
  }

  /** The balance after crediting `requested` to an observed bucket. */
  function Credited(l: Limit, o: Observed, accepts: bool): real {
    if accepts then MinReal(l.capacity as real, o.tokens + l.requested as real) else o.tokens
  }

  function AfterRefund(b: Buckets, now: int, limits: Arguments, obs: seq<Observed>, applied: bool): seq<real>
    requires |obs| == |limits|
  {
    seq(|limits|, i requires 0 <= i < |limits| =>
      Credited(limits[i], obs[i], applied && CanRefund(limits[i], Lookup(b, limits[i].key, now), now)))
  }

  type Markers = map<Reference, int>

  predicate Marked(markers: Markers, reference: Reference, now: int) {
    reference in markers && now < markers[reference]
  }

  /** refundRateScript: credits every bucket unless the reference's marker key is live. */
  function Refund(b: Buckets, markers: Markers, now: int, reference: Reference, markerTtl: int, limits: Arguments)
    : (Buckets, Markers, Reply)
  {
    if !Readable(b, limits, now) then (b, markers, Corrupt)
    else
      var obs := Balances(b, limits, now);
      var applied := !Marked(markers, reference, now);
      var tokens := AfterRefund(b, now, limits, obs, applied);
      (if applied then StoreFirst(b, limits, EntriesOf(limits, obs, tokens, now), |limits|) else b,
       if applied then markers[reference := now + markerTtl] else markers,
       Refunded(now, applied, Reported(tokens)))
  }

  /** The keyspace the scripts mutate. */
  class Valkey {
    var buckets: Buckets
    var markers: Markers

    constructor ()
      ensures buckets == map[] && markers == map[]
    {
      buckets, markers := map[], map[];
    }

    /** The reading loop of the acquire and refund scripts; None is the corrupt reply. */
    method ReadAll(now: int, limits: Arguments) returns (obs: Option<seq<Observed>>)
      ensures obs.Some? <==> Readable(buckets, limits, now)
      ensures obs.Some? ==> obs.value == Balances(buckets, limits, now)
    {
      var read: seq<Observed> := [];
      for i := 0 to |limits|
        invariant |read| == i
        invariant forall j :: 0 <= j < i ==> ObserveAt(buckets, limits[j], now) == Some(read[j])
      {
        var o := ObserveAt(buckets, limits[i], now);
        if o.None? {
          return None;
        }
        read := read + [o.value];
      }
      assert read == Balances(buckets, limits, now);
      obs := Some(read);
    }

    /** The writing loop: one HSET and PEXPIRE per bucket, and the reported floors. */
    method WriteAll(now: int, limits: Arguments, obs: seq<Observed>, tokens: seq<real>) returns (remaining: seq<int>)
      requires |obs| == |limits| == |tokens|
      modifies this`buckets
      ensures buckets == StoreFirst(old(buckets), limits, EntriesOf(limits, obs, tokens, now), |limits|)
      ensures remaining == Reported(tokens)
    {
      ghost var entries := EntriesOf(limits, obs, tokens, now);
      remaining := [];
      for i := 0 to |limits|
        invariant |remaining| == i
        invariant forall j :: 0 <= j < i ==> remaining[j] == MaxReal(0.0, tokens[j]).Floor
        invariant buckets == StoreFirst(old(buckets), limits, entries, i)
      {
        buckets := buckets[limits[i].key := Written(limits[i], obs[i], tokens[i], now)];
        remaining := remaining + [MaxReal(0.0, tokens[i]).Floor];
      }
    }

    static method RetryDelay(limits: Arguments, obs: seq<Observed>) returns (retry: int)
      requires |obs| == |limits|
      ensures retry == LongestWait(limits, obs)
    {
      retry := 0;
      for i := 0 to |limits|
        invariant retry == LongestWait(limits, obs[..i])
      {
        assert obs[..i + 1][..i] == obs[..i];
        retry := Max(retry, Wait(limits[i], obs[i]));
      }
      assert obs[..|limits|] == obs;
    }

    method AcquireRate(now: int, limits: Arguments) returns (reply: Reply)
      modifies this`buckets
      ensures buckets == Acquire(old(buckets), now, limits).0
      ensures reply == Acquire(old(buckets), now, limits).1
    {
      var read := ReadAll(now, limits);
      if read.None? {
        return Corrupt;
      }
      var obs := read.value;
      var retry := RetryDelay(limits, obs);
      var tokens := AfterAcquire(limits, obs, retry == 0);
      var remaining := WriteAll(now, limits, obs, tokens);
      reply := if retry == 0 then Granted(now, remaining) else Denied(now, retry, remaining);
    }

    method InspectRate(now: int, limits: Arguments) returns (reply: Reply)
      modifies this`buckets
      ensures (buckets, reply) == Inspect(old(buckets), now, limits)
    {
      var remaining: seq<int> := [];
      for i := 0 to |limits|
        invariant (buckets, Some(remaining)) == InspectFirst(old(buckets), now, limits, i)
      {
        var o := ObserveAt(buckets, limits[i], now);
        if o.None? {
          CorruptionEndsInspect(old(buckets), now, limits, i + 1);
          return Corrupt;
        }
        buckets := buckets[limits[i].key := Written(limits[i], o.value, o.value.tokens, now)];
        remaining := remaining + [MaxReal(0.0, o.value.tokens).Floor];
      }
      reply := Inspected(now, remaining);
    }

    method RefundRate(now: int, reference: Reference, markerTtl: int, limits: Arguments) returns (reply: Reply)
      modifies this
      ensures buckets == Refund(old(buckets), old(markers), now, reference, markerTtl, limits).0
      ensures markers == Refund(old(buckets), old(markers), now, reference, markerTtl, limits).1
      ensures reply == Refund(old(buckets), old(markers), now, reference, markerTtl, limits).2
    {
      var read := ReadAll(now, limits);
      if read.None? {
        return Corrupt;
      }
      var obs := read.value;
      var applied := !Marked(markers, reference, now);
      var tokens := AfterRefund(buckets, now, limits, obs, applied);
      var remaining := Reported(tokens);
      if applied {
        markers := markers[reference := now + markerTtl];
        remaining := WriteAll(now, limits, obs, tokens);
      }
      reply := Refunded(now, applied, remaining);
    }
  }

  /** Once an iteration of inspect hits a corrupt bucket, later iterations change nothing. */
  lemma {:induction false} CorruptionEndsInspect(b: Buckets, now: int, limits: Arguments, n: nat)
    requires n <= |limits|
    requires InspectFirst(b, now, limits, n).1.None?
    ensures InspectFirst(b, now, limits, |limits|) == (InspectFirst(b, now, limits, n).0, None)
    decreases |limits| - n
  {
    if n < |limits| {
      CorruptionEndsInspect(b, now, limits, n + 1);
    }
  }
}
