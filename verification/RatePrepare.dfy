/** Validation and unit conversion of rate limits before a script is called. */
module RatePrepare {
  import opened Common
  import opened RateScript

  const NANOS_PER_MS := 1_000_000
  const MAXIMUM_BUCKET_TOKENS := 1_000_000_000_000
  const MAXIMUM_REFILL_INTERVAL := 24 * 3600 * 1000 * NANOS_PER_MS
  const MAXIMUM_FIXED_WINDOW := 31 * 24 * 3600 * 1000 * NANOS_PER_MS
  const MAXIMUM_FULL_REFILL_MS := 30 * 24 * 3600 * 1000
  const MAXIMUM_RATE_DIMENSIONS := 16

  const MAXIMUM_SUBJECT_BYTES := 512

  datatype Dimension = Dimension(scope: string, subject: string)

  /** A caller's limit; durations in nanoseconds. */
  datatype BucketLimit = BucketLimit(
    dimension: Dimension, metric: string, capacity: int, refill: int, interval: int, requested: int, window: int,
    offset: int)

  // ---------------------------------------------------------------------------------------------
  // Dimensions, metrics and keys
  // ---------------------------------------------------------------------------------------------

  /** unicode.IsSpace. */
  predicate Space(c: char) {
    || '\t' <= c <= '\r' || c == ' ' || c == '\U{85}' || c == '\U{A0}' || c == '\U{1680}'
    || '\U{2000}' <= c <= '\U{200A}'
    || c == '\U{2028}' || c == '\U{2029}' || c == '\U{202F}' || c == '\U{205F}' || c == '\U{3000}'
  }

  /** Length in UTF-8. */
  function ByteLength(s: string): nat {
    if s == [] then 0
    else
      (if s[0] < '\U{80}' then 1 else if s[0] < '\U{800}' then 2 else if s[0] < '\U{10000}' then 3 else 4)
        + ByteLength(s[1..])
  }

  const SCOPES := ["resource_pool", "model", "provider", "credential", "shared_upstream"]
  const METRICS := ["requests", "tokens", "daily_tokens"]

  predicate ValidDimension(d: Dimension) {
    if d.scope == "global" then d.subject == ""
    else
      && d.scope in SCOPES
      && (exists i :: 0 <= i < |d.subject| && !Space(d.subject[i]))
      && ByteLength(d.subject) <= MAXIMUM_SUBJECT_BYTES
  }

  /** An injective name for the digest of metric, scope and subject. */
  function RateKey(q: BucketLimit): Key {
    q.metric + ":" + q.dimension.scope + ":" + q.dimension.subject
  }

  /** Words without a colon are told apart by the first colon behind them. */
  lemma {:induction false} FirstColon(a: string, x: string, b: string, y: string)
    requires ':' !in a && ':' !in b && a + ":" + x == b + ":" + y
    ensures a == b && x == y
    decreases |a|
  {
    var left, right := a + ":" + x, b + ":" + y;
    assert (a == [] ==> left[0] == ':') && (b == [] ==> right[0] == ':');
    if a == [] || b == [] {
      assert a == [] && b == [];
      assert x == left[1..] && y == right[1..];
    } else {
      assert left[0] == a[0] && right[0] == b[0];
      assert left[1..] == a[1..] + ":" + x && right[1..] == b[1..] + ":" + y;
      FirstColon(a[1..], x, b[1..], y);
      assert a == [a[0]] + a[1..] && b == [b[0]] + b[1..];
    }
  }

  lemma MetricHasNoColon(metric: string)
    requires metric in METRICS
    ensures ':' !in metric
  {
  }

  lemma ScopeHasNoColon(scope: string)
    requires scope == "global" || scope in SCOPES
    ensures ':' !in scope
  {
  }

  lemma NoColon(q: BucketLimit)
    requires q.metric in METRICS && ValidDimension(q.dimension)
    ensures ':' !in q.metric && ':' !in q.dimension.scope
  {
    hide ByteLength, Space;
    MetricHasNoColon(q.metric);
    ScopeHasNoColon(q.dimension.scope);
  }

  /** Equal keys mean equal dimension and metric. */
  lemma KeysAreInjective(q: BucketLimit, r: BucketLimit)
    requires q.metric in METRICS && ValidDimension(q.dimension) && r.metric in METRICS && ValidDimension(r.dimension)
    ensures RateKey(q) == RateKey(r) <==> q.dimension == r.dimension && q.metric == r.metric
  {
    hide ValidDimension;
    NoColon(q);
    NoColon(r);
    if RateKey(q) == RateKey(r) {
      var x, y := q.dimension.scope + ":" + q.dimension.subject, r.dimension.scope + ":" + r.dimension.subject;
      assert RateKey(q) == q.metric + ":" + x && RateKey(r) == r.metric + ":" + y;
      FirstColon(q.metric, x, r.metric, y);
      FirstColon(q.dimension.scope, q.dimension.subject, r.dimension.scope, r.dimension.subject);
    }
  }

  // ---------------------------------------------------------------------------------------------
  // Bounds
  // ---------------------------------------------------------------------------------------------

  function Milliseconds(duration: int): int
    requires duration >= 0
  {
    duration / NANOS_PER_MS
  }

  function FullRefillMs(q: BucketLimit): int
    requires q.refill >= 1 && q.interval >= 0
  {
    Ceil(q.capacity as real * Milliseconds(q.interval) as real / q.refill as real)
  }

  predicate Acceptable(q: BucketLimit) {
    && ValidDimension(q.dimension) && q.metric in METRICS
    && 1 <= q.capacity <= MAXIMUM_BUCKET_TOKENS && 1 <= q.requested <= q.capacity
    && if q.window > 0 || q.offset > 0 then
         && q.refill == 0 && q.interval == 0
         && NANOS_PER_MS <= q.window <= MAXIMUM_FIXED_WINDOW && 0 <= q.offset < q.window
       else
         && 1 <= q.refill <= MAXIMUM_BUCKET_TOKENS && NANOS_PER_MS <= q.interval <= MAXIMUM_REFILL_INTERVAL
         && FullRefillMs(q) <= MAXIMUM_FULL_REFILL_MS
  }

  /** The script arguments of an acceptable limit, with the idle lifetime of a refilling bucket. */
  function Argument(q: BucketLimit): Limit
    requires Acceptable(q)
  {
    if q.window > 0 || q.offset > 0 then
      FixedWindow(RateKey(q), q.capacity, q.requested, Milliseconds(q.window), Milliseconds(q.offset))
    else
      Refilling(RateKey(q), q.capacity, q.requested, q.refill, Milliseconds(q.interval),
                Max(Milliseconds(q.interval), 2 * FullRefillMs(q)))
  }

  /** An idle time of at least the full refill time refills the whole capacity. */
  lemma IdleCovers(capacity: real, i: real, r: real, full: real, idle: real)
    requires i > 0.0 && r > 0.0 && capacity * i / r <= full <= idle
    ensures idle * (r / i) >= capacity
  {
    var x, rate := capacity * i / r, r / i;
    assert x * r == capacity * i;
    assert rate * i == r;
    assert x * rate * i == capacity * i;
    assert x * rate == capacity;
    assert rate > 0.0;
    assert idle * rate >= x * rate;
  }

  /** Preparation establishes what the run-level laws need, above all that an idle key has refilled. */
  lemma ArgumentIsValid(q: BucketLimit)
    requires Acceptable(q)
    ensures Argument(q).Valid()
    ensures Argument(q).key == RateKey(q) && Argument(q).capacity == q.capacity && Argument(q).requested == q.requested
  {
    hide FullRefillMs;
    var l := Argument(q);
    if l.Refilling? {
      FullRefillIsCeil(q);
      IdleCovers(q.capacity as real, l.intervalMs as real, q.refill as real, FullRefillMs(q) as real,
                 l.idleTtlMs as real);
    }
  }

  lemma FullRefillIsCeil(q: BucketLimit)
    requires q.refill >= 1 && q.interval >= 0 && q.capacity >= 1
    ensures q.capacity as real * Milliseconds(q.interval) as real / q.refill as real <= FullRefillMs(q) as real
    ensures FullRefillMs(q) >= 0
  {
    var x := q.capacity as real * Milliseconds(q.interval) as real;
    assert x >= 0.0;
    assert x / q.refill as real >= 0.0;
  }

  /** No two limits share dimension and metric. */
  ghost predicate Unshared(limits: seq<BucketLimit>) {
    forall i, j :: 0 <= i < j < |limits| ==>
      limits[i].dimension != limits[j].dimension || limits[i].metric != limits[j].metric
  }

  /** prepareRateLimits: None stands for ErrInvalidInput. */
  method PrepareRateLimits(limits: seq<BucketLimit>) returns (result: Option<Arguments>)
    ensures result.Some? <==>
              && 1 <= |limits| <= MAXIMUM_RATE_DIMENSIONS
              && (forall i :: 0 <= i < |limits| ==> Acceptable(limits[i]))
              && Unshared(limits)
    ensures result.Some? ==>
              |result.value| == |limits| && forall i :: 0 <= i < |limits| ==> result.value[i] == Argument(limits[i])
  {
    hide ValidDimension, FullRefillMs, RateKey, Argument, Limit.Valid;
    if |limits| == 0 || |limits| > MAXIMUM_RATE_DIMENSIONS {
      return None;
    }
    var arguments: seq<Limit> := [];
    var seen: set<Key> := {};
    for i := 0 to |limits|
      invariant |arguments| == i
      invariant forall j :: 0 <= j < i ==> Acceptable(limits[j]) && Prepared(limits[j], arguments[j])
      invariant forall j, k :: 0 <= j < k < i ==> RateKey(limits[j]) != RateKey(limits[k])
      invariant forall k :: k in seen <==> exists j :: 0 <= j < i && RateKey(limits[j]) == k
    {
      if !Acceptable(limits[i]) {
        return None;
      }
      var key := RateKey(limits[i]);
      if key in seen {
        ghost var j :| 0 <= j < i && RateKey(limits[j]) == key;
        KeysAreInjective(limits[j], limits[i]);
        return None;
      }
      ArgumentIsValid(limits[i]);
      seen := seen + {key};
      arguments := arguments + [Argument(limits[i])];
    }
    forall i, j | 0 <= i < j < |limits|
      ensures limits[i].dimension != limits[j].dimension || limits[i].metric != limits[j].metric
    {
      KeysAreInjective(limits[i], limits[j]);
    }
    result := Some(arguments);
  }

  ghost predicate Prepared(q: BucketLimit, l: Limit) {
    Acceptable(q) && l == Argument(q) && l.Valid() && l.key == RateKey(q)
  }
}
