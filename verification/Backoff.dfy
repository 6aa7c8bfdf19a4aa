/** Fixed-point exponential backoff with jitter, in 64-bit arithmetic. */
module Backoff {
  import opened Common

  newtype int64 = x: int | -0x8000_0000_0000_0000 <= x < 0x8000_0000_0000_0000

  const MAX_INT64: int64 := 0x7fff_ffff_ffff_ffff

  datatype Config = Config(initial: int64, maximum: int64, numerator: int64, denominator: int64, jitterPermille: int64)

  datatype Result<T> = Ok(value: T) | Err(error: Error)

  datatype Error = InvalidConfiguration | RandomSource | InvalidInput

  /** Evaluated left to right, so the product is formed only for a denominator of at most 1000. */
  predicate Valid(c: Config, hasRandom: bool) {
    && !(c.initial <= 0 || c.maximum < c.initial)
    && !(c.denominator <= 0 || c.denominator > 1000 || c.numerator < c.denominator || c.numerator > 1000
         || c.numerator > c.denominator * 100)
    && !(c.jitterPermille < 0 || c.jitterPermille > 1000)
    && !(c.maximum > MAX_INT64 / 2000)
    && !(c.jitterPermille > 0 && !hasRandom)
  }

  // ---------------------------------------------------------------------------------------------
  // The unbounded recursion
  // ---------------------------------------------------------------------------------------------

  function CeilDiv(a: int, b: int): (q: int)
    requires a >= 0 && b > 0
    ensures b * (q - 1) < a <= b * q
  {
    DivBounds(a + b - 1, b);
    (a + b - 1) / b
  }

  lemma DivBounds(x: int, b: int)
    requires b > 0
    ensures b * (x / b) <= x < b * (x / b + 1)
  {
  }

  /** Delay before jitter of retry number `ordinal`, over unbounded integers. */
  function Base(c: Config, ordinal: int): (base: int)
    requires Valid(c, true)
    ensures c.initial as int <= base <= c.maximum as int
  {
    if ordinal <= 1 then c.initial as int
    else
      var previous := Base(c, ordinal - 1);
      Grows(previous, c);
      Min(c.maximum as int, CeilDiv(previous * c.numerator as int, c.denominator as int))
  }

  /** A multiplier of at least one never shrinks the base. */
  lemma Grows(base: int, c: Config)
    requires base > 0 && Valid(c, true)
    ensures base * c.numerator as int >= 0
    ensures CeilDiv(base * c.numerator as int, c.denominator as int) >= base
  {
    var n, d := c.numerator as int, c.denominator as int;
    ProductOrder(base, n, d);
    var q := CeilDiv(base * n, d);
    if q < base {
      ProductOrder(d, base - 1, q);
    }
  }

  lemma ProductOrder(k: int, a: int, b: int)
    requires k > 0 && a >= b
    ensures k * a >= k * b
  {
  }

  /** The base never decreases with the ordinal. */
  lemma {:induction false} BaseIsMonotone(c: Config, i: int, j: int)
    requires Valid(c, true) && i <= j
    ensures Base(c, i) <= Base(c, j)
    decreases j - i
  {
    if i < j && j > 1 {
      BaseIsMonotone(c, i, j - 1);
      Grows(Base(c, j - 1), c);
    }
  }

  /**
   * Each base is the least integer that is at least the previous one times the multiplier, or Maximum if that is
   * larger; the first is Initial. This determines every base.
   */
  lemma BaseIsLeastMultiple(c: Config, ordinal: int, next: int)
    requires Valid(c, true) && ordinal >= 1
    ensures Base(c, 1) == c.initial as int
    ensures var n, d, m, b := c.numerator as int, c.denominator as int, c.maximum as int, Base(c, ordinal);
            next == Base(c, ordinal + 1) <==>
              next <= m && d * (next - 1) < b * n && (next < m ==> b * n <= d * next)
  {
    var n, d, m, b := c.numerator as int, c.denominator as int, c.maximum as int, Base(c, ordinal);
    Grows(b, c);
    LeastMultiple(b * n, d, m, next);
  }

  lemma LeastMultiple(product: int, d: int, m: int, next: int)
    requires product >= 0 && d > 0
    ensures next == Min(m, CeilDiv(product, d)) <==>
              next <= m && d * (next - 1) < product && (next < m ==> product <= d * next)
  {
    var q := CeilDiv(product, d);
    if q >= next {
      ProductOrder(d, q - 1, next - 1);
    }
    if next > q {
      ProductOrder(d, next - 1, q);
    }
    if q > next {
      ProductOrder(d, q - 1, next);
    }
  }

  function Pow(b: int, e: nat): int { if e == 0 then 1 else b * Pow(b, e - 1) }

  /** Until it is capped, the base grows at least geometrically: Initial * (num/den)^(ordinal - 1). */
  lemma {:induction false} BaseIsGeometric(c: Config, ordinal: nat)
    requires Valid(c, true) && ordinal >= 1
    ensures Base(c, ordinal) == c.maximum as int
            || Base(c, ordinal) * Pow(c.denominator as int, ordinal - 1)
               >= c.initial as int * Pow(c.numerator as int, ordinal - 1)
  {
    if ordinal > 1 {
      BaseIsGeometric(c, ordinal - 1);
      var n, d, b := c.numerator as int, c.denominator as int, Base(c, ordinal - 1);
      Grows(b, c);
      var q := CeilDiv(b * n, d);
      if Base(c, ordinal) != c.maximum as int {
        PowPositive(d, ordinal - 2);
        GeometricStep(b, q, n, d, Pow(d, ordinal - 2), Pow(n, ordinal - 2), c.initial as int);
      }
    }
  }

  lemma PowPositive(b: int, e: nat)
    requires b > 0
    ensures Pow(b, e) > 0
  {
  }

  lemma GeometricStep(b: int, q: int, n: int, d: int, pd: int, pn: int, initial: int)
    requires b * n <= d * q && pd > 0 && n > 0 && b * pd >= initial * pn
    ensures q * (d * pd) >= initial * (n * pn)
  {
    ProductOrder(pd, d * q, b * n);
    ProductOrder(n, b * pd, initial * pn);
    assert q * (d * pd) == pd * (d * q) && pd * (b * n) == n * (b * pd) && n * (initial * pn) == initial * (n * pn);
  }

  // ---------------------------------------------------------------------------------------------
  // The guarded loop
  // ---------------------------------------------------------------------------------------------

  /** Above the guard the next base is capped; below it the product stays in range. */
  lemma GuardIsExact(base: int, m: int, n: int, d: int)
    requires base > 0 && m > 0 && n >= d > 0
    ensures m * d >= 0 && base * n >= 0
    ensures base > m * d / n ==> CeilDiv(base * n, d) > m
    ensures base <= m * d / n ==> base * n <= m * d
  {
    ProductOrder(d, m, 0);
    ProductOrder(n, base, 0);
    var g := m * d / n;
    DivBounds(m * d, n);
    var q := CeilDiv(base * n, d);
    if base > g {
      ProductOrder(n, base, g + 1);
      assert d * m < base * n <= d * q;
      if q <= m {
        ProductOrder(d, m, q);
      }
    } else {
      ProductOrder(n, g, base);
    }
  }

  lemma InRange(m: int, d: int, j: int)
    requires 0 < m <= MAX_INT64 as int / 2000 && 0 < d <= 1000 && 0 <= j <= 1000
    ensures 0 < m * d <= MAX_INT64 as int / 2 && 0 <= m * j <= MAX_INT64 as int / 2
  {
    ProductOrder(m, 1000, d);
    ProductOrder(m, d, 1);
    ProductOrder(m, 1000, j);
    ProductOrder(m, j, 0);
  }

  lemma BaseIsCapped(c: Config, i: int, j: int)
    requires Valid(c, true) && i <= j && Base(c, i) == c.maximum as int
    ensures Base(c, j) == c.maximum as int
  {
    BaseIsMonotone(c, i, j);
  }

  /** One guarded multiplication; every intermediate value fits in 64 bits. */
  method NextBase(c: Config, base: int64, ghost ordinal: int) returns (next: int64)
    requires Valid(c, true) && ordinal >= 1 && base as int == Base(c, ordinal)
    ensures next as int == Base(c, ordinal + 1)
  {
    ghost var m, n, d := c.maximum as int, c.numerator as int, c.denominator as int;
    InRange(m, d, 0);
    GuardIsExact(base as int, m, n, d);
    if base > c.maximum * c.denominator / c.numerator {
      return c.maximum;
    }
    next := (base * c.numerator + c.denominator - 1) / c.denominator;
    if next > c.maximum {
      next := c.maximum;
    }
  }

  /** The loop over the retries so far, with its early exits. */
  method BaseDelay(c: Config, retryOrdinal: int) returns (base: int64)
    requires Valid(c, true)
    ensures base as int == Base(c, retryOrdinal)
  {
    base := c.initial;
    var ordinal := 1;
    while ordinal < retryOrdinal && base < c.maximum
      invariant ordinal >= 1 && base as int == Base(c, ordinal) && ordinal <= Max(1, retryOrdinal)
      decreases retryOrdinal - ordinal
    {
      base := NextBase(c, base, ordinal);
      ordinal := ordinal + 1;
    }
    if ordinal < retryOrdinal {
      BaseIsCapped(c, ordinal, retryOrdinal);
    }
  }

  /** Share of the base that jitter may move it by. */
  function Spread(base: int, permille: int): (s: int)
    requires base > 0 && 0 <= permille <= 1000
    ensures 0 <= s <= base && 1000 * s <= base * permille < 1000 * (s + 1)
  {
    ProductOrder(base, 1000, permille);
    ProductOrder(base, permille, 0);
    base * permille / 1000
  }

  /** Lowest and highest jittered delay. */
  function Lowest(c: Config, ordinal: int): (low: int)
    requires Valid(c, true)
    ensures 0 <= low <= Base(c, ordinal)
  {
    Base(c, ordinal) - Spread(Base(c, ordinal), c.jitterPermille as int)
  }

  function Highest(c: Config, ordinal: int): (high: int)
    requires Valid(c, true)
    ensures Base(c, ordinal) <= high <= c.maximum as int
  {
    Min(Base(c, ordinal) + Spread(Base(c, ordinal), c.jitterPermille as int), c.maximum as int)
  }

  /** The delay over unbounded integers; a random source that leaves the requested range is an error. */
  function Delay(c: Config, ordinal: int, random: int64 -> int64): Result<int>
    requires Valid(c, true)
  {
    if c.jitterPermille == 0 then Ok(Base(c, ordinal))
    else
      var width := Highest(c, ordinal) - Lowest(c, ordinal) + 1;
      var offset := random(width as int64) as int;
      if offset < 0 || offset >= width then Err(RandomSource) else Ok(Lowest(c, ordinal) + offset)
  }

  /** The jittered delay lies between base - spread and min(base + spread, Maximum). */
  lemma DelayInRange(c: Config, ordinal: int, random: int64 -> int64)
    requires Valid(c, true) && Delay(c, ordinal, random).Ok?
    ensures Lowest(c, ordinal) <= Delay(c, ordinal, random).value <= Highest(c, ordinal)
  {
    hide Base, Spread;
  }

  /** A source that always answers `offset`. */
  function Always(offset: int64): int64 -> int64 { (width: int64) => offset }

  /** Every delay in that range is reached by some draw. */
  lemma EveryDelayIsReached(c: Config, ordinal: int, delay: int)
    requires Valid(c, true) && c.jitterPermille > 0 && Lowest(c, ordinal) <= delay <= Highest(c, ordinal)
    ensures exists offset: int64 :: Delay(c, ordinal, Always(offset)) == Ok(delay)
  {
    hide Base, Spread;
    var offset := (delay - Lowest(c, ordinal)) as int64;
    assert Delay(c, ordinal, Always(offset)) == Ok(delay);
  }

  /** The same delay computed in 64-bit arithmetic; no intermediate value overflows. */
  method BackoffDelay(c: Config, retryOrdinal: int, random: int64 -> int64) returns (r: Result<int64>)
    requires Valid(c, true)
    ensures var delay := Delay(c, retryOrdinal, random);
            if delay.Ok? then r.Ok? && r.value as int == delay.value else r == Err(delay.error)
  {
    var base := BaseDelay(c, retryOrdinal);
    if c.jitterPermille == 0 {
      return Ok(base);
    }
    InRange(base as int, 1, c.jitterPermille as int);
    var spread := base * c.jitterPermille / 1000;
    assert spread as int == Spread(base as int, c.jitterPermille as int);
    var lower := base - spread;
    var upper := base + spread;
    if upper > c.maximum {
      upper := c.maximum;
    }
    var width := upper - lower + 1;
    var offset := random(width);
    if offset < 0 || offset >= width {
      return Err(RandomSource);
    }
    r := Ok(lower + offset);
  }
}
