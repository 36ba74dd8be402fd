/** `java.util.concurrent.TimeUnit.toMillis` on Java `long` values: a unit
    finer than a millisecond divides, rounding toward zero; a coarser unit
    multiplies and saturates at the ends of the `long` range instead of
    wrapping around. */
module TimeUnits {

  const LONG_MAX: int := 0x7fff_ffff_ffff_ffff
  const LONG_MIN: int := -0x8000_0000_0000_0000

  /** A value a Java `long` can hold. */
  predicate IsLong(x: int)
  {
    LONG_MIN <= x <= LONG_MAX
  }

  datatype TimeUnit = NANOSECONDS | MICROSECONDS | MILLISECONDS | SECONDS | MINUTES | HOURS | DAYS

  /** Java's `/` on a non-negative divisor: the quotient rounded toward
      zero (Dafny's own `/` rounds toward minus infinity for negative
      dividends). */
  function TruncDiv(a: int, k: int): int
    requires k > 0
  {
    if a >= 0 then a / k else -((-a) / k)
  }

  /** `d * m`, or `Long.MAX_VALUE` / `Long.MIN_VALUE` when the test against
      `Long.MAX_VALUE / m` says the product would leave the `long` range. */
  function Saturate(d: int, m: int): int
    requires m > 0
  {
    var over := LONG_MAX / m;
    if d > over then LONG_MAX else if d < -over then LONG_MIN else d * m
  }

  /** `unit.toMillis(d)`. */
  function ToMillis(d: int, u: TimeUnit): (r: int)
    ensures IsLong(d) ==> IsLong(r)
  {
    match u
    case NANOSECONDS => TruncDiv(d, 1_000_000)
    case MICROSECONDS => TruncDiv(d, 1000)
    case MILLISECONDS => d
    case SECONDS => Saturate(d, 1000)
    case MINUTES => Saturate(d, 60_000)
    case HOURS => Saturate(d, 3_600_000)
    case DAYS => Saturate(d, 86_400_000)
  }

  /** The length of one unit in nanoseconds. */
  function NanosPer(u: TimeUnit): nat
  {
    match u
    case NANOSECONDS => 1
    case MICROSECONDS => 1000
    case MILLISECONDS => 1_000_000
    case SECONDS => 1_000_000_000
    case MINUTES => 60_000_000_000
    case HOURS => 3_600_000_000_000
    case DAYS => 86_400_000_000_000
  }

  /** The nearest `long` to `x`. */
  function Clamp(x: int): (r: int)
    ensures IsLong(r)
  {
    if x > LONG_MAX then LONG_MAX else if x < LONG_MIN then LONG_MIN else x
  }

  /** The conversion is the exact length of the duration in milliseconds,
      rounded toward zero and then clamped to the `long` range. */
  lemma ToMillisIsClampedExact(d: int, u: TimeUnit)
    requires IsLong(d)
    ensures ToMillis(d, u) == Clamp(TruncDiv(d * NanosPer(u), 1_000_000))
  {
    match u
    case NANOSECONDS =>
    case MICROSECONDS =>
      if d >= 0 {
        assert (d * 1000) / 1_000_000 == d / 1000;
      } else {
        assert (-(d * 1000)) / 1_000_000 == (-d) / 1000;
      }
    case MILLISECONDS =>
      assert TruncDiv(d * 1_000_000, 1_000_000) == d;
    case SECONDS =>
      assert TruncDiv(d * 1_000_000_000, 1_000_000) == d * 1000;
    case MINUTES =>
      assert TruncDiv(d * 60_000_000_000, 1_000_000) == d * 60_000;
    case HOURS =>
      assert TruncDiv(d * 3_600_000_000_000, 1_000_000) == d * 3_600_000;
    case DAYS =>
      assert TruncDiv(d * 86_400_000_000_000, 1_000_000) == d * 86_400_000;
  }

  /** A longer duration never converts to fewer milliseconds. */
  lemma ToMillisMonotonic(d1: int, d2: int, u: TimeUnit)
    requires d1 <= d2
    ensures ToMillis(d1, u) <= ToMillis(d2, u)
  {
    match u
    case NANOSECONDS =>
    case MICROSECONDS =>
    case MILLISECONDS =>
    case SECONDS =>
    case MINUTES =>
    case HOURS =>
    case DAYS =>
  }

  /** The 30-second default lease is 30000 milliseconds. */
  lemma DefaultLeaseMillis()
    ensures ToMillis(30, SECONDS) == 30_000
  {
    assert LONG_MAX / 1000 == 9_223_372_036_854_775;
  }
}
