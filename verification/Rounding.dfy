/**
 * seven-core: recanonicalisation under floating-point error, for every
 * arithmetic with a small relative error and for binary64 itself.
 */
module Rounding {
  import opened Basics
  import opened Core
  import opened Powers
  import opened Attitude

  /** Division and multiplication, of which only the relative error on normal results is known. */
  datatype FloatArithmetic = FloatArithmetic(div: (real, real) -> real, mul: (real, real) -> real)

  /** 2^-53, the unit roundoff of binary64. */
  const UNIT_ROUNDOFF: real := 1.0 / 9_007_199_254_740_992.0

  ghost const MAX_BINADE: real := Doubled(1.0, 1023)

  /** Zero, or a magnitude in the range of the normal doubles: neither underflow nor overflow is in sight. */
  ghost predicate InNormalRange(x: real) {
    x == 0.0 || MIN_POSITIVE <= Abs(x) <= MAX_BINADE
  }

  ghost predicate RoundsWithin(computed: real, exact: real) {
    Abs(computed - exact) <= Abs(exact) * UNIT_ROUNDOFF
  }

  ghost predicate DividesWithin(f: FloatArithmetic, a: real, b: real) {
    b != 0.0 && InNormalRange(a / b) ==> RoundsWithin(f.div(a, b), a / b)
  }

  ghost predicate MultipliesWithin(f: FloatArithmetic, a: real, b: real) {
    InNormalRange(a * b) ==> RoundsWithin(f.mul(a, b), a * b)
  }

  ghost predicate AccurateArithmetic(f: FloatArithmetic) {
    && (forall a: real, b: real :: DividesWithin(f, a, b))
    && (forall a: real, b: real :: MultipliesWithin(f, a, b))
  }

  // ------------------------------------------------------------------
  // Recanonicalisation
  // ------------------------------------------------------------------

  /** Dequantise and quantise again, with rounding in both steps. */
  function Requantize(f: FloatArithmetic, k: i64): i64 {
    QuantizeProduct(f.mul(f.div(k as real, QUATERNION_SCALE as real), QUATERNION_SCALE as real))
  }

  function Recanonicalize(f: FloatArithmetic, s: CanonicalState): CanonicalState {
    var q := s.attitude;
    s.(attitude := CanonicalQuaternion(Requantize(f, q.w), Requantize(f, q.x), Requantize(f, q.y), Requantize(f, q.z)))
  }

  /**
   * For any arithmetic and any state: the attitude is the nearest integers to
   * the computed products, and everything else is kept.
   */
  lemma RecanonicalizeRoundsProducts(f: FloatArithmetic, s: CanonicalState)
    ensures var t := Recanonicalize(f, s);
            && t.positionMm == s.positionMm && t.velocityMms == s.velocityMms && t.observedAtNanos == s.observedAtNanos
            && QuantizedFrom(t.attitude.w, f.mul(f.div(s.attitude.w as real, 1_000_000.0), 1_000_000.0))
            && QuantizedFrom(t.attitude.x, f.mul(f.div(s.attitude.x as real, 1_000_000.0), 1_000_000.0))
            && QuantizedFrom(t.attitude.y, f.mul(f.div(s.attitude.y as real, 1_000_000.0), 1_000_000.0))
            && QuantizedFrom(t.attitude.z, f.mul(f.div(s.attitude.z as real, 1_000_000.0), 1_000_000.0))
  {
    SaturatedIsNearest(f.mul(f.div(s.attitude.w as real, 1_000_000.0), 1_000_000.0));
    SaturatedIsNearest(f.mul(f.div(s.attitude.x as real, 1_000_000.0), 1_000_000.0));
    SaturatedIsNearest(f.mul(f.div(s.attitude.y as real, 1_000_000.0), 1_000_000.0));
    SaturatedIsNearest(f.mul(f.div(s.attitude.z as real, 1_000_000.0), 1_000_000.0));
  }

  const EXACT_RANGE: int := 0x4_0000_0000_0000

  /** Zero and everything from 10^-6 to 2^50 + 1 is in the normal range. */
  lemma MidRangeIsNormal(x: real)
    requires x == 0.0 || 0.000_001 <= Abs(x) <= 1_125_899_906_842_625.0
    ensures InNormalRange(x)
  {
    if x != 0.0 {
      HalvedBy52(1.0);
      HalvedSum(1.0, 52, 970);
      HalvedPositive(Halved(1.0, 52), 970);
      DoubledBy52(1.0);
      DoubledSum(1.0, 52, 971);
      DoubledPositive(Doubled(1.0, 52), 971);
    }
  }

  lemma RequantizeIsIdentity(f: FloatArithmetic, k: i64)
    requires AccurateArithmetic(f) && -EXACT_RANGE <= k <= EXACT_RANGE
    ensures Requantize(f, k) == k
  {
    var scale := QUATERNION_SCALE as real;
    var quotient := f.div(k as real, scale);
    var product := f.mul(quotient, scale);
    assert DividesWithin(f, k as real, scale) && MultipliesWithin(f, quotient, scale);
    TwoRoundings(k as real, quotient, product);
    RoundsToNearest(product, k);
  }

  lemma TwoRoundings(k: real, quotient: real, product: real)
    requires k == 0.0 || 1.0 <= Abs(k) <= 1_125_899_906_842_624.0
    requires InNormalRange(k / 1_000_000.0) ==> RoundsWithin(quotient, k / 1_000_000.0)
    requires InNormalRange(quotient * 1_000_000.0) ==> RoundsWithin(product, quotient * 1_000_000.0)
    ensures Abs(product - k) < 0.5
  {
    MidRangeIsNormal(k / 1_000_000.0);
    FirstRounding(k, quotient);
    MidRangeIsNormal(quotient * 1_000_000.0);
    SecondRounding(k, quotient * 1_000_000.0, product);
  }

  lemma FirstRounding(k: real, quotient: real)
    requires k == 0.0 || 1.0 <= Abs(k) <= 1_125_899_906_842_624.0
    requires RoundsWithin(quotient, k / 1_000_000.0)
    ensures Abs(quotient * 1_000_000.0 - k) <= 0.125
    ensures k == 0.0 ==> quotient == 0.0
  {
    assert Abs(quotient - k / 1_000_000.0) <= Abs(k) / 1_000_000.0 * UNIT_ROUNDOFF;
  }

  lemma SecondRounding(k: real, scaled: real, product: real)
    requires Abs(k) <= 1_125_899_906_842_624.0 && Abs(scaled - k) <= 0.125 && RoundsWithin(product, scaled)
    ensures Abs(product - k) < 0.5
  {
    assert Abs(scaled) * UNIT_ROUNDOFF <= 0.25;
  }

  /** Recanonicalising is the identity on every state whose attitude components are at most 2^50 in magnitude. */
  lemma RecanonicalizeIsIdentity(f: FloatArithmetic, s: CanonicalState)
    requires AccurateArithmetic(f) && ComponentsWithin(s.attitude, EXACT_RANGE)
    ensures Recanonicalize(f, s) == s
  {
    RequantizeIsIdentity(f, s.attitude.w);
    RequantizeIsIdentity(f, s.attitude.x);
    RequantizeIsIdentity(f, s.attitude.y);
    RequantizeIsIdentity(f, s.attitude.z);
  }

  /**
   * Canonicalisation is idempotent on all that the pipeline accepts, whatever
   * the rounding errors of the second pass.
   */
  lemma CanonicalizationIsIdempotent(f: FloatArithmetic, raw: PhysicalObservation, norm: real)
    requires AccurateArithmetic(f)
    requires FiniteQuaternion(raw.attitude) ==> IsNorm(Values(raw.attitude), norm)
    requires Canonicalize(raw, norm).Ok?
    ensures var s := Canonicalize(raw, norm).value; Recanonicalize(f, s) == s
  {
    CanonicalizeKeepsUnitNorm(raw, norm);
    RecanonicalizeIsIdentity(f, Canonicalize(raw, norm).value);
  }

  // ------------------------------------------------------------------
  // Binary64
  // ------------------------------------------------------------------

  /**
   * A binary format with 53 bits of precision, whose least normal number is
   * `2^-low` and whose last binade starts at `2^high`.
   */
  datatype Format = Format(low: nat, high: nat)

  const BINARY64: Format := Format(1022, 1023)

  /** The binade of a magnitude, counted from the least normal one. */
  function Binade(b: Format, magnitude: real): nat {
    Exponent(Doubled(magnitude, b.low), b.low + b.high)
  }

  /** The distance between neighbouring numbers of a magnitude; below the normal range it is the smallest number. */
  function Spacing(b: Format, magnitude: real): (ulp: real)
    ensures ulp > 0.0
  {
    var power := Doubled(1.0, Binade(b, magnitude));
    DoubledPositive(1.0, Binade(b, magnitude));
    HalvedPositive(power, b.low + 52);
    Halved(power, b.low + 52)
  }

  /** The nearest multiple of a spacing, ties to even. */
  function RoundTo(x: real, ulp: real): real
    requires ulp > 0.0
  {
    RoundTiesEven(x / ulp) as real * ulp
  }

  /** The nearest number of a real below the overflow threshold, ties to even; it may be subnormal or zero. */
  function Round(b: Format, x: real): real {
    RoundTo(x, Spacing(b, Abs(x)))
  }

  lemma RoundedQuotient(x: real, ulp: real, n: int)
    requires ulp > 0.0 && -0.5 <= n as real - x / ulp <= 0.5
    ensures Abs(n as real * ulp - x) <= 0.5 * ulp
  {
    var y := x / ulp;
    assert y * ulp == x;
    ProductNonNegative(0.5 - (n as real - y), ulp);
    ProductNonNegative(0.5 + (n as real - y), ulp);
  }

  predicate Fine(ulp: real, magnitude: real) {
    0.5 * ulp <= magnitude * UNIT_ROUNDOFF
  }

  /** Half the spacing of normal numbers is within the unit roundoff. */
  lemma SpacingIsRelative(b: Format, magnitude: real)
    requires Halved(1.0, b.low) <= magnitude
    ensures Fine(Spacing(b, magnitude), magnitude)
  {
    var scaled := Doubled(magnitude, b.low);
    DoubledOfHalved(1.0, b.low);
    DoubledMonotone(Halved(1.0, b.low), magnitude, b.low);
    ExponentBelow(scaled, b.low + b.high);
    HalvedMonotone(Doubled(1.0, Binade(b, magnitude)), scaled, b.low + 52);
    HalvedOfDoubled(magnitude, b.low, 52);
    HalvedBy52(magnitude);
  }

  /** The spacing is no finer than 53 bits allow, so rounding really loses what lies below them. */
  lemma SignificandFits(b: Format, x: real)
    requires Abs(x) < Doubled(1.0, b.high + 1)
    ensures Abs(x) < 9_007_199_254_740_992.0 * Spacing(b, Abs(x))
    ensures -9_007_199_254_740_992 <= RoundTiesEven(x / Spacing(b, Abs(x))) <= 9_007_199_254_740_992
  {
    SpacingIsCoarse(b, Abs(x));
    SmallQuotient(x, Spacing(b, Abs(x)), RoundTiesEven(x / Spacing(b, Abs(x))));
  }

  lemma SmallQuotient(x: real, ulp: real, n: int)
    requires ulp > 0.0 && Abs(x) < 9_007_199_254_740_992.0 * ulp && -0.5 <= n as real - x / ulp <= 0.5
    ensures -9_007_199_254_740_992 <= n <= 9_007_199_254_740_992
  {
    var y := x / ulp;
    assert y * ulp == x;
    if y >= 9_007_199_254_740_992.0 {
      ProductNonNegative(y - 9_007_199_254_740_992.0, ulp);
    }
    if y <= -9_007_199_254_740_992.0 {
      ProductNonNegative(-9_007_199_254_740_992.0 - y, ulp);
    }
  }

  lemma SpacingIsCoarse(b: Format, magnitude: real)
    requires magnitude < Doubled(1.0, b.high + 1)
    ensures magnitude < 9_007_199_254_740_992.0 * Spacing(b, magnitude)
  {
    var binade := Binade(b, magnitude);
    var start := Halved(Doubled(1.0, binade), b.low);
    DoubledStrict(magnitude, Doubled(1.0, b.high + 1), b.low);
    DoubledSum(1.0, b.high + 1, b.low);
    ExponentAbove(Doubled(magnitude, b.low), b.low + b.high);
    HalvedSum(Doubled(1.0, binade), b.low, 52);
    HalvedBy52(start);
    DoubledOfHalved(Doubled(1.0, binade), b.low);
    DoubledSum(start, 1, b.low);
    DoubledOnce(start, 1);
    DoubledCancels(magnitude, 2.0 * start, b.low);
  }

  /** Rounding to a multiple of a spacing this small is within the unit roundoff. */
  lemma MultipleIsWithin(x: real, ulp: real)
    requires ulp > 0.0 && (x != 0.0 ==> Fine(ulp, Abs(x)))
    ensures RoundsWithin(RoundTo(x, ulp), x)
  {
    if x == 0.0 {
      assert x / ulp == 0.0;
    } else {
      RoundedQuotient(x, ulp, RoundTiesEven(x / ulp));
    }
  }

  lemma RoundIsWithin(b: Format, x: real)
    requires x == 0.0 || Halved(1.0, b.low) <= Abs(x)
    ensures RoundsWithin(Round(b, x), x)
  {
    if x != 0.0 {
      SpacingIsRelative(b, Abs(x));
    }
    MultipleIsWithin(x, Spacing(b, Abs(x)));
  }

  function QuotientOf(round: real -> real, x: real, y: real): real {
    if y == 0.0 then 0.0 else round(x / y)
  }

  function ProductOf(round: real -> real, x: real, y: real): real {
    round(x * y)
  }

  /** Operations whose results are the exact ones, rounded. */
  function Rounded(round: real -> real): FloatArithmetic {
    FloatArithmetic((x, y) => QuotientOf(round, x, y), (x, y) => ProductOf(round, x, y))
  }

  lemma RoundedIsAccurate(round: real -> real)
    requires forall x: real :: InNormalRange(x) ==> RoundsWithin(round(x), x)
    ensures AccurateArithmetic(Rounded(round))
  {
    var f := Rounded(round);
    forall x: real, y: real ensures DividesWithin(f, x, y) {
      assert f.div(x, y) == QuotientOf(round, x, y);
    }
    forall x: real, y: real ensures MultipliesWithin(f, x, y) {
      assert f.mul(x, y) == ProductOf(round, x, y);
    }
  }

  /** The arithmetic of IEEE 754 binary64 with rounding to nearest even. */
  function Binary64(): FloatArithmetic {
    Rounded(x => Round(BINARY64, x))
  }

  /**
   * A format whose normal numbers start no higher than those of binary64 has
   * the error bound, although it underflows.
   */
  lemma FormatIsAccurate(b: Format)
    requires b.low >= 1022
    ensures AccurateArithmetic(Rounded(x => Round(b, x)))
  {
    HalvedSum(1.0, 1022, b.low - 1022);
    HalvedPositive(1.0, 1022);
    HalvedPositive(Halved(1.0, 1022), b.low - 1022);
    var round := (x: real) => Round(b, x);
    forall x: real | InNormalRange(x) ensures RoundsWithin(round(x), x) {
      RoundIsWithin(b, x);
    }
    RoundedIsAccurate(round);
  }

  lemma Binary64IsAccurate()
    ensures AccurateArithmetic(Binary64())
  {
    FormatIsAccurate(BINARY64);
  }

  /** With the arithmetic of the code itself, recanonicalising what the pipeline emits changes nothing. */
  lemma Binary64IsIdempotent(raw: PhysicalObservation, norm: real)
    requires FiniteQuaternion(raw.attitude) ==> IsNorm(Values(raw.attitude), norm)
    requires Canonicalize(raw, norm).Ok?
    ensures var s := Canonicalize(raw, norm).value; Recanonicalize(Binary64(), s) == s
  {
    Binary64IsAccurate();
    CanonicalizationIsIdempotent(Binary64(), raw, norm);
  }
}
