/**
 * seven-belief: the conjugate update of one scalar, and its closed form over a
 * whole run. Arithmetic is over the reals.
 */
module Gaussian {

  /** The variance of the prior, whose mean is zero. */
  const PRIOR_VAR: real := 1_000_000_000.0

  /** Kalman gain of a scalar measurement with variance `r`. */
  function Gain(v: real, r: real): real
    requires v + r != 0.0
  {
    v / (v + r)
  }

  function UpdatedMean(mean: real, v: real, z: real, r: real): real
    requires v + r != 0.0
  {
    mean + Gain(v, r) * (z - mean)
  }

  function UpdatedVar(v: real, r: real): real
    requires v + r != 0.0
  {
    v * (1.0 - Gain(v, r))
  }

  /** The common denominator of the posterior after `n` measurements. */
  function Weight(n: nat, r: real): (w: real)
    requires r > 0.0
    ensures w > 0.0 && w >= r && (n > 0 ==> w > PRIOR_VAR)
  {
    r + n as real * PRIOR_VAR
  }

  /** The mean after `n` measurements whose sum is `sum`. */
  function PosteriorMean(n: nat, sum: real, r: real): real
    requires r > 0.0
  {
    PRIOR_VAR * sum / Weight(n, r)
  }

  /** The variance after `n` measurements. */
  function PosteriorVar(n: nat, r: real): (v: real)
    requires r > 0.0
    ensures v > 0.0
  {
    PRIOR_VAR * r / Weight(n, r)
  }

  // ------------------------------------------------------------------
  // Arithmetic
  // ------------------------------------------------------------------

  lemma CancelFactor(a: real, b: real, c: real)
    requires c != 0.0 && a * c == b * c
    ensures a == b
  {
    assert (a - b) * c == 0.0;
  }

  lemma PositiveProduct(a: real, b: real)
    requires a > 0.0 && b > 0.0
    ensures a * b > 0.0
  {
  }

  lemma ProductMonotone(a: real, b: real, c: real)
    requires a <= b && c >= 0.0
    ensures a * c <= b * c
  {
  }

  lemma CancelOrder(a: real, b: real, c: real)
    requires c > 0.0 && a * c <= b * c
    ensures a <= b
  {
    assert (b - a) * c >= 0.0;
  }

  lemma CancelStrict(a: real, b: real, c: real)
    requires c > 0.0 && a * c < b * c
    ensures a < b
  {
    assert (b - a) * c > 0.0;
  }

  /** A quotient is the solution of the multiplied equation. */
  lemma QuotientEquation(q: real, a: real, b: real)
    requires b != 0.0
    ensures q == a / b <==> q * b == a
  {
  }

  // ------------------------------------------------------------------
  // One update is one more measurement in the closed form
  // ------------------------------------------------------------------

  /** `p` is the prior variance, `w` the weight before the update and `p + w` the weight after it. */
  lemma GainEquation(p: real, w: real, r: real, v: real)
    requires p > 0.0 && w > 0.0 && r > 0.0 && v > 0.0 && v * w == p * r
    ensures Gain(v, r) * (w + p) == p
  {
    var k := p / (w + p);
    assert k * (w + p) == p;
    assert (k * (v + r)) * w == k * (p * r + r * w) by {
      assert (v + r) * w == p * r + r * w;
    }
    assert k * (p * r + r * w) == (k * (w + p)) * r;
    assert (k * (v + r)) * w == v * w;
    CancelFactor(k * (v + r), v, w);
    QuotientEquation(k, v, v + r);
  }

  lemma VarEquation(p: real, w: real, r: real, v: real)
    requires p > 0.0 && w > 0.0 && r > 0.0 && v > 0.0 && v * w == p * r
    ensures UpdatedVar(v, r) * (w + p) == p * r
  {
    GainEquation(p, w, r, v);
    var k := Gain(v, r);
    assert (v * (1.0 - k)) * (w + p) == v * ((w + p) - k * (w + p));
  }

  lemma MeanEquation(p: real, w: real, r: real, v: real, mean: real, sum: real, z: real)
    requires p > 0.0 && w > 0.0 && r > 0.0 && v > 0.0 && v * w == p * r && mean * w == p * sum
    ensures UpdatedMean(mean, v, z, r) * (w + p) == p * (sum + z)
  {
    GainEquation(p, w, r, v);
    var k := Gain(v, r);
    assert (mean + k * (z - mean)) * (w + p) == mean * (w + p) + (k * (w + p)) * (z - mean);
  }

  /** Updating the posterior of `n` measurements gives the posterior of `n + 1`. */
  lemma UpdateExtendsPosterior(n: nat, sum: real, z: real, r: real)
    requires r > 0.0
    ensures UpdatedVar(PosteriorVar(n, r), r) == PosteriorVar(n + 1, r)
    ensures UpdatedMean(PosteriorMean(n, sum, r), PosteriorVar(n, r), z, r) == PosteriorMean(n + 1, sum + z, r)
  {
    var w, v, mean := Weight(n, r), PosteriorVar(n, r), PosteriorMean(n, sum, r);
    QuotientEquation(v, PRIOR_VAR * r, w);
    QuotientEquation(mean, PRIOR_VAR * sum, w);
    assert Weight(n + 1, r) == w + PRIOR_VAR;
    VarEquation(PRIOR_VAR, w, r, v);
    MeanEquation(PRIOR_VAR, w, r, v, mean, sum, z);
    QuotientEquation(UpdatedVar(v, r), PRIOR_VAR * r, Weight(n + 1, r));
    QuotientEquation(UpdatedMean(mean, v, z, r), PRIOR_VAR * (sum + z), Weight(n + 1, r));
  }

  /** The posterior of no measurements is the prior. */
  lemma PriorIsPosterior(r: real)
    requires r > 0.0
    ensures PosteriorMean(0, 0.0, r) == 0.0 && PosteriorVar(0, r) == PRIOR_VAR
  {
    QuotientEquation(PRIOR_VAR, PRIOR_VAR * r, Weight(0, r));
  }

  // ------------------------------------------------------------------
  // Sums of measurements
  // ------------------------------------------------------------------

  function Sum(zs: seq<real>): real {
    if zs == [] then 0.0 else Sum(zs[..|zs| - 1]) + zs[|zs| - 1]
  }

  /** The sum of `n` measurements between `low` and `high` is between `n` times these. */
  predicate SumsBetween(n: real, sum: real, low: real, high: real) {
    n * low <= sum <= n * high
  }

  lemma {:induction false} SumBetween(zs: seq<real>, low: real, high: real)
    requires forall i :: 0 <= i < |zs| ==> low <= zs[i] <= high
    ensures SumsBetween(|zs| as real, Sum(zs), low, high)
    decreases |zs|
  {
    if zs != [] {
      var n := |zs| - 1;
      SumBetween(zs[..n], low, high);
      OneMoreBetween(n as real, Sum(zs[..n]), zs[n], low, high);
    }
  }

  lemma OneMoreBetween(n: real, sum: real, z: real, low: real, high: real)
    requires SumsBetween(n, sum, low, high) && low <= z <= high
    ensures SumsBetween(n + 1.0, sum + z, low, high)
  {
    assert (n + 1.0) * low == n * low + low && (n + 1.0) * high == n * high + high;
  }

  /** The posterior mean solves the cross-multiplied closed form. */
  lemma PosteriorMeanEquation(n: nat, sum: real, r: real)
    requires r > 0.0
    ensures PosteriorMean(n, sum, r) * Weight(n, r) == PRIOR_VAR * sum
  {
    QuotientEquation(PosteriorMean(n, sum, r), PRIOR_VAR * sum, Weight(n, r));
  }

  /** The posterior mean lies between the extremes of zero and the measurements. */
  lemma MeanInHull(zs: seq<real>, r: real, low: real, high: real)
    requires r > 0.0 && low <= 0.0 <= high && forall i :: 0 <= i < |zs| ==> low <= zs[i] <= high
    ensures low <= PosteriorMean(|zs|, Sum(zs), r) <= high
  {
    SumBetween(zs, low, high);
    MeanBetween(|zs|, Sum(zs), r, low, high);
  }

  lemma MeanBetween(n: nat, sum: real, r: real, low: real, high: real)
    requires r > 0.0 && low <= 0.0 <= high && SumsBetween(n as real, sum, low, high)
    ensures low <= PosteriorMean(n, sum, r) <= high
  {
    PosteriorMeanEquation(n, sum, r);
    HullOfMean(PRIOR_VAR, n as real, sum, r, Weight(n, r), PosteriorMean(n, sum, r), low, high);
  }

  /**
   * After `n > 0` measurements the variance solves the cross-multiplied closed
   * form, is positive, and is below `r / n`, below `r` and below the variance before.
   */
  lemma VarianceShrinks(n: nat, r: real)
    requires r > 0.0 && n > 0
    ensures PosteriorVar(n, r) * Weight(n, r) == PRIOR_VAR * r
    ensures PosteriorVar(n, r) > 0.0
    ensures PosteriorVar(n, r) < r / n as real
    ensures PosteriorVar(n, r) < PosteriorVar(n - 1, r)
    ensures PosteriorVar(n, r) < r
  {
    var m, w, u := n as real, Weight(n, r), Weight(n - 1, r);
    var v, before, bound := PosteriorVar(n, r), PosteriorVar(n - 1, r), r / m;
    QuotientEquation(v, PRIOR_VAR * r, w);
    QuotientEquation(before, PRIOR_VAR * r, u);
    QuotientEquation(bound, r, m);
    assert u == w - PRIOR_VAR;
    StrictlyLess(v, before, w, PRIOR_VAR * r, before * PRIOR_VAR, u);
    BelowShare(v, bound, r, m, w);
    BelowNoise(PRIOR_VAR, v, r, w);
  }

  lemma StrictlyLess(v: real, before: real, w: real, x: real, extra: real, u: real)
    requires w > 0.0 && v * w == x && before * u == x && u == w - PRIOR_VAR
    requires extra == before * PRIOR_VAR && before > 0.0
    ensures v < before
  {
    assert before * w == x + extra;
    CancelStrict(v, before, w);
  }

  lemma BelowShare(v: real, bound: real, r: real, m: real, w: real)
    requires m >= 1.0 && r > 0.0 && w == r + m * PRIOR_VAR && w > 0.0
    requires v * w == PRIOR_VAR * r && bound * m == r
    ensures v < bound
  {
    assert bound > 0.0 by {
      CancelStrict(0.0, bound, m);
    }
    Expand(bound, r, m, PRIOR_VAR);
    PositiveProduct(bound, r);
    assert bound * w > PRIOR_VAR * r;
    CancelStrict(v, bound, w);
  }

  lemma Expand(b: real, r: real, m: real, p: real)
    ensures b * (r + m * p) == b * r + p * (b * m)
  {
  }

  lemma BelowNoise(p: real, v: real, r: real, w: real)
    requires r > 0.0 && w > p > 0.0 && v * w == p * r
    ensures v < r
  {
    PositiveProduct(w - p, r);
    Distribute(w, p, r);
    assert w * r > p * r;
    assert r * w == w * r;
    CancelStrict(v, r, w);
  }

  lemma Distribute(a: real, b: real, c: real)
    ensures (a - b) * c == a * c - b * c
  {
  }

  lemma HullOfMean(p: real, n: real, sum: real, r: real, w: real, mean: real, low: real, high: real)
    requires p > 0.0 && w > 0.0 && r > 0.0 && w == r + n * p
    requires low <= 0.0 <= high && SumsBetween(n, sum, low, high)
    requires mean * w == p * sum
    ensures low <= mean <= high
  {
    assert low * w == low * r + (n * low) * p;
    assert high * w == high * r + (n * high) * p;
    ProductMonotone(low, 0.0, r);
    ProductMonotone(0.0, high, r);
    ProductMonotone(n * low, sum, p);
    ProductMonotone(sum, n * high, p);
    CancelOrder(low, mean, w);
    CancelOrder(mean, high, w);
  }
}
