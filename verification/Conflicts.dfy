/** seven-belief: which runs raise conflict flags. */
module Conflicts {
  import opened Evidence
  import opened Gaussian
  import opened Belief

  // ------------------------------------------------------------------
  // Distance of a measurement from the posterior mean
  // ------------------------------------------------------------------

  lemma SquareMonotone(x: real, t: real)
    requires -t <= x <= t
    ensures x * x <= t * t
  {
    ProductMonotone(0.0, t - x, t + x);
    assert (t - x) * (t + x) == t * t - x * x;
  }

  /** How far the prior can pull the mean of measurements bounded by `m`. */
  function Pull(m: real, r: real): real {
    m * r / PRIOR_VAR
  }

  lemma PullEquation(m: real, r: real)
    requires m >= 0.0 && r > 0.0
    ensures Pull(m, r) * PRIOR_VAR == m * r && Pull(m, r) >= 0.0
  {
    ProductMonotone(0.0, m, r);
  }

  /** The average of some measurements. */
  function Average(zs: seq<real>): real
    requires zs != []
  {
    Sum(zs) / |zs| as real
  }

  lemma AverageBetween(zs: seq<real>, low: real, high: real)
    requires zs != [] && forall i :: 0 <= i < |zs| ==> low <= zs[i] <= high
    ensures low <= Average(zs) <= high
  {
    var n, sum := |zs| as real, Sum(zs);
    SumBetween(zs, low, high);
    QuotientEquation(Average(zs), sum, n);
    QuotientBetween(n, sum, Average(zs), low, high);
  }

  lemma QuotientBetween(n: real, sum: real, quotient: real, low: real, high: real)
    requires n > 0.0 && quotient * n == sum && SumsBetween(n, sum, low, high)
    ensures low <= quotient <= high
  {
    assert low * n == n * low && high * n == n * high;
    CancelOrder(low, quotient, n);
    CancelOrder(quotient, high, n);
  }

  /** The posterior mean is the average, shrunk towards the prior mean zero. */
  lemma Shrinkage(p: real, n: real, sum: real, r: real, w: real, mean: real, average: real)
    requires w == r + n * p && mean * w == p * sum && average * n == sum
    ensures (average - mean) * w == r * average
  {
    assert (average - mean) * w == average * w - mean * w;
    assert average * (r + n * p) == r * average + p * (average * n);
  }

  lemma ShrinkageBound(p: real, r: real, w: real, m: real, q: real, average: real, shift: real)
    requires shift * w == r * average && -m <= average <= m
    requires q * p == m * r && q >= 0.0 && w >= p && w > 0.0 && r > 0.0
    ensures -q <= shift <= q
  {
    ProductMonotone(average, m, r);
    ProductMonotone(-m, average, r);
    ProductMonotone(p, w, q);
    assert (-q) * w == -(q * w) && (-m) * r == -(m * r);
    CancelOrder(shift, q, w);
    CancelOrder(-q, shift, w);
  }

  /** The posterior mean of measurements bounded by `m` is within `m * r / 10^9` of their average. */
  lemma MeanNearAverage(zs: seq<real>, r: real, m: real)
    requires zs != [] && r > 0.0 && forall i :: 0 <= i < |zs| ==> -m <= zs[i] <= m
    ensures -Pull(m, r) <= Average(zs) - PosteriorMean(|zs|, Sum(zs), r) <= Pull(m, r)
  {
    var n, sum, w := |zs|, Sum(zs), Weight(|zs|, r);
    var mean, average := PosteriorMean(n, sum, r), Average(zs);
    assert -m <= zs[0] <= m;
    PosteriorMeanEquation(n, sum, r);
    QuotientEquation(average, sum, n as real);
    AverageBetween(zs, -m, m);
    PullEquation(m, r);
    Shrinkage(PRIOR_VAR, n as real, sum, r, w, mean, average);
    ShrinkageBound(PRIOR_VAR, r, w, m, Pull(m, r), average, average - mean);
  }

  lemma NotExceeded(x: real, t: real, v: real, r: real)
    requires -t <= x <= t && !Exceeds(t, r) && v > 0.0
    ensures !Exceeds(x, v + r)
  {
    SquareMonotone(x, t);
  }

  lemma StillExceeded(x: real, excess: real, v: real, r: real)
    requires x >= excess || -x >= excess
    requires excess > 0.0 && Exceeds(excess, 2.0 * r) && v < r
    ensures Exceeds(x, v + r)
  {
    if x >= excess {
      SquareMonotone(excess, x);
    } else {
      SquareMonotone(excess, -x);
      assert (-x) * (-x) == x * x;
    }
  }

  /**
   * Measurements bounded by `m` that lie within `spread` of a new one do not
   * flag it when `spread + m * r / 10^9` is at most `3 * sqrt(r)`.
   */
  lemma CloseIsNotFlagged(zs: seq<real>, z: real, r: real, m: real, spread: real)
    requires zs != [] && r > 0.0 && forall i :: 0 <= i < |zs| ==> -m <= zs[i] <= m
    requires forall i :: 0 <= i < |zs| ==> -spread <= z - zs[i] <= spread
    requires !Exceeds(spread + Pull(m, r), r)
    ensures !Deviates(z, PosteriorMean(|zs|, Sum(zs), r), PosteriorVar(|zs|, r), r)
  {
    MeanNearAverage(zs, r, m);
    AverageBetween(zs, z - spread, z + spread);
    NotExceeded(z - PosteriorMean(|zs|, Sum(zs), r), spread + Pull(m, r), PosteriorVar(|zs|, r), r);
  }

  /**
   * A measurement that lies above all earlier ones, or below all of them, by
   * more than `3 * sqrt(2 * r) + m * r / 10^9` is flagged.
   */
  lemma FarIsFlagged(zs: seq<real>, z: real, r: real, m: real, gap: real)
    requires zs != [] && r > 0.0 && forall i :: 0 <= i < |zs| ==> -m <= zs[i] <= m
    requires (forall i :: 0 <= i < |zs| ==> z - zs[i] >= gap) || (forall i :: 0 <= i < |zs| ==> zs[i] - z >= gap)
    requires gap > Pull(m, r) && Exceeds(gap - Pull(m, r), 2.0 * r)
    ensures Deviates(z, PosteriorMean(|zs|, Sum(zs), r), PosteriorVar(|zs|, r), r)
  {
    VarianceShrinks(|zs|, r);
    MeanNearAverage(zs, r, m);
    if forall i :: 0 <= i < |zs| ==> z - zs[i] >= gap {
      AverageBetween(zs, -m, z - gap);
    } else {
      AverageBetween(zs, z + gap, m);
    }
    StillExceeded(z - PosteriorMean(|zs|, Sum(zs), r), gap - Pull(m, r), PosteriorVar(|zs|, r), r);
  }

  // ------------------------------------------------------------------
  // Whole runs
  // ------------------------------------------------------------------

  /** The accepted measurements of a subject are bounded by `m` and within `spread` of each other, in each dimension. */
  ghost predicate Close(c: Crypto, es: seq<Evidence>, s: string, m: Vec6, spread: Vec6) {
    var accepted := Accepted(c, es, s);
    forall d, i, j :: 0 <= d < 6 && 0 <= i < |accepted| && 0 <= j < |accepted| ==>
      && -m[d] <= Column(accepted, d)[i] <= m[d]
      && -spread[d] <= Column(accepted, d)[i] - Column(accepted, d)[j] <= spread[d]
  }

  /** In each dimension `spread + m * r / 10^9` is at most `3 * sqrt(r)`. */
  ghost predicate WithinThreeSigma(m: Vec6, spread: Vec6) {
    forall d :: 0 <= d < 6 ==> Tolerates(m[d], spread[d], Noise(d))
  }

  predicate Tolerates(m: real, spread: real, r: real) {
    !Exceeds(spread + Pull(m, r), r)
  }

  /** In dimension `d` the earlier measurements are bounded by `m` and within `spread` of the reading. */
  ghost predicate Near(previous: seq<Evidence>, z: Vec6, d: int, m: real, spread: real)
    requires 0 <= d < 6 && AllDecode(previous)
  {
    var zs := Column(previous, d);
    forall i :: 0 <= i < |zs| ==> -m <= zs[i] <= m && -spread <= z[d] - zs[i] <= spread
  }

  lemma ClosePrefix(c: Crypto, es: seq<Evidence>, s: string, m: Vec6, spread: Vec6)
    requires es != [] && Close(c, es, s, m, spread)
    ensures Close(c, es[..|es| - 1], s, m, spread)
  {
    var (a, b) := (Accepted(c, es[..|es| - 1], s), Accepted(c, es, s));
    forall d, i, j | 0 <= d < 6 && 0 <= i < |a| && 0 <= j < |a|
      ensures -m[d] <= Column(a, d)[i] <= m[d]
      ensures -spread[d] <= Column(a, d)[i] - Column(a, d)[j] <= spread[d]
    {
      assert Column(b, d)[i] == Column(a, d)[i] && Column(b, d)[j] == Column(a, d)[j];
    }
  }

  /** A subject whose accepted measurements are this close never appears in a conflict, at any point of the run. */
  lemma {:induction false} AgreementIsNeverFlagged(c: Crypto, es: seq<Evidence>, s: string, m: Vec6, spread: Vec6)
    requires Close(c, es, s, m, spread) && WithinThreeSigma(m, spread)
    ensures forall k :: k in Run(c, es).conflicts ==> k.subject != s
    decreases |es|
  {
    RunHasConflicts(c, es);
    if es != [] {
      var (before, e) := (es[..|es| - 1], es[|es| - 1]);
      ClosePrefix(c, es, s, m, spread);
      AgreementIsNeverFlagged(c, before, s, m, spread);
      RunHasConflicts(c, before);
      var previous := Accepted(c, before, s);
      if e.subject == s && Accepted(c, es, s) != previous && previous != [] {
        CloseDoesNotDisagree(c, es, previous, e, m, spread);
      }
    }
  }

  lemma CloseDoesNotDisagree(c: Crypto, es: seq<Evidence>, previous: seq<Evidence>, e: Evidence, m: Vec6, spread: Vec6)
    requires AllDecode(previous) && Reading(e.payload).Some? && previous != []
    requires Accepted(c, es, e.subject) == previous + [e]
    requires Close(c, es, e.subject, m, spread) && WithinThreeSigma(m, spread)
    ensures !Disagrees(PosteriorOf(previous), Reading(e.payload).value)
  {
    var z := Reading(e.payload).value;
    forall d | 0 <= d < 6 ensures !DisagreesIn(PosteriorOf(previous), z, d) {
      DoesNotDisagreeIn(c, es, previous, e, m, spread, d);
    }
  }

  lemma DoesNotDisagreeIn(
      c: Crypto, es: seq<Evidence>, previous: seq<Evidence>, e: Evidence, m: Vec6, spread: Vec6, d: int)
    requires AllDecode(previous) && Reading(e.payload).Some? && previous != [] && 0 <= d < 6
    requires Accepted(c, es, e.subject) == previous + [e]
    requires Close(c, es, e.subject, m, spread) && Tolerates(m[d], spread[d], Noise(d))
    ensures !DisagreesIn(PosteriorOf(previous), Reading(e.payload).value, d)
  {
    ColumnsOfClose(c, es, previous, e, m, spread, d);
    CloseInDimension(previous, Reading(e.payload).value, d, m[d], spread[d]);
  }

  lemma ColumnsOfClose(
      c: Crypto, es: seq<Evidence>, previous: seq<Evidence>, e: Evidence, m: Vec6, spread: Vec6, d: int)
    requires AllDecode(previous) && Reading(e.payload).Some?
    requires Accepted(c, es, e.subject) == previous + [e] && Close(c, es, e.subject, m, spread) && 0 <= d < 6
    ensures Near(previous, Reading(e.payload).value, d, m[d], spread[d])
  {
    var (all, n) := (Column(previous + [e], d), |previous|);
    assert all[n] == Reading(e.payload).value[d];
    forall i | 0 <= i < n
      ensures -m[d] <= Column(previous, d)[i] <= m[d]
      ensures -spread[d] <= all[n] - Column(previous, d)[i] <= spread[d]
    {
      assert all[i] == Column(previous, d)[i];
    }
  }

  /** The conflict test of one dimension, on the components of the track. */
  lemma DisagreementOfComponents(t: Track, z: Vec6, d: int, mean: real, v: real)
    requires 0 <= d < 6 && t.mean[d] == mean && t.variance[d] == v
    ensures DisagreesIn(t, z, d) == Deviates(z[d], mean, v, Noise(d))
  {
  }

  /** The conflict test of one dimension against a posterior, on its measurements. */
  lemma TestOfPosterior(previous: seq<Evidence>, z: Vec6, d: int, zs: seq<real>)
    requires AllDecode(previous) && 0 <= d < 6 && zs == Column(previous, d)
    ensures DisagreesIn(PosteriorOf(previous), z, d)
         == Deviates(z[d], PosteriorMean(|zs|, Sum(zs), Noise(d)), PosteriorVar(|zs|, Noise(d)), Noise(d))
  {
    var (mean, v) := (PosteriorMean(|zs|, Sum(zs), Noise(d)), PosteriorVar(|zs|, Noise(d)));
    PosteriorComponents(previous, d, |zs|, Sum(zs));
    DisagreementOfComponents(PosteriorOf(previous), z, d, mean, v);
  }

  lemma CloseInDimension(previous: seq<Evidence>, z: Vec6, d: int, m: real, spread: real)
    requires AllDecode(previous) && previous != [] && 0 <= d < 6
    requires Near(previous, z, d, m, spread) && Tolerates(m, spread, Noise(d))
    ensures !DisagreesIn(PosteriorOf(previous), z, d)
  {
    CloseIsNotFlagged(Column(previous, d), z[d], Noise(d), m, spread);
    TestOfPosterior(previous, z, d, Column(previous, d));
  }

  lemma FarInDimension(previous: seq<Evidence>, z: Vec6, d: int, m: real, gap: real)
    requires AllDecode(previous) && previous != [] && 0 <= d < 6
    requires forall i :: 0 <= i < |previous| ==> -m <= Column(previous, d)[i] <= m
    requires Beyond(previous, z, d, gap)
    requires gap > Pull(m, Noise(d)) && Exceeds(gap - Pull(m, Noise(d)), 2.0 * Noise(d))
    ensures Disagrees(PosteriorOf(previous), z)
  {
    FarIsFlagged(Column(previous, d), z[d], Noise(d), m, gap);
    TestOfPosterior(previous, z, d, Column(previous, d));
  }

  /** In dimension `d` the reading lies above all the earlier measurements by `gap`, or below all of them. */
  ghost predicate Beyond(previous: seq<Evidence>, z: Vec6, d: int, gap: real)
    requires 0 <= d < 6 && AllDecode(previous)
  {
    var zs := Column(previous, d);
    (forall i :: 0 <= i < |zs| ==> z[d] - zs[i] >= gap) || (forall i :: 0 <= i < |zs| ==> zs[i] - z[d] >= gap)
  }

  /**
   * Evidence for a tracked subject that verifies, is new and decodes to a
   * reading far beyond all earlier ones in some dimension is flagged, together
   * with the evidence accepted just before it, and still counted.
   */
  lemma OutlierIsFlagged(c: Crypto, es: seq<Evidence>, e: Evidence, d: int, m: real, gap: real)
    requires var previous := Accepted(c, es, e.subject);
             && previous != [] && Accepted(c, es + [e], e.subject) == previous + [e]
             && 0 <= d < 6 && m >= 0.0
             && (forall i :: 0 <= i < |previous| ==> -m <= Column(previous, d)[i] <= m)
             && Reading(e.payload).Some? && Beyond(previous, Reading(e.payload).value, d, gap)
    requires gap > Pull(m, Noise(d)) && Exceeds(gap - Pull(m, Noise(d)), 2.0 * Noise(d))
    ensures var previous := Accepted(c, es, e.subject);
            && Run(c, es + [e]).conflicts
            == Run(c, es).conflicts + [Conflict(e.subject, previous[|previous| - 1], e)]
            && e.subject in Run(c, es + [e]).tracks
            && Run(c, es + [e]).tracks[e.subject] == PosteriorOf(previous + [e])
  {
    var previous := Accepted(c, es, e.subject);
    var z := Reading(e.payload).value;
    FarInDimension(previous, z, d, m, gap);
    AcceptedOutlier(c, es, e);
  }

  lemma AcceptedOutlier(c: Crypto, es: seq<Evidence>, e: Evidence)
    requires Reading(e.payload).Some? && Accepted(c, es, e.subject) != []
    requires Accepted(c, es + [e], e.subject) == Accepted(c, es, e.subject) + [e]
    requires Disagrees(PosteriorOf(Accepted(c, es, e.subject)), Reading(e.payload).value)
    ensures var previous := Accepted(c, es, e.subject);
            && Run(c, es + [e]).conflicts
            == Run(c, es).conflicts + [Conflict(e.subject, previous[|previous| - 1], e)]
            && e.subject in Run(c, es + [e]).tracks
            && Run(c, es + [e]).tracks[e.subject] == PosteriorOf(previous + [e])
  {
    assert (es + [e])[..|es|] == es;
    RunHasConflicts(c, es);
    RunHasConflicts(c, es + [e]);
    RunDescribesSubject(c, es + [e], e.subject);
  }
}
