/**
 * seven-belief: the specification of the belief engine. `Step` is one
 * `incorporate` on values; the class in `Engine` is proved to perform it.
 * This module relates a whole run to the evidence it was given.
 */
module Belief {
  import opened Basics
  import opened Core
  import opened Evidence
  import opened Gaussian

  const MEAS_VAR_POS: real := 25.0
  const MEAS_VAR_VEL: real := 1.0
  const CONFLICT_SIGMA: real := 3.0

  type Vec6 = v: seq<real> | |v| == 6 witness seq(6, _ => 0.0)

  /** Measurement variance of a dimension: three positions, then three velocities. */
  function Noise(d: int): (r: real)
    ensures r == MEAS_VAR_POS || r == MEAS_VAR_VEL
  {
    if d < 3 then MEAS_VAR_POS else MEAS_VAR_VEL
  }

  /** The belief about one subject: means and variances of the six dimensions. */
  datatype RawTrack = Track(mean: Vec6, variance: Vec6, updates: nat)

  type Track = t: RawTrack | forall d :: 0 <= d < 6 ==> t.variance[d] > 0.0
    witness RawTrack.Track(seq(6, _ => 0.0), seq(6, _ => 1.0), 0)

  function Uninformative(): Track {
    RawTrack.Track(seq(6, _ => 0.0), seq(6, _ => PRIOR_VAR), 0)
  }

  lemma UpdatedVarIsPositive(v: real, r: real)
    requires v > 0.0 && r > 0.0
    ensures UpdatedVar(v, r) > 0.0
  {
    var k := Gain(v, r);
    QuotientEquation(k, v, v + r);
    CancelStrict(k, 1.0, v + r);
    assert v * (1.0 - k) > 0.0;
  }

  /** One measurement in each dimension. */
  function Absorb(t: Track, z: Vec6): Track {
    var variance := seq(6, d requires 0 <= d < 6 => UpdatedVar(t.variance[d], Noise(d)));
    assert forall d :: 0 <= d < 6 ==> variance[d] > 0.0 by {
      forall d | 0 <= d < 6 ensures variance[d] > 0.0 {
        UpdatedVarIsPositive(t.variance[d], Noise(d));
      }
    }
    RawTrack.Track(
      seq(6, d requires 0 <= d < 6 => UpdatedMean(t.mean[d], t.variance[d], z[d], Noise(d))),
      variance,
      t.updates + 6)
  }

  /**
   * Some dimension disagrees with the track by more than three predictive
   * standard deviations. Both sides of the comparison are squared.
   */
  predicate Disagrees(t: Track, z: Vec6) {
    exists d :: 0 <= d < 6 && DisagreesIn(t, z, d)
  }

  predicate DisagreesIn(t: Track, z: Vec6, d: int)
    requires 0 <= d < 6
  {
    Deviates(z[d], t.mean[d], t.variance[d], Noise(d))
  }

  /** A measurement is beyond three predictive standard deviations of the mean. */
  predicate Deviates(z: real, mean: real, variance: real, r: real) {
    Exceeds(z - mean, variance + r)
  }

  /** `x` is more than three standard deviations, when the square of one is `variance`. */
  predicate Exceeds(x: real, variance: real) {
    x * x > CONFLICT_SIGMA * CONFLICT_SIGMA * variance
  }

  /** The squared test is the test on standard deviations. */
  lemma SquaredTest(x: real, sigma: real, variance: real)
    requires sigma >= 0.0 && sigma * sigma == variance
    ensures Exceeds(x, variance) <==> Abs(x) > CONFLICT_SIGMA * sigma
  {
    SquaresCompare(Abs(x), CONFLICT_SIGMA * sigma);
    assert Abs(x) * Abs(x) == x * x;
    assert (CONFLICT_SIGMA * sigma) * (CONFLICT_SIGMA * sigma) == CONFLICT_SIGMA * CONFLICT_SIGMA * variance;
  }

  lemma SquaresCompare(a: real, b: real)
    requires a >= 0.0 && b >= 0.0
    ensures a > b <==> a * a > b * b
  {
    assert (a - b) * (a + b) == a * a - b * b;
    if a > b {
      PositiveProduct(a - b, a + b);
    } else {
      ProductMonotone(a, b, a);
      ProductMonotone(a, b, b);
    }
  }

  /** Position in metres and velocity in metres per second. */
  function Measurements(s: CanonicalState): Vec6 {
    [s.positionMm.x as real / 1000.0, s.positionMm.y as real / 1000.0, s.positionMm.z as real / 1000.0,
     s.velocityMms.x as real / 1000.0, s.velocityMms.y as real / 1000.0, s.velocityMms.z as real / 1000.0]
  }

  /** What a payload contributes: nothing when it does not decode. */
  function Reading(payload: Bytes): Option<Vec6> {
    match FromCanonicalBytes(payload)
    case Err(_) => None
    case Ok(s) => Some(Measurements(s))
  }

  // ------------------------------------------------------------------
  // The engine
  // ------------------------------------------------------------------

  datatype Conflict = Conflict(subject: string, previous: Evidence, current: Evidence)

  datatype EngineState = EngineState(
    tracks: map<string, Track>,
    incorporated: map<string, set<Id32>>,
    conflicts: seq<Conflict>,
    last: map<string, Evidence>)

  const EMPTY: EngineState := EngineState(map[], map[], [], map[])

  datatype BeliefError = UnverifiedEvidence(cause: EvidenceError) | NonFinite

  /** The ids already recorded for a subject. */
  function Seen(st: EngineState, subject: string): set<Id32> {
    if subject in st.incorporated then st.incorporated[subject] else {}
  }

  function TrackOf(st: EngineState, subject: string): Track {
    if subject in st.tracks then st.tracks[subject] else Uninformative()
  }

  /** The conflict raised by a reading, if any. */
  function Flagged(st: EngineState, e: Evidence, z: Vec6): seq<Conflict> {
    if e.subject in st.tracks && Disagrees(st.tracks[e.subject], z) && e.subject in st.last
    then [Conflict(e.subject, st.last[e.subject], e)] else []
  }

  function Step(c: Crypto, st: EngineState, e: Evidence): (EngineState, Result<bool, BeliefError>) {
    match Verify(c, e)
    case Err(cause) => (st, Err(UnverifiedEvidence(cause)))
    case Ok(_) =>
      var recorded := st.(incorporated := st.incorporated[e.subject := Seen(st, e.subject) + {e.observationId}]);
      if e.observationId in Seen(st, e.subject) then (recorded, Ok(false))
      else
        match Reading(e.payload)
        case None => (recorded, Err(NonFinite))
        case Some(z) =>
          (recorded.(
             tracks := st.tracks[e.subject := Absorb(TrackOf(st, e.subject), z)],
             conflicts := st.conflicts + Flagged(st, e, z),
             last := st.last[e.subject := e]),
           Ok(true))
  }

  /** The engine after incorporating a list of evidence, oldest first, from empty. */
  function Run(c: Crypto, es: seq<Evidence>): EngineState {
    if es == [] then EMPTY else Step(c, Run(c, es[..|es| - 1]), es[|es| - 1]).0
  }

  lemma RunAppend(c: Crypto, es: seq<Evidence>, e: Evidence)
    ensures Run(c, es + [e]) == Step(c, Run(c, es), e).0
  {
    assert (es + [e])[..|es|] == es;
  }

  // ------------------------------------------------------------------
  // A run described by its evidence
  // ------------------------------------------------------------------

  /**
   * The first verified reading under each observation id of a subject; the
   * reading is absent when the payload does not decode.
   */
  function Readings(c: Crypto, es: seq<Evidence>, subject: string): map<Id32, Option<Vec6>> {
    if es == [] then map[]
    else WithReading(c, Readings(c, es[..|es| - 1], subject), es[|es| - 1], subject)
  }

  function WithReading(c: Crypto, m: map<Id32, Option<Vec6>>, e: Evidence, subject: string): map<Id32, Option<Vec6>> {
    if e.subject == subject && Verify(c, e).Ok? && e.observationId !in m
    then m[e.observationId := Reading(e.payload)] else m
  }

  /** Evidence of this subject that verifies and decodes, when the recorded readings do not hold its id. */
  predicate Accepts(c: Crypto, m: map<Id32, Option<Vec6>>, e: Evidence, subject: string) {
    e.subject == subject && Verify(c, e).Ok? && e.observationId !in m && Reading(e.payload).Some?
  }

  /** The evidence that changed the track of a subject: first under its id, verified and decodable. */
  function Accepted(c: Crypto, es: seq<Evidence>, subject: string): (accepted: seq<Evidence>)
    ensures AllDecode(accepted)
    ensures forall a :: a in accepted ==> a.subject == subject
  {
    if es == [] then []
    else
      var (before, e) := (es[..|es| - 1], es[|es| - 1]);
      if Accepts(c, Readings(c, before, subject), e, subject)
      then Accepted(c, before, subject) + [e] else Accepted(c, before, subject)
  }

  predicate AllDecode(es: seq<Evidence>) {
    forall e :: e in es ==> Reading(e.payload).Some?
  }

  /** The measurements of one dimension in a list of decodable evidence. */
  function Column(es: seq<Evidence>, d: int): (zs: seq<real>)
    requires 0 <= d < 6 && AllDecode(es)
    ensures |zs| == |es|
  {
    seq(|es|, i requires 0 <= i < |es| => Reading(es[i].payload).value[d])
  }

  /** The track after absorbing a list of decodable evidence, in closed form. */
  function PosteriorOf(es: seq<Evidence>): Track
    requires AllDecode(es)
  {
    RawTrack.Track(
      seq(6, d requires 0 <= d < 6 => PosteriorMean(|es|, Sum(Column(es, d)), Noise(d))),
      seq(6, d requires 0 <= d < 6 => PosteriorVar(|es|, Noise(d))),
      6 * |es|)
  }

  lemma AbsorbExtendsPosterior(es: seq<Evidence>, e: Evidence)
    requires AllDecode(es) && Reading(e.payload).Some?
    ensures Absorb(PosteriorOf(es), Reading(e.payload).value) == PosteriorOf(es + [e])
  {
    var (absorbed, next) := (Absorb(PosteriorOf(es), Reading(e.payload).value), PosteriorOf(es + [e]));
    forall d | 0 <= d < 6 ensures absorbed.mean[d] == next.mean[d] && absorbed.variance[d] == next.variance[d] {
      AbsorbExtendsDimension(es, e, d);
    }
    assert absorbed.mean == next.mean && absorbed.variance == next.variance;
  }

  lemma AbsorbExtendsDimension(es: seq<Evidence>, e: Evidence, d: int)
    requires AllDecode(es) && Reading(e.payload).Some? && 0 <= d < 6
    ensures var (absorbed, next) := (Absorb(PosteriorOf(es), Reading(e.payload).value), PosteriorOf(es + [e]));
            absorbed.mean[d] == next.mean[d] && absorbed.variance[d] == next.variance[d]
  {
    var (z, n, sum) := (Reading(e.payload).value[d], |es|, Sum(Column(es, d)));
    ColumnAppend(es, e, d);
    PosteriorComponents(es, d, n, sum);
    PosteriorComponents(es + [e], d, n + 1, sum + z);
    UpdateExtendsPosterior(n, sum, z, Noise(d));
    AbsorbedComponents(PosteriorOf(es), Reading(e.payload).value, d,
                       PosteriorMean(n, sum, Noise(d)), PosteriorVar(n, Noise(d)),
                       PosteriorMean(n + 1, sum + z, Noise(d)), PosteriorVar(n + 1, Noise(d)));
  }

  lemma PosteriorComponents(es: seq<Evidence>, d: int, n: nat, sum: real)
    requires AllDecode(es) && 0 <= d < 6 && n == |es| && sum == Sum(Column(es, d))
    ensures PosteriorOf(es).mean[d] == PosteriorMean(n, sum, Noise(d))
    ensures PosteriorOf(es).variance[d] == PosteriorVar(n, Noise(d))
  {
  }

  /** What absorbing a reading does to the components of one dimension. */
  lemma AbsorbedComponents(t: Track, z: Vec6, d: int, mean: real, v: real, nextMean: real, nextV: real)
    requires 0 <= d < 6 && t.mean[d] == mean && t.variance[d] == v
    requires UpdatedMean(mean, v, z[d], Noise(d)) == nextMean && UpdatedVar(v, Noise(d)) == nextV
    ensures Absorb(t, z).mean[d] == nextMean && Absorb(t, z).variance[d] == nextV
  {
  }

  lemma ColumnAppend(es: seq<Evidence>, e: Evidence, d: int)
    requires 0 <= d < 6 && Reading(e.payload).Some? && AllDecode(es)
    ensures Sum(Column(es + [e], d)) == Sum(Column(es, d)) + Reading(e.payload).value[d]
  {
    assert Column(es + [e], d)[..|es|] == Column(es, d);
  }

  lemma PosteriorOfNothing()
    ensures PosteriorOf([]) == Uninformative()
  {
    forall d | 0 <= d < 6
      ensures PosteriorOf([]).mean[d] == 0.0 && PosteriorOf([]).variance[d] == PRIOR_VAR
    {
      assert Column([], d) == [];
      PriorIsPosterior(Noise(d));
    }
    assert PosteriorOf([]).mean == Uninformative().mean && PosteriorOf([]).variance == Uninformative().variance;
  }

  /** The conflicts of a run: an accepted reading against the posterior of the evidence accepted before it. */
  function Conflicts(c: Crypto, es: seq<Evidence>): seq<Conflict> {
    if es == [] then []
    else
      var (before, e) := (es[..|es| - 1], es[|es| - 1]);
      Conflicts(c, before)
      + Raised(c, Accepted(c, before, e.subject), Readings(c, before, e.subject), e)
  }

  /** The conflict raised by evidence that follows these accepted evidences of its subject, if any. */
  function Raised(c: Crypto, accepted: seq<Evidence>, m: map<Id32, Option<Vec6>>, e: Evidence): seq<Conflict>
    requires AllDecode(accepted)
  {
    if Accepts(c, m, e, e.subject) && accepted != [] && Disagrees(PosteriorOf(accepted), Reading(e.payload).value)
    then [Conflict(e.subject, accepted[|accepted| - 1], e)] else []
  }

  /**
   * Every field of the engine state, for one subject, is determined by the
   * readings and the accepted evidence of that subject.
   */
  ghost predicate Describes(accepted: seq<Evidence>, m: map<Id32, Option<Vec6>>, st: EngineState, s: string)
    requires AllDecode(accepted)
  {
    && Seen(st, s) == m.Keys
    && (s in st.tracks <==> accepted != []) && (s in st.last <==> accepted != [])
    && (accepted != [] ==>
          st.tracks[s] == PosteriorOf(accepted) && st.last[s] == accepted[|accepted| - 1] && s in st.incorporated)
  }

  ghost predicate DescribesSubject(c: Crypto, es: seq<Evidence>, st: EngineState, s: string) {
    Describes(Accepted(c, es, s), Readings(c, es, s), st, s)
  }

  /** Incorporating evidence of one subject leaves every other subject as it was. */
  lemma StepKeepsOthers(c: Crypto, st: EngineState, e: Evidence, s: string)
    requires e.subject != s
    ensures var next := Step(c, st, e).0;
            && Seen(next, s) == Seen(st, s) && (s in st.incorporated <==> s in next.incorporated)
            && (s in next.tracks <==> s in st.tracks) && (s in next.last <==> s in st.last)
            && (s in st.tracks ==> next.tracks[s] == st.tracks[s]) && (s in st.last ==> next.last[s] == st.last[s])
  {
  }

  lemma StepKeepsDescription(
      c: Crypto, accepted: seq<Evidence>, m: map<Id32, Option<Vec6>>, st: EngineState, e: Evidence, s: string)
    requires AllDecode(accepted) && Describes(accepted, m, st, s) && e.subject != s
    ensures Describes(accepted, m, Step(c, st, e).0, s)
  {
    StepKeepsOthers(c, st, e, s);
  }

  lemma StepDescribes(
      c: Crypto, accepted: seq<Evidence>, m: map<Id32, Option<Vec6>>, st: EngineState, e: Evidence, s: string)
    requires AllDecode(accepted) && Describes(accepted, m, st, s)
    ensures var next := if Accepts(c, m, e, s) then accepted + [e] else accepted;
            Describes(next, WithReading(c, m, e, s), Step(c, st, e).0, s)
  {
    if e.subject != s {
      StepKeepsDescription(c, accepted, m, st, e, s);
    } else if Accepts(c, m, e, s) {
      StepAccepts(c, accepted, m, st, e);
    } else {
      StepRejects(c, accepted, m, st, e);
    }
  }

  lemma StepAccepts(c: Crypto, accepted: seq<Evidence>, m: map<Id32, Option<Vec6>>, st: EngineState, e: Evidence)
    requires AllDecode(accepted) && Describes(accepted, m, st, e.subject) && Accepts(c, m, e, e.subject)
    ensures Describes(accepted + [e], WithReading(c, m, e, e.subject), Step(c, st, e).0, e.subject)
  {
    assert Absorb(TrackOf(st, e.subject), Reading(e.payload).value) == PosteriorOf(accepted + [e]) by {
      AbsorbExtendsPosterior(accepted, e);
      PosteriorOfNothing();
    }
  }

  lemma StepRejects(c: Crypto, accepted: seq<Evidence>, m: map<Id32, Option<Vec6>>, st: EngineState, e: Evidence)
    requires AllDecode(accepted) && Describes(accepted, m, st, e.subject) && !Accepts(c, m, e, e.subject)
    ensures Describes(accepted, WithReading(c, m, e, e.subject), Step(c, st, e).0, e.subject)
  {
  }

  lemma StepRaises(c: Crypto, accepted: seq<Evidence>, m: map<Id32, Option<Vec6>>, st: EngineState, e: Evidence)
    requires AllDecode(accepted) && Describes(accepted, m, st, e.subject)
    ensures Step(c, st, e).0.conflicts == st.conflicts + Raised(c, accepted, m, e)
  {
  }

  lemma {:induction false} RunDescribesSubject(c: Crypto, es: seq<Evidence>, s: string)
    ensures DescribesSubject(c, es, Run(c, es), s)
    decreases |es|
  {
    if es != [] {
      var (before, e) := (es[..|es| - 1], es[|es| - 1]);
      RunDescribesSubject(c, before, s);
      StepDescribes(c, Accepted(c, before, s), Readings(c, before, s), Run(c, before), e, s);
    }
  }

  lemma {:induction false} RunHasConflicts(c: Crypto, es: seq<Evidence>)
    ensures Run(c, es).conflicts == Conflicts(c, es)
    decreases |es|
  {
    if es != [] {
      var (before, e) := (es[..|es| - 1], es[|es| - 1]);
      RunHasConflicts(c, before);
      RunDescribesSubject(c, before, e.subject);
      StepRaises(c, Accepted(c, before, e.subject), Readings(c, before, e.subject), Run(c, before), e);
    }
  }

  /** The closed form of one dimension after `n` measurements with noise `r`, cross-multiplied, with its bounds. */
  ghost predicate ClosedForm(mean: real, variance: real, n: nat, sum: real, r: real) {
    && n > 0
    && variance * (r + n as real * PRIOR_VAR) == PRIOR_VAR * r
    && mean * (r + n as real * PRIOR_VAR) == PRIOR_VAR * sum
    && 0.0 < variance < r / n as real
  }

  lemma PosteriorHasClosedForm(n: nat, sum: real, r: real)
    requires n > 0 && r > 0.0
    ensures ClosedForm(PosteriorMean(n, sum, r), PosteriorVar(n, r), n, sum, r)
  {
    PosteriorMeanEquation(n, sum, r);
    VarianceShrinks(n, r);
  }

  /** The mean lies in the hull of zero and the measurements. */
  ghost predicate InHull(mean: real, zs: seq<real>) {
    forall low, high :: Between(zs + [0.0], low, high) ==> low <= mean <= high
  }

  predicate Between(zs: seq<real>, low: real, high: real) {
    forall i :: 0 <= i < |zs| ==> low <= zs[i] <= high
  }

  lemma PosteriorIsInHull(zs: seq<real>, r: real)
    requires r > 0.0
    ensures InHull(PosteriorMean(|zs|, Sum(zs), r), zs)
  {
    forall low, high | Between(zs + [0.0], low, high)
      ensures low <= PosteriorMean(|zs|, Sum(zs), r) <= high
    {
      assert (zs + [0.0])[|zs|] == 0.0;
      assert forall i :: 0 <= i < |zs| ==> zs[i] == (zs + [0.0])[i];
      MeanInHull(zs, r, low, high);
    }
  }

  /**
   * After every run, errors included, each dimension of a tracked subject has
   * the closed form of the subject's accepted measurements and its mean lies in
   * the hull of zero and these; the track counts six updates for each of them.
   */
  lemma RunHasClosedForm(c: Crypto, es: seq<Evidence>, s: string, d: int)
    requires 0 <= d < 6 && s in Run(c, es).tracks
    ensures var (t, accepted) := (Run(c, es).tracks[s], Accepted(c, es, s));
            && ClosedForm(t.mean[d], t.variance[d], |accepted|, Sum(Column(accepted, d)), Noise(d))
            && InHull(t.mean[d], Column(accepted, d))
            && t.updates == 6 * |accepted|
  {
    RunDescribesSubject(c, es, s);
    var accepted := Accepted(c, es, s);
    var zs := Column(accepted, d);
    PosteriorComponents(accepted, d, |accepted|, Sum(zs));
    PosteriorHasClosedForm(|accepted|, Sum(zs), Noise(d));
    PosteriorIsInHull(zs, Noise(d));
  }
}
