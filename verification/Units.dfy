/**
 * The units of the system: which number of an observation ends up in which
 * dimension of a track, and in which unit. Everything here is stated on the
 * fields of a state or an observation and on plain numbers.
 */
module Units {
  import opened Basics
  import opened Core
  import opened Attitude
  import opened Evidence
  import opened Mql
  import opened Gaussian
  import opened Belief
  import opened Sightings
  import opened Pipeline

  // ------------------------------------------------------------------
  // One state
  // ------------------------------------------------------------------

  function PositionX(s: CanonicalState): int { s.positionMm.x }
  function PositionY(s: CanonicalState): int { s.positionMm.y }
  function PositionZ(s: CanonicalState): int { s.positionMm.z }
  function VelocityX(s: CanonicalState): int { s.velocityMms.x }
  function VelocityY(s: CanonicalState): int { s.velocityMms.y }
  function VelocityZ(s: CanonicalState): int { s.velocityMms.z }

  /** The six dimensions are the position in metres and the velocity in metres per second. */
  predicate InMetres(z: Vec6, s: CanonicalState) {
    && z[0] * 1000.0 == s.positionMm.x as real && z[1] * 1000.0 == s.positionMm.y as real
    && z[2] * 1000.0 == s.positionMm.z as real && z[3] * 1000.0 == s.velocityMms.x as real
    && z[4] * 1000.0 == s.velocityMms.y as real && z[5] * 1000.0 == s.velocityMms.z as real
  }

  /** The reading of a state's bytes has its position and velocity, in this order and unit. */
  lemma ReadingIsInMetres(s: CanonicalState)
    ensures Reading(CanonicalBytes(s)).Some? && InMetres(Reading(CanonicalBytes(s)).value, s)
  {
    CanonicalRoundTrip(s, []);
  }

  /** The same for every payload that decodes. */
  lemma PayloadIsInMetres(payload: Bytes)
    ensures Reading(payload).Some? <==> FromCanonicalBytes(payload).Ok?
    ensures Reading(payload).Some? ==> InMetres(Reading(payload).value, FromCanonicalBytes(payload).value)
  {
  }

  // ------------------------------------------------------------------
  // Tracks, on integer fields
  // ------------------------------------------------------------------

  /**
   * A mean and variance that fuse `n` measurements with noise `r` and the prior
   * of mean 0 and variance 10^9; `sum` is in thousandths of the unit of the mean.
   */
  ghost predicate Fused(mean: real, variance: real, n: nat, sum: int, r: real) {
    && mean * (r + n as real * 1_000_000_000.0) * 1000.0 == 1_000_000_000.0 * sum as real
    && variance * (r + n as real * 1_000_000_000.0) == 1_000_000_000.0 * r
  }

  /** The totals of the six fields, in millimetres and millimetres per second. */
  datatype Totals = Totals(
    positionX: int, positionY: int, positionZ: int,
    velocityX: int, velocityY: int, velocityZ: int)

  /**
   * Positions are fused with noise 25 and velocities with noise 1, each from
   * its own field; six updates are counted for each state.
   */
  ghost predicate FusedTrack(t: Track, n: nat, totals: Totals) {
    && Fused(t.mean[0], t.variance[0], n, totals.positionX, 25.0)
    && Fused(t.mean[1], t.variance[1], n, totals.positionY, 25.0)
    && Fused(t.mean[2], t.variance[2], n, totals.positionZ, 25.0)
    && Fused(t.mean[3], t.variance[3], n, totals.velocityX, 1.0)
    && Fused(t.mean[4], t.variance[4], n, totals.velocityY, 1.0)
    && Fused(t.mean[5], t.variance[5], n, totals.velocityZ, 1.0)
    && t.updates == 6 * n
  }

  lemma PosteriorIsFused(n: nat, sum: real, whole: int, r: real)
    requires r > 0.0 && sum * 1000.0 == whole as real
    ensures Fused(PosteriorMean(n, sum, r), PosteriorVar(n, r), n, whole, r)
  {
    PosteriorMeanEquation(n, sum, r);
    QuotientEquation(PosteriorVar(n, r), PRIOR_VAR * r, Weight(n, r));
    ScaledEquation(PosteriorMean(n, sum, r), Weight(n, r), sum);
  }

  lemma ScaledEquation(mean: real, w: real, sum: real)
    requires mean * w == PRIOR_VAR * sum
    ensures mean * w * 1000.0 == 1_000_000_000.0 * (sum * 1000.0)
  {
  }

  // ------------------------------------------------------------------
  // Sums over the evidence of a run
  // ------------------------------------------------------------------

  /** The sum of one field over the states that some decodable evidence carries. */
  ghost function FieldSum(es: seq<Evidence>, field: CanonicalState -> int): int
    requires AllDecode(es)
  {
    if es == [] then 0
    else
      var (before, e) := (es[..|es| - 1], es[|es| - 1]);
      FieldSum(before, field) + field(FromCanonicalBytes(e.payload).value)
  }

  ghost function FieldTotals(es: seq<Evidence>): Totals
    requires AllDecode(es)
  {
    Totals(FieldSum(es, PositionX), FieldSum(es, PositionY), FieldSum(es, PositionZ),
           FieldSum(es, VelocityX), FieldSum(es, VelocityY), FieldSum(es, VelocityZ))
  }

  /** The dimension measures the field, in thousandths. */
  ghost predicate Measures(d: int, field: CanonicalState -> int)
    requires 0 <= d < 6
  {
    forall s: CanonicalState :: Measurements(s)[d] * 1000.0 == field(s) as real
  }

  lemma DimensionsMeasureFields()
    ensures Measures(0, PositionX) && Measures(1, PositionY) && Measures(2, PositionZ)
    ensures Measures(3, VelocityX) && Measures(4, VelocityY) && Measures(5, VelocityZ)
  {
  }

  lemma {:induction false} ColumnSumsField(es: seq<Evidence>, d: int, field: CanonicalState -> int)
    requires 0 <= d < 6 && AllDecode(es) && Measures(d, field)
    ensures Sum(Column(es, d)) * 1000.0 == FieldSum(es, field) as real
    decreases |es|
  {
    if es != [] {
      var (before, e) := (es[..|es| - 1], es[|es| - 1]);
      ColumnSumsField(before, d, field);
      ColumnAppend(before, e, d);
      assert before + [e] == es;
    }
  }

  lemma PosteriorDimensionIsFused(es: seq<Evidence>, d: int, field: CanonicalState -> int, r: real)
    requires 0 <= d < 6 && AllDecode(es) && Measures(d, field) && Noise(d) == r
    ensures Fused(PosteriorOf(es).mean[d], PosteriorOf(es).variance[d], |es|, FieldSum(es, field), r)
  {
    ColumnSumsField(es, d, field);
    PosteriorComponents(es, d, |es|, Sum(Column(es, d)));
    PosteriorIsFused(|es|, Sum(Column(es, d)), FieldSum(es, field), r);
  }

  /**
   * After every run, errors included, the track of a subject fuses the integer
   * fields of the states that its accepted evidence carries.
   */
  lemma RunFusesFields(c: Crypto, es: seq<Evidence>, s: string)
    requires s in Run(c, es).tracks
    ensures var accepted := Accepted(c, es, s);
            FusedTrack(Run(c, es).tracks[s], |accepted|, FieldTotals(accepted))
  {
    var accepted := Accepted(c, es, s);
    RunDescribesSubject(c, es, s);
    DimensionsMeasureFields();
    PosteriorDimensionIsFused(accepted, 0, PositionX, 25.0);
    PosteriorDimensionIsFused(accepted, 1, PositionY, 25.0);
    PosteriorDimensionIsFused(accepted, 2, PositionZ, 25.0);
    PosteriorDimensionIsFused(accepted, 3, VelocityX, 1.0);
    PosteriorDimensionIsFused(accepted, 4, VelocityY, 1.0);
    PosteriorDimensionIsFused(accepted, 5, VelocityZ, 1.0);
  }

  // ------------------------------------------------------------------
  // Sums over sets of states
  // ------------------------------------------------------------------

  /** The sum of one field over a set of states. */
  ghost function FieldSumOver(states: set<CanonicalState>, field: CanonicalState -> int): int {
    if states == {} then 0
    else
      var s :| s in states;
      field(s) + FieldSumOver(states - {s}, field)
  }

  ghost function StateTotals(states: set<CanonicalState>): Totals {
    Totals(FieldSumOver(states, PositionX), FieldSumOver(states, PositionY), FieldSumOver(states, PositionZ),
           FieldSumOver(states, VelocityX), FieldSumOver(states, VelocityY), FieldSumOver(states, VelocityZ))
  }

  lemma {:induction false} FieldSumRemoves(states: set<CanonicalState>, s: CanonicalState, field: CanonicalState -> int)
    requires s in states
    ensures FieldSumOver(states, field) == field(s) + FieldSumOver(states - {s}, field)
    decreases states
  {
    var pick :| pick in states && FieldSumOver(states, field) == field(pick) + FieldSumOver(states - {pick}, field);
    if pick != s {
      FieldSumRemoves(states - {pick}, s, field);
      FieldSumRemoves(states - {s}, pick, field);
      assert states - {pick} - {s} == states - {s} - {pick};
    }
  }

  lemma {:induction false} StateSumIsFieldSum(states: set<CanonicalState>, d: int, field: CanonicalState -> int)
    requires 0 <= d < 6 && Measures(d, field)
    ensures StateSum(states, d) * 1000.0 == FieldSumOver(states, field) as real
    decreases states
  {
    if states != {} {
      var s :| s in states && StateSum(states, d) == Measurements(s)[d] + StateSum(states - {s}, d);
      StateSumIsFieldSum(states - {s}, d, field);
      FieldSumRemoves(states, s, field);
    }
  }

  lemma BatchDimensionIsFused(states: set<CanonicalState>, d: int, field: CanonicalState -> int, r: real)
    requires 0 <= d < 6 && Measures(d, field) && Noise(d) == r
    ensures Fused(BatchOfStates(states).mean[d], BatchOfStates(states).variance[d], |states|,
                  FieldSumOver(states, field), r)
  {
    StateSumIsFieldSum(states, d, field);
    PosteriorIsFused(|states|, StateSum(states, d), FieldSumOver(states, field), r);
  }

  lemma BatchIsFused(states: set<CanonicalState>)
    ensures FusedTrack(BatchOfStates(states), |states|, StateTotals(states))
  {
    DimensionsMeasureFields();
    BatchDimensionIsFused(states, 0, PositionX, 25.0);
    BatchDimensionIsFused(states, 1, PositionY, 25.0);
    BatchDimensionIsFused(states, 2, PositionZ, 25.0);
    BatchDimensionIsFused(states, 3, VelocityX, 1.0);
    BatchDimensionIsFused(states, 4, VelocityY, 1.0);
    BatchDimensionIsFused(states, 5, VelocityZ, 1.0);
  }

  /** End to end, the track of every subject fuses the integer fields of the set of its states that arrived. */
  lemma EndToEndFusesFields(w: Sender, sent: seq<Shipment>, arrivals: seq<Message>, subject: string)
    requires SoundSigning(w.crypto) && CollisionFreeShipments(w.crypto, sent) && Carried(w, sent, arrivals)
    ensures Recoverable(arrivals)
    ensures var (tracks, states) := (Run(w.crypto, Recovered(arrivals)).tracks,
                                     StatesOf(ArrivedSightings(w, sent, arrivals), subject));
            && (subject in tracks <==> states != {})
            && (subject in tracks ==> FusedTrack(tracks[subject], |states|, StateTotals(states)))
  {
    EndToEnd(w, sent, arrivals);
    BatchIsFused(StatesOf(ArrivedSightings(w, sent, arrivals), subject));
  }

  // ------------------------------------------------------------------
  // From the raw observation to the reading
  // ------------------------------------------------------------------

  /** The number that is read is within half a thousandth of the raw one, in the range of the 64-bit fields. */
  predicate ReadClosely(read: real, raw: real) {
    -9_223_372_036_854_775.0 <= raw <= 9_223_372_036_854_775.0 ==> -0.0005 <= read - raw <= 0.0005
  }

  lemma QuantizedIsReadClosely(k: int, read: real, raw: real)
    requires QuantizedFrom(k, 1000.0 * raw) && read * 1000.0 == k as real
    ensures ReadClosely(read, raw)
  {
  }

  /**
   * From the raw observation through canonical bytes, evidence, any relays, the
   * message and its recovery: the reading that an engine fuses is the raw
   * position and velocity, in order, to within half a millimetre (per second),
   * and the recovered evidence was observed when the observation was.
   */
  lemma ObservationIsRead(w: Sender, raw: PhysicalObservation, norm: real, s: Shipment, m: Message)
    requires SoundSigning(w.crypto) && IsMessageOf(w, s, m)
    requires AllFinite(raw) && IsNorm(Values(raw.attitude), norm) && norm > MIN_POSITIVE
    requires Canonicalize(raw, norm) == Ok(s.origin.state)
    ensures FromMessage(m).Ok? && Reading(FromMessage(m).value.payload).Some?
    ensures var (z, p, v) := (Reading(FromMessage(m).value.payload).value, raw.positionM, raw.velocityMs);
            && ReadClosely(z[0], p.x.value) && ReadClosely(z[1], p.y.value) && ReadClosely(z[2], p.z.value)
            && ReadClosely(z[3], v.x.value) && ReadClosely(z[4], v.y.value) && ReadClosely(z[5], v.z.value)
    ensures FromMessage(m).value.observedAtNanos == raw.observedAtNanos
  {
    RecoveredShipment(w, s, m);
    MintedProjection(w.crypto, w.grammar, s, w.domain);
    MintVerifies(w.crypto, s);
    CanonicalizeQuantizes(raw, norm);
    ReadingIsInMetres(s.origin.state);
    CanonicalRoundTrip(s.origin.state, []);
    ReadFields(raw, s.origin.state, Measurements(s.origin.state));
  }

  lemma ReadFields(raw: PhysicalObservation, s: CanonicalState, z: Vec6)
    requires AllFinite(raw) && InMetres(z, s)
    requires && QuantizedFrom(s.positionMm.x, 1000.0 * raw.positionM.x.value)
             && QuantizedFrom(s.positionMm.y, 1000.0 * raw.positionM.y.value)
             && QuantizedFrom(s.positionMm.z, 1000.0 * raw.positionM.z.value)
    requires && QuantizedFrom(s.velocityMms.x, 1000.0 * raw.velocityMs.x.value)
             && QuantizedFrom(s.velocityMms.y, 1000.0 * raw.velocityMs.y.value)
             && QuantizedFrom(s.velocityMms.z, 1000.0 * raw.velocityMs.z.value)
    ensures var (p, v) := (raw.positionM, raw.velocityMs);
            && ReadClosely(z[0], p.x.value) && ReadClosely(z[1], p.y.value) && ReadClosely(z[2], p.z.value)
            && ReadClosely(z[3], v.x.value) && ReadClosely(z[4], v.y.value) && ReadClosely(z[5], v.z.value)
  {
    QuantizedIsReadClosely(s.positionMm.x, z[0], raw.positionM.x.value);
    QuantizedIsReadClosely(s.positionMm.y, z[1], raw.positionM.y.value);
    QuantizedIsReadClosely(s.positionMm.z, z[2], raw.positionM.z.value);
    QuantizedIsReadClosely(s.velocityMms.x, z[3], raw.velocityMs.x.value);
    QuantizedIsReadClosely(s.velocityMms.y, z[4], raw.velocityMs.y.value);
    QuantizedIsReadClosely(s.velocityMms.z, z[5], raw.velocityMs.z.value);
  }

  // ------------------------------------------------------------------
  // The conflict test, in standard deviations
  // ------------------------------------------------------------------

  /** `sigmas` are the predictive standard deviations: the root of variance plus noise 25 or 1. */
  ghost predicate PredictiveSigmas(t: Track, sigmas: Vec6) {
    forall d :: 0 <= d < 6 ==>
      sigmas[d] >= 0.0 && sigmas[d] * sigmas[d] == t.variance[d] + if d < 3 then 25.0 else 1.0
  }

  /**
   * A reading disagrees with a track exactly when in some dimension it is more
   * than 3 standard deviations from the mean.
   */
  lemma DisagreesBeyondThreeSigma(t: Track, z: Vec6, sigmas: Vec6)
    requires PredictiveSigmas(t, sigmas)
    ensures Disagrees(t, z) <==> exists d :: 0 <= d < 6 && Abs(z[d] - t.mean[d]) > 3.0 * sigmas[d]
  {
    forall d | 0 <= d < 6 ensures DisagreesIn(t, z, d) <==> Abs(z[d] - t.mean[d]) > 3.0 * sigmas[d] {
      SquaredTest(z[d] - t.mean[d], sigmas[d], t.variance[d] + Noise(d));
    }
  }
}
