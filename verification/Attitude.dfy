/**
 * seven-core: quantisation, quaternion canonicalisation and the pipeline from a
 * raw observation to a `CanonicalState`.
 *
 * Floats are real numbers here; `Rounding` treats the second quantisation under
 * floating-point error. A square root is a parameter `norm` constrained by
 * `IsNorm`.
 */
module Attitude {
  import opened Basics
  import opened Core
  import opened Powers

  // ------------------------------------------------------------------
  // Quantisation
  // ------------------------------------------------------------------

  const QUATERNION_SCALE: int := 1_000_000
  const POSITION_SCALE: int := 1_000
  const VELOCITY_SCALE: int := 1_000

  /** roundTiesToEven of section 4.3.1 of IEEE 754-2019. */
  function RoundTiesEven(r: real): (n: int)
    ensures -0.5 <= n as real - r <= 0.5
  {
    var below := r.Floor;
    var fraction := r - below as real;
    if fraction < 0.5 || (fraction == 0.5 && below % 2 == 0) then below else below + 1
  }

  function SaturateI64(n: int): i64 {
    if n < I64_MIN then I64_MIN else if n > I64_MAX then I64_MAX else n
  }

  /** The cast of a rounded product to `i64`. */
  function QuantizeProduct(product: real): i64 {
    SaturateI64(RoundTiesEven(product))
  }

  function Quantize(v: real, scale: int): i64 {
    QuantizeProduct(v * scale as real)
  }

  /** A value strictly within half a unit of an integer rounds to it. */
  lemma RoundsToNearest(r: real, n: int)
    requires Abs(r - n as real) < 0.5
    ensures RoundTiesEven(r) == n
  {
    var m := RoundTiesEven(r);
    assert -1.0 < m as real - n as real < 1.0;
    assert (m - n) as real == m as real - n as real;
  }

  /** A tie goes to the even neighbour. */
  lemma TiesGoToEven(n: int)
    requires n % 2 == 0
    ensures RoundTiesEven(n as real + 0.5) == n && RoundTiesEven(n as real - 0.5) == n
  {
    assert (n as real + 0.5).Floor == n && (n as real - 0.5).Floor == n - 1;
  }

  /** `k` is the 64-bit integer nearest to `p`: within half a unit in range, and the end of the range beyond it. */
  predicate QuantizedFrom(k: int, p: real) {
    && (I64_MIN as real <= p <= I64_MAX as real ==> -0.5 <= k as real - p <= 0.5)
    && (p > I64_MAX as real ==> k == I64_MAX) && (p < I64_MIN as real ==> k == I64_MIN)
  }

  lemma QuantizeIsNearest(v: real, scale: int)
    ensures QuantizedFrom(Quantize(v, scale), v * scale as real)
  {
    SaturatedIsNearest(v * scale as real);
  }

  lemma SaturatedIsNearest(p: real)
    ensures QuantizedFrom(QuantizeProduct(p), p)
  {
    var n := RoundTiesEven(p);
    if n > I64_MAX {
      assert n as real >= I64_MAX as real + 1.0;
    }
    if n < I64_MIN {
      assert n as real <= I64_MIN as real - 1.0;
    }
    if p > I64_MAX as real {
      assert n as real >= I64_MAX as real - 0.5;
      assert n >= I64_MAX;
    }
    if p < I64_MIN as real {
      assert n as real <= I64_MIN as real + 0.5;
      assert n <= I64_MIN;
    }
  }

  // ------------------------------------------------------------------
  // Quaternions
  // ------------------------------------------------------------------

  datatype Float = NaN | Inf | Finite(value: real)

  datatype Quaternion = Quaternion(w: real, x: real, y: real, z: real)

  datatype RawQuaternion = RawQuaternion(w: Float, x: Float, y: Float, z: Float)

  datatype CanonicalError = NotFinite(field: string) | ZeroNormQuaternion

  /** `f64::MIN_POSITIVE`, the smallest norm that is not rejected being above it. */
  ghost const MIN_POSITIVE: real := Halved(1.0, 1022)

  lemma MinPositiveIsSmall()
    ensures 0.0 < MIN_POSITIVE < 1.0
  {
    HalvedPositive(0.5, 1021);
  }

  function Dot(p: Quaternion, q: Quaternion): real {
    p.w * q.w + p.x * q.x + p.y * q.y + p.z * q.z
  }

  function Scale(c: real, q: Quaternion): Quaternion {
    Quaternion(c * q.w, c * q.x, c * q.y, c * q.z)
  }

  /** `norm` is the non-negative square root of the sum of squares. */
  ghost predicate IsNorm(q: Quaternion, norm: real) {
    norm >= 0.0 && norm * norm == Dot(q, q)
  }

  /** The hemisphere sign: the first strictly nonzero component decides. */
  function Sign(q: Quaternion): real {
    if q.w > 0.0 then 1.0
    else if q.w < 0.0 then -1.0
    else if q.x > 0.0 then 1.0
    else if q.x < 0.0 then -1.0
    else if q.y > 0.0 then 1.0
    else if q.y < 0.0 then -1.0
    else if q.z > 0.0 then 1.0
    else -1.0
  }

  function Divided(q: Quaternion, norm: real): Quaternion
    requires norm != 0.0
  {
    Quaternion(q.w / norm, q.x / norm, q.y / norm, q.z / norm)
  }

  /** `canonicalized` on finite components. */
  ghost function Canonicalized(q: Quaternion, norm: real): Result<Quaternion, CanonicalError>
    requires IsNorm(q, norm)
  {
    MinPositiveIsSmall();
    if norm <= MIN_POSITIVE then Err(ZeroNormQuaternion)
    else
      var unit := Divided(q, norm);
      Ok(Scale(Sign(unit), unit))
  }

  /** The first nonzero component is positive. */
  predicate InHemisphere(q: Quaternion) {
    q.w > 0.0 || (q.w == 0.0 && (q.x > 0.0 || (q.x == 0.0 && (q.y > 0.0 || (q.y == 0.0 && q.z > 0.0)))))
  }

  // ------------------------------------------------------------------
  // Canonicalisation is a complete invariant of the rotation
  // ------------------------------------------------------------------

  /** Division by the norm as multiplication by its inverse. */
  lemma DividedIsScaled(q: Quaternion, norm: real)
    requires norm > 0.0
    ensures Divided(q, norm) == Scale(1.0 / norm, q)
    ensures q == Scale(norm, Divided(q, norm))
  {
  }

  lemma SquareOfProduct(c: real, a: real)
    ensures (c * a) * (c * a) == c * c * (a * a)
  {
  }

  lemma DotOfScaled(c: real, q: Quaternion)
    ensures Dot(Scale(c, q), Scale(c, q)) == c * c * Dot(q, q)
  {
    SquareOfProduct(c, q.w);
    SquareOfProduct(c, q.x);
    SquareOfProduct(c, q.y);
    SquareOfProduct(c, q.z);
  }

  lemma ScaleTwice(a: real, b: real, q: Quaternion)
    ensures Scale(a, Scale(b, q)) == Scale(a * b, q)
  {
  }

  /**
   * A canonicalised quaternion has unit norm and lies in the canonical
   * hemisphere; canonicalising it again changes nothing.
   */
  lemma CanonicalizedIsUnit(q: Quaternion, norm: real)
    requires IsNorm(q, norm) && norm > MIN_POSITIVE
    ensures Canonicalized(q, norm).Ok?
    ensures var u := Canonicalized(q, norm).value;
            IsNorm(u, 1.0) && InHemisphere(u) && Canonicalized(u, 1.0) == Ok(u)
  {
    MinPositiveIsSmall();
    var unit := Divided(q, norm);
    DividedIsScaled(q, norm);
    DotOfScaled(1.0 / norm, q);
    UnitSquare(norm);
    assert Dot(unit, unit) == 1.0;
    DotOfScaled(Sign(unit), unit);
  }

  lemma UnitSquare(norm: real)
    requires norm > 0.0
    ensures (1.0 / norm) * (1.0 / norm) * (norm * norm) == 1.0
  {
    var inverse := 1.0 / norm;
    assert inverse * norm == 1.0;
    assert inverse * inverse * (norm * norm) == (inverse * norm) * (inverse * norm);
  }

  /** Two quaternions have the same canonical form exactly when one is a nonzero multiple of the other. */
  lemma CanonicalizedIsCompleteInvariant(p: Quaternion, pNorm: real, q: Quaternion, qNorm: real)
    requires IsNorm(p, pNorm) && pNorm > MIN_POSITIVE
    requires IsNorm(q, qNorm) && qNorm > MIN_POSITIVE
    ensures Canonicalized(p, pNorm) == Canonicalized(q, qNorm) <==> exists c :: c != 0.0 && p == Scale(c, q)
  {
    if Canonicalized(p, pNorm) == Canonicalized(q, qNorm) {
      EqualFormsAreMultiples(p, pNorm, q, qNorm);
    }
    if c :| c != 0.0 && p == Scale(c, q) {
      MultiplesHaveEqualForms(c, p, pNorm, q, qNorm);
    }
  }

  lemma EqualFormsAreMultiples(p: Quaternion, pNorm: real, q: Quaternion, qNorm: real)
    requires IsNorm(p, pNorm) && pNorm > MIN_POSITIVE
    requires IsNorm(q, qNorm) && qNorm > MIN_POSITIVE
    requires Canonicalized(p, pNorm) == Canonicalized(q, qNorm)
    ensures exists c :: c != 0.0 && p == Scale(c, q)
  {
    MinPositiveIsSmall();
    var (pUnit, qUnit) := (Divided(p, pNorm), Divided(q, qNorm));
    DividedIsScaled(p, pNorm);
    DividedIsScaled(q, qNorm);
    var c := Sign(pUnit) * Sign(qUnit);
    SignsDivideOut(pUnit, qUnit);
    ScaleTwice(pNorm, c, qUnit);
    ScaleTwice(pNorm * c, 1.0 / qNorm, q);
    assert pNorm * c * (1.0 / qNorm) != 0.0;
  }

  lemma SignsDivideOut(u: Quaternion, v: Quaternion)
    requires Scale(Sign(u), u) == Scale(Sign(v), v)
    ensures u == Scale(Sign(u) * Sign(v), v)
  {
  }

  lemma MultiplesHaveEqualForms(c: real, p: Quaternion, pNorm: real, q: Quaternion, qNorm: real)
    requires c != 0.0 && p == Scale(c, q)
    requires IsNorm(p, pNorm) && pNorm > MIN_POSITIVE
    requires IsNorm(q, qNorm) && qNorm > MIN_POSITIVE
    ensures Canonicalized(p, pNorm) == Canonicalized(q, qNorm)
  {
    MinPositiveIsSmall();
    CanonicalizedIsUnit(q, qNorm);
    NormsOfMultiples(c, p, pNorm, q, qNorm);
    var s := if c > 0.0 then 1.0 else -1.0;
    SignedNorm(c, s, pNorm, qNorm);
    UnitOfMultiple(c, s, p, pNorm, q, qNorm);
    SignFlipsCancel(s, Divided(q, qNorm));
  }

  lemma NormsOfMultiples(c: real, p: Quaternion, pNorm: real, q: Quaternion, qNorm: real)
    requires c != 0.0 && p == Scale(c, q)
    requires IsNorm(p, pNorm) && pNorm > 0.0 && IsNorm(q, qNorm) && qNorm > 0.0
    ensures pNorm == Abs(c) * qNorm
  {
    var square := Dot(q, q);
    assert Dot(p, p) == c * c * square by {
      DotOfScaled(c, q);
    }
    NormOfMultiple(c, pNorm, qNorm, square);
  }

  lemma SignedNorm(c: real, s: real, pNorm: real, qNorm: real)
    requires pNorm == Abs(c) * qNorm && c != 0.0 && s == if c > 0.0 then 1.0 else -1.0
    ensures c * qNorm == s * pNorm
  {
  }

  lemma UnitOfMultiple(c: real, s: real, p: Quaternion, pNorm: real, q: Quaternion, qNorm: real)
    requires p == Scale(c, q) && pNorm > 0.0 && qNorm > 0.0 && c * qNorm == s * pNorm
    ensures Divided(p, pNorm) == Scale(s, Divided(q, qNorm))
  {
    QuotientOfMultiple(c, s, pNorm, qNorm, q.w, p.w);
    QuotientOfMultiple(c, s, pNorm, qNorm, q.x, p.x);
    QuotientOfMultiple(c, s, pNorm, qNorm, q.y, p.y);
    QuotientOfMultiple(c, s, pNorm, qNorm, q.z, p.z);
  }

  lemma QuotientOfMultiple(c: real, s: real, pNorm: real, qNorm: real, a: real, b: real)
    requires pNorm > 0.0 && qNorm > 0.0 && c * qNorm == s * pNorm && b == c * a
    ensures b / pNorm == s * (a / qNorm)
  {
    var u := a / qNorm;
    assert c * a == (c * qNorm) * u;
    assert (s * pNorm) * u == (s * u) * pNorm;
  }

  lemma SignFlipsCancel(s: real, u: Quaternion)
    requires s == 1.0 || s == -1.0
    requires u.w != 0.0 || u.x != 0.0 || u.y != 0.0 || u.z != 0.0
    ensures Scale(Sign(Scale(s, u)), Scale(s, u)) == Scale(Sign(u), u)
  {
  }

  lemma NormOfMultiple(c: real, pNorm: real, qNorm: real, square: real)
    requires c != 0.0 && pNorm > 0.0 && qNorm > 0.0
    requires qNorm * qNorm == square && pNorm * pNorm == c * c * square
    ensures pNorm == Abs(c) * qNorm
  {
    var m := Abs(c) * qNorm;
    assert m > 0.0;
    assert m * m == c * c * (qNorm * qNorm) by {
      assert Abs(c) * Abs(c) == c * c;
      assert m * m == (Abs(c) * Abs(c)) * (qNorm * qNorm);
    }
    assert (pNorm - m) * (pNorm + m) == 0.0;
  }

  // ------------------------------------------------------------------
  // The pipeline
  // ------------------------------------------------------------------

  function ToCanonical(q: Quaternion): CanonicalQuaternion {
    CanonicalQuaternion(
      Quantize(q.w, QUATERNION_SCALE), Quantize(q.x, QUATERNION_SCALE),
      Quantize(q.y, QUATERNION_SCALE), Quantize(q.z, QUATERNION_SCALE))
  }

  datatype RawVec3 = RawVec3(x: Float, y: Float, z: Float)

  datatype PhysicalObservation = PhysicalObservation(
    positionM: RawVec3,
    velocityMs: RawVec3,
    attitude: RawQuaternion,
    observedAtNanos: i64)

  predicate FiniteVec(v: RawVec3) {
    v.x.Finite? && v.y.Finite? && v.z.Finite?
  }

  predicate FiniteQuaternion(q: RawQuaternion) {
    q.w.Finite? && q.x.Finite? && q.y.Finite? && q.z.Finite?
  }

  function Values(q: RawQuaternion): Quaternion
    requires FiniteQuaternion(q)
  {
    Quaternion(q.w.value, q.x.value, q.y.value, q.z.value)
  }

  function QuantizeVec(v: RawVec3, scale: int): Vec3
    requires FiniteVec(v)
  {
    Vec3(Quantize(v.x.value, scale), Quantize(v.y.value, scale), Quantize(v.z.value, scale))
  }

  /** The first value of the list that is not finite. */
  function FirstNotFinite(fields: seq<(Float, string)>): Option<string> {
    if fields == [] then None
    else if fields[0].0.Finite? then FirstNotFinite(fields[1..])
    else Some(fields[0].1)
  }

  /** Every validated field, in the order in which it is checked. */
  function ValidatedFields(raw: PhysicalObservation): seq<(Float, string)> {
    [(raw.positionM.x, "position.x"), (raw.positionM.y, "position.y"), (raw.positionM.z, "position.z"),
     (raw.velocityMs.x, "velocity.x"), (raw.velocityMs.y, "velocity.y"), (raw.velocityMs.z, "velocity.z"),
     (raw.attitude.w, "quaternion.w"), (raw.attitude.x, "quaternion.x"),
     (raw.attitude.y, "quaternion.y"), (raw.attitude.z, "quaternion.z")]
  }

  predicate AllFinite(raw: PhysicalObservation) {
    FiniteVec(raw.positionM) && FiniteVec(raw.velocityMs) && FiniteQuaternion(raw.attitude)
  }

  lemma ValidationIsComplete(fields: seq<(Float, string)>)
    ensures FirstNotFinite(fields).None? <==> forall i :: 0 <= i < |fields| ==> fields[i].0.Finite?
  {
  }

  lemma NothingRejectedMeansFinite(raw: PhysicalObservation)
    ensures FirstNotFinite(ValidatedFields(raw)).None? <==> AllFinite(raw)
  {
    var fields := ValidatedFields(raw);
    ValidationIsComplete(fields);
    if FirstNotFinite(fields).None? {
      assert fields[0].0.Finite? && fields[1].0.Finite? && fields[2].0.Finite?;
      assert fields[3].0.Finite? && fields[4].0.Finite? && fields[5].0.Finite?;
      assert fields[6].0.Finite? && fields[7].0.Finite? && fields[8].0.Finite? && fields[9].0.Finite?;
    }
  }

  ghost function Canonicalize(raw: PhysicalObservation, norm: real): Result<CanonicalState, CanonicalError>
    requires FiniteQuaternion(raw.attitude) ==> IsNorm(Values(raw.attitude), norm)
  {
    NothingRejectedMeansFinite(raw);
    match FirstNotFinite(ValidatedFields(raw))
    case Some(field) => Err(NotFinite(field))
    case None =>
      match Canonicalized(Values(raw.attitude), norm)
      case Err(e) => Err(e)
      case Ok(unit) =>
        Ok(CanonicalState(
             QuantizeVec(raw.positionM, POSITION_SCALE),
             QuantizeVec(raw.velocityMs, VELOCITY_SCALE),
             ToCanonical(unit),
             raw.observedAtNanos))
  }

  /**
   * What an accepted observation is quantised to: positions to millimetres,
   * velocities to millimetres per second, and the normalised attitude, with the
   * hemisphere sign, to millionths. The observation time is kept.
   */
  lemma CanonicalizeQuantizes(raw: PhysicalObservation, norm: real)
    requires AllFinite(raw) && IsNorm(Values(raw.attitude), norm) && norm > MIN_POSITIVE
    ensures Canonicalize(raw, norm).Ok?
    ensures var (s, p) := (Canonicalize(raw, norm).value, raw.positionM);
            && QuantizedFrom(s.positionMm.x, 1000.0 * p.x.value)
            && QuantizedFrom(s.positionMm.y, 1000.0 * p.y.value)
            && QuantizedFrom(s.positionMm.z, 1000.0 * p.z.value)
    ensures var (s, v) := (Canonicalize(raw, norm).value, raw.velocityMs);
            && QuantizedFrom(s.velocityMms.x, 1000.0 * v.x.value)
            && QuantizedFrom(s.velocityMms.y, 1000.0 * v.y.value)
            && QuantizedFrom(s.velocityMms.z, 1000.0 * v.z.value)
    ensures QuantizedAttitude(Canonicalize(raw, norm).value.attitude, Values(raw.attitude), norm)
    ensures Canonicalize(raw, norm).value.observedAtNanos == raw.observedAtNanos
  {
    NothingRejectedMeansFinite(raw);
    MinPositiveIsSmall();
    QuantizeVecIsNearest(raw.positionM, POSITION_SCALE);
    QuantizeVecIsNearest(raw.velocityMs, VELOCITY_SCALE);
    AttitudeIsNearest(Values(raw.attitude), norm);
  }

  /** The integers are nearest to millionths of the attitude divided by its norm, with the hemisphere sign. */
  ghost predicate QuantizedAttitude(a: CanonicalQuaternion, q: Quaternion, norm: real) {
    exists u: Quaternion :: IsDirected(u, q, norm) && QuantizedUnit(a, u)
  }

  /** `norm * u` is `q` or its opposite, as the sign of `q` says. */
  predicate IsDirected(u: Quaternion, q: Quaternion, norm: real) {
    Scale(norm, u) == Scale(Sign(q), q)
  }

  predicate QuantizedUnit(a: CanonicalQuaternion, u: Quaternion) {
    && QuantizedFrom(a.w, 1_000_000.0 * u.w) && QuantizedFrom(a.x, 1_000_000.0 * u.x)
    && QuantizedFrom(a.y, 1_000_000.0 * u.y) && QuantizedFrom(a.z, 1_000_000.0 * u.z)
  }

  lemma AttitudeIsNearest(q: Quaternion, norm: real)
    requires IsNorm(q, norm) && norm > MIN_POSITIVE
    ensures Canonicalized(q, norm).Ok? && QuantizedAttitude(ToCanonical(Canonicalized(q, norm).value), q, norm)
  {
    MinPositiveIsSmall();
    var u := Canonicalized(q, norm).value;
    SignOfDivided(q, norm);
    DividedIsDirected(q, norm, Sign(q));
    UnitIsNearest(u);
  }

  lemma DividedIsDirected(q: Quaternion, norm: real, s: real)
    requires norm > 0.0
    ensures Scale(norm, Scale(s, Divided(q, norm))) == Scale(s, q)
  {
    ScaleTwice(norm, s, Divided(q, norm));
    ScaleTwice(s, norm, Divided(q, norm));
    DividedIsScaled(q, norm);
  }

  lemma UnitIsNearest(u: Quaternion)
    ensures QuantizedUnit(ToCanonical(u), u)
  {
    ComponentIsNearest(u.w);
    ComponentIsNearest(u.x);
    ComponentIsNearest(u.y);
    ComponentIsNearest(u.z);
  }

  lemma ComponentIsNearest(u: real)
    ensures QuantizedFrom(Quantize(u, QUATERNION_SCALE), 1_000_000.0 * u)
  {
    QuantizeIsNearest(u, QUATERNION_SCALE);
  }

  lemma QuantizeVecIsNearest(v: RawVec3, scale: int)
    requires FiniteVec(v)
    ensures var k := QuantizeVec(v, scale);
            && QuantizedFrom(k.x, v.x.value * scale as real) && QuantizedFrom(k.y, v.y.value * scale as real)
            && QuantizedFrom(k.z, v.z.value * scale as real)
  {
    QuantizeIsNearest(v.x.value, scale);
    QuantizeIsNearest(v.y.value, scale);
    QuantizeIsNearest(v.z.value, scale);
  }

  /**
   * A rejected observation is rejected for the first value in the order of
   * position, velocity and attitude that is not finite, or else for its norm.
   */
  lemma RejectionIsExplained(raw: PhysicalObservation, norm: real)
    requires FiniteQuaternion(raw.attitude) ==> IsNorm(Values(raw.attitude), norm)
    ensures var (p, v, q, r) := (raw.positionM, raw.velocityMs, raw.attitude, Canonicalize(raw, norm));
            if !p.x.Finite? then r == Err(NotFinite("position.x"))
            else if !p.y.Finite? then r == Err(NotFinite("position.y"))
            else if !p.z.Finite? then r == Err(NotFinite("position.z"))
            else if !v.x.Finite? then r == Err(NotFinite("velocity.x"))
            else if !v.y.Finite? then r == Err(NotFinite("velocity.y"))
            else if !v.z.Finite? then r == Err(NotFinite("velocity.z"))
            else if !q.w.Finite? then r == Err(NotFinite("quaternion.w"))
            else if !q.x.Finite? then r == Err(NotFinite("quaternion.x"))
            else if !q.y.Finite? then r == Err(NotFinite("quaternion.y"))
            else if !q.z.Finite? then r == Err(NotFinite("quaternion.z"))
            else norm <= MIN_POSITIVE ==> r == Err(ZeroNormQuaternion)
  {
    NothingRejectedMeansFinite(raw);
    var fields := ValidatedFields(raw);
    var (p, v, q) := (raw.positionM, raw.velocityMs, raw.attitude);
    if !p.x.Finite? {
      FirstIsNamed(fields, 0);
    } else if !p.y.Finite? {
      FirstIsNamed(fields, 1);
    } else if !p.z.Finite? {
      FirstIsNamed(fields, 2);
    } else if !v.x.Finite? {
      FirstIsNamed(fields, 3);
    } else if !v.y.Finite? {
      FirstIsNamed(fields, 4);
    } else if !v.z.Finite? {
      FirstIsNamed(fields, 5);
    } else if !q.w.Finite? {
      FirstIsNamed(fields, 6);
    } else if !q.x.Finite? {
      FirstIsNamed(fields, 7);
    } else if !q.y.Finite? {
      FirstIsNamed(fields, 8);
    } else if !q.z.Finite? {
      FirstIsNamed(fields, 9);
    }
  }

  lemma FirstIsNamed(fields: seq<(Float, string)>, i: nat)
    requires i < |fields| && !fields[i].0.Finite? && forall j :: 0 <= j < i ==> fields[j].0.Finite?
    ensures FirstNotFinite(fields) == Some(fields[i].1)
    decreases i
  {
    if i > 0 {
      FirstIsNamed(fields[1..], i - 1);
    }
  }

  /** Sum of squares of the quantised components; a unit quaternion has 10^12. */
  function SquaredNorm(q: CanonicalQuaternion): int {
    q.w * q.w + q.x * q.x + q.y * q.y + q.z * q.z
  }

  predicate ComponentsWithin(q: CanonicalQuaternion, bound: int) {
    -bound <= q.w <= bound && -bound <= q.x <= bound && -bound <= q.y <= bound && -bound <= q.z <= bound
  }

  /** Observations that differ only in a nonzero multiple of the attitude have one canonical state. */
  lemma CanonicalizeIgnoresAttitudeScale(
      a: PhysicalObservation, aNorm: real, b: PhysicalObservation, bNorm: real, c: real)
    requires AllFinite(a) && IsNorm(Values(a.attitude), aNorm) && aNorm > MIN_POSITIVE
    requires AllFinite(b) && IsNorm(Values(b.attitude), bNorm) && bNorm > MIN_POSITIVE
    requires a.(attitude := b.attitude) == b
    requires c != 0.0 && Values(a.attitude) == Scale(c, Values(b.attitude))
    ensures Canonicalize(a, aNorm) == Canonicalize(b, bNorm)
  {
    MultiplesHaveEqualForms(c, Values(a.attitude), aNorm, Values(b.attitude), bNorm);
    NothingRejectedMeansFinite(a);
    NothingRejectedMeansFinite(b);
  }

  /**
   * The pipeline accepts exactly the finite observations whose attitude norm is
   * above the threshold. An accepted attitude is quantised to integers of
   * magnitude at most 10^6 whose squared norm is within 2*10^6 + 1 of 10^12.
   */
  lemma CanonicalizeKeepsUnitNorm(raw: PhysicalObservation, norm: real)
    requires FiniteQuaternion(raw.attitude) ==> IsNorm(Values(raw.attitude), norm)
    ensures Canonicalize(raw, norm).Ok? <==> AllFinite(raw) && norm > MIN_POSITIVE
    ensures Canonicalize(raw, norm).Ok? ==>
              var attitude := Canonicalize(raw, norm).value.attitude;
              && ComponentsWithin(attitude, 1_000_000)
              && -2_000_001 <= SquaredNorm(attitude) - 1_000_000_000_000 <= 2_000_001
  {
    NothingRejectedMeansFinite(raw);
    if Canonicalize(raw, norm).Ok? {
      CanonicalizedIsUnit(Values(raw.attitude), norm);
      QuantizedUnitNorm(Canonicalized(Values(raw.attitude), norm).value);
    }
  }

  /** Quantising a unit quaternion moves its squared norm, in units of 10^-12, by at most 2*10^6 + 1. */
  lemma QuantizedUnitNorm(u: Quaternion)
    requires IsNorm(u, 1.0)
    ensures ComponentsWithin(ToCanonical(u), 1_000_000)
    ensures -2_000_001 <= SquaredNorm(ToCanonical(u)) - 1_000_000_000_000 <= 2_000_001
  {
    UnitComponents(u);
    QuantizedIsNearest(u.w);
    QuantizedIsNearest(u.x);
    QuantizedIsNearest(u.y);
    QuantizedIsNearest(u.z);
    NearestNorm(u, ToCanonical(u));
  }

  lemma UnitComponents(u: Quaternion)
    requires IsNorm(u, 1.0)
    ensures Within1(u.w) && Within1(u.x) && Within1(u.y) && Within1(u.z) && Dot(u, u) == 1.0
  {
    UnitSquares(u.w, u.x, u.y, u.z);
  }

  lemma UnitSquares(w: real, x: real, y: real, z: real)
    requires w * w + x * x + y * y + z * z == 1.0
    ensures Within1(w) && Within1(x) && Within1(y) && Within1(z)
  {
    var (ww, xx, yy, zz) := (w * w, x * x, y * y, z * z);
    SquareIsNonNegative(w);
    SquareIsNonNegative(x);
    SquareIsNonNegative(y);
    SquareIsNonNegative(z);
    assert ww <= 1.0 && xx <= 1.0 && yy <= 1.0 && zz <= 1.0;
    WithinUnit(w);
    WithinUnit(x);
    WithinUnit(y);
    WithinUnit(z);
  }

  predicate Within1(u: real) {
    -1.0 <= u <= 1.0
  }

  /** `k` is within half a unit of the scaled component. */
  predicate Nearest(k: int, u: real) {
    -0.5 <= k as real - 1_000_000.0 * u <= 0.5
  }

  lemma QuantizedIsNearest(u: real)
    requires Within1(u)
    ensures Nearest(Quantize(u, QUATERNION_SCALE), u)
    ensures -1_000_000 <= Quantize(u, QUATERNION_SCALE) <= 1_000_000
  {
    var k := RoundTiesEven(u * QUATERNION_SCALE as real);
    assert -1_000_000.5 <= k as real <= 1_000_000.5;
  }

  lemma NearestNorm(u: Quaternion, q: CanonicalQuaternion)
    requires Dot(u, u) == 1.0
    requires Nearest(q.w, u.w) && Nearest(q.x, u.x) && Nearest(q.y, u.y) && Nearest(q.z, u.z)
    ensures -2_000_001 <= SquaredNorm(q) - 1_000_000_000_000 <= 2_000_001
  {
    NearSum(u.w, q.w, u.x, q.x, u.y, q.y, u.z, q.z);
  }

  lemma SquareIsNonNegative(a: real)
    ensures a * a >= 0.0
  {
    if a >= 0.0 {
      ProductNonNegative(a, a);
    } else {
      ProductNonNegative(-a, -a);
      assert (-a) * (-a) == a * a;
    }
  }

  /** The square of a quantised component is this close to the scaled square of the component. */
  predicate SquareNear(whole: int, square: real) {
    -1_000_000.0 * (square + 0.25) - 0.25
    <= whole as real - 1_000_000_000_000.0 * square
    <= 1_000_000.0 * (square + 0.25) + 0.25
  }

  lemma NearSum(w: real, kw: int, x: real, kx: int, y: real, ky: int, z: real, kz: int)
    requires Nearest(kw, w) && Nearest(kx, x) && Nearest(ky, y) && Nearest(kz, z)
    requires w * w + x * x + y * y + z * z == 1.0
    ensures -2_000_001 <= kw * kw + kx * kx + ky * ky + kz * kz - 1_000_000_000_000 <= 2_000_001
  {
    SquareOfNearest(w, kw);
    SquareOfNearest(x, kx);
    SquareOfNearest(y, ky);
    SquareOfNearest(z, kz);
    SumOfErrors(kw * kw, w * w, kx * kx, x * x, ky * ky, y * y, kz * kz, z * z);
  }

  lemma SumOfErrors(w: int, ws: real, x: int, xs: real, y: int, ys: real, z: int, zs: real)
    requires SquareNear(w, ws) && SquareNear(x, xs) && SquareNear(y, ys) && SquareNear(z, zs)
    requires ws + xs + ys + zs == 1.0
    ensures -2_000_001 <= w + x + y + z - 1_000_000_000_000 <= 2_000_001
  {
    assert (w + x + y + z) as real == w as real + x as real + y as real + z as real;
  }

  /**
   * The square of a quantised component splits into the exact square, the cross
   * term `2 * u * e` with the rounding error `e`, and the square of the error.
   */
  lemma SquareOfNearest(u: real, k: int)
    requires Nearest(k, u)
    ensures SquareNear(k * k, u * u)
  {
    var e := k as real - 1_000_000.0 * u;
    SmallSquare(e);
    SquareOfSum(u, e);
    SquareOfSum(u, -e);
    SquareOfSum(1_000_000.0 * u, e);
    SquareOfInt(k);
    SplitSquare((k * k) as real, u * u, u * e, e * e);
  }

  lemma SplitSquare(whole: real, square: real, cross: real, error: real)
    requires whole == 1_000_000_000_000.0 * square + 2_000_000.0 * cross + error
    requires -(square + error) <= 2.0 * cross <= square + error && 0.0 <= error <= 0.25
    ensures -1_000_000.0 * (square + 0.25) - 0.25 <= whole - 1_000_000_000_000.0 * square
    ensures whole - 1_000_000_000_000.0 * square <= 1_000_000.0 * (square + 0.25) + 0.25
  {
  }

  lemma WithinUnit(u: real)
    requires u * u <= 1.0
    ensures Within1(u)
  {
  }

  lemma SmallSquare(e: real)
    requires -0.5 <= e <= 0.5
    ensures 0.0 <= e * e <= 0.25
  {
    ProductNonNegative(0.5 - e, 0.5 + e);
    SquareOfSum(e, 0.0);
  }

  lemma SquareOfInt(k: int)
    ensures (k * k) as real == k as real * k as real
  {
  }

  lemma SquareOfSum(a: real, b: real)
    ensures (a + b) * (a + b) == a * a + 2.0 * (a * b) + b * b
    ensures a * a + 2.0 * (a * b) + b * b >= 0.0
  {
    SquareIsNonNegative(a + b);
  }

  lemma ProductNonNegative(a: real, b: real)
    requires a >= 0.0 && b >= 0.0
    ensures a * b >= 0.0
  {
  }

  // ------------------------------------------------------------------
  // The hemisphere rule does not survive quantisation
  // ------------------------------------------------------------------

  /** The first nonzero integer is positive, or all are zero. */
  predicate QuantizedInHemisphere(q: CanonicalQuaternion) {
    q.w > 0 || (q.w == 0 && (q.x > 0 || (q.x == 0 && (q.y > 0 || (q.y == 0 && q.z >= 0)))))
  }

  /** A component this small is quantised to zero. */
  predicate Vanishes(u: real) {
    -0.000_000_5 <= u <= 0.000_000_5
  }

  /** The first component that does not vanish is positive, or all vanish. */
  predicate SignificantInHemisphere(q: Quaternion) {
    if !Vanishes(q.w) then q.w > 0.0
    else if !Vanishes(q.x) then q.x > 0.0
    else if !Vanishes(q.y) then q.y > 0.0
    else Vanishes(q.z) || q.z > 0.0
  }

  /** A quantised attitude is in the hemisphere exactly when the first component above the resolution is positive. */
  lemma QuantizedHemisphere(u: Quaternion)
    ensures QuantizedInHemisphere(ToCanonical(u)) <==> SignificantInHemisphere(u)
  {
    QuantizedSign(u.w);
    QuantizedSign(u.x);
    QuantizedSign(u.y);
    QuantizedSign(u.z);
  }

  lemma QuantizedSign(u: real)
    ensures Quantize(u, QUATERNION_SCALE) == 0 <==> Vanishes(u)
    ensures Quantize(u, QUATERNION_SCALE) > 0 <==> u > 0.000_000_5
  {
    var product := u * QUATERNION_SCALE as real;
    var below := product.Floor;
    assert below as real <= product < (below + 1) as real;
  }

  /** The component is large enough to survive quantisation of the normalised attitude. */
  predicate Significant(a: real, norm: real) {
    Abs(a) > norm / 2_000_000.0
  }

  /** The sign of the first component that survives. */
  function SignificantSign(q: Quaternion, norm: real): real {
    if Significant(q.w, norm) then SignOf(q.w)
    else if Significant(q.x, norm) then SignOf(q.x)
    else if Significant(q.y, norm) then SignOf(q.y)
    else SignOf(q.z)
  }

  function SignOf(a: real): real {
    if a > 0.0 then 1.0 else -1.0
  }

  /** `a` is a component of an attitude, `u` the same component of its canonical form, and `s` the hemisphere sign. */
  lemma CanonicalComponent(a: real, norm: real, s: real, u: real)
    requires norm > 0.0 && (s == 1.0 || s == -1.0) && u == s * (a / norm)
    ensures Vanishes(u) <==> !Significant(a, norm)
    ensures Significant(a, norm) ==> (u > 0.0 <==> SignOf(a) == s)
  {
    var v := a / norm;
    assert v * norm == a;
    if v > 0.000_000_5 {
      StrictProduct(v - 0.000_000_5, norm);
    } else {
      WeakProduct(0.000_000_5 - v, norm);
    }
    if v < -0.000_000_5 {
      StrictProduct(-0.000_000_5 - v, norm);
    } else {
      WeakProduct(v + 0.000_000_5, norm);
    }
  }

  lemma StrictProduct(x: real, norm: real)
    requires x > 0.0 && norm > 0.0
    ensures x * norm > 0.0
  {
  }

  lemma WeakProduct(x: real, norm: real)
    requires x >= 0.0 && norm > 0.0
    ensures x * norm >= 0.0
  {
  }

  /** Some component of a unit quaternion does not vanish. */
  lemma UnitDoesNotVanish(u: Quaternion)
    requires IsNorm(u, 1.0)
    ensures !Vanishes(u.w) || !Vanishes(u.x) || !Vanishes(u.y) || !Vanishes(u.z)
  {
    if Vanishes(u.w) && Vanishes(u.x) && Vanishes(u.y) && Vanishes(u.z) {
      TinySquare(u.w);
      TinySquare(u.x);
      TinySquare(u.y);
      TinySquare(u.z);
      assert false;
    }
  }

  lemma TinySquare(u: real)
    requires Vanishes(u)
    ensures u * u <= 0.1
  {
    ProductNonNegative(0.000_000_5 - u, 0.000_000_5 + u);
    assert (0.000_000_5 - u) * (0.000_000_5 + u) == 0.000_000_5 * 0.000_000_5 - u * u;
  }

  /**
   * The attitude that the pipeline emits is in the hemisphere exactly when the
   * first raw component of more than `norm / 2_000_000` has the sign of the
   * first nonzero one.
   */
  lemma EmittedHemisphere(raw: PhysicalObservation, norm: real)
    requires AllFinite(raw) && IsNorm(Values(raw.attitude), norm) && norm > MIN_POSITIVE
    ensures Canonicalize(raw, norm).Ok?
    ensures QuantizedInHemisphere(Canonicalize(raw, norm).value.attitude)
       <==> SignificantSign(Values(raw.attitude), norm) == Sign(Values(raw.attitude))
  {
    NothingRejectedMeansFinite(raw);
    var q := Values(raw.attitude);
    var u := Canonicalized(q, norm).value;
    CanonicalHemisphere(q, norm, u);
    QuantizedHemisphere(u);
  }

  lemma CanonicalHemisphere(q: Quaternion, norm: real, u: Quaternion)
    requires IsNorm(q, norm) && norm > MIN_POSITIVE && Canonicalized(q, norm) == Ok(u)
    ensures SignificantInHemisphere(u) <==> SignificantSign(q, norm) == Sign(q)
  {
    MinPositiveIsSmall();
    CanonicalizedIsUnit(q, norm);
    UnitDoesNotVanish(u);
    SignOfDivided(q, norm);
    SignedHemisphere(q, norm, Sign(q), u);
  }

  lemma SignedHemisphere(q: Quaternion, norm: real, s: real, u: Quaternion)
    requires norm > 0.0 && (s == 1.0 || s == -1.0) && u == Scale(s, Divided(q, norm))
    requires !Vanishes(u.w) || !Vanishes(u.x) || !Vanishes(u.y) || !Vanishes(u.z)
    ensures SignificantInHemisphere(u) <==> SignificantSign(q, norm) == s
  {
    CanonicalComponent(q.w, norm, s, u.w);
    CanonicalComponent(q.x, norm, s, u.x);
    CanonicalComponent(q.y, norm, s, u.y);
    CanonicalComponent(q.z, norm, s, u.z);
  }

  lemma SignOfDivided(q: Quaternion, norm: real)
    requires norm > 0.0
    ensures Sign(Divided(q, norm)) == Sign(q)
  {
    SignOfQuotient(q.w, norm);
    SignOfQuotient(q.x, norm);
    SignOfQuotient(q.y, norm);
    SignOfQuotient(q.z, norm);
  }

  lemma SignOfQuotient(a: real, norm: real)
    requires norm > 0.0
    ensures (a / norm > 0.0 <==> a > 0.0) && (a / norm < 0.0 <==> a < 0.0)
  {
  }

  /**
   * An observation that the pipeline accepts and whose emitted attitude breaks
   * the sign rule: its leading component is too small to survive.
   */
  lemma QuantizationLeavesHemisphere(raw: PhysicalObservation, norm: real)
    requires AllFinite(raw) && norm == 100_000_000_000_001.0
    requires Values(raw.attitude) == Quaternion(20_000_000.0, -99_999_999_999_999.0, 0.0, 0.0)
    ensures IsNorm(Values(raw.attitude), norm)
    ensures Canonicalize(raw, norm).Ok? && !QuantizedInHemisphere(Canonicalize(raw, norm).value.attitude)
  {
    var q := Values(raw.attitude);
    TiltedNorm(q.w, q.x, norm);
    MinPositiveIsSmall();
    TiltedSigns(q, norm);
    EmittedHemisphere(raw, norm);
  }

  lemma TiltedSigns(q: Quaternion, norm: real)
    requires q == Quaternion(20_000_000.0, -99_999_999_999_999.0, 0.0, 0.0) && norm == 100_000_000_000_001.0
    ensures Sign(q) == 1.0 && SignificantSign(q, norm) == -1.0
  {
  }

  lemma TiltedNorm(w: real, x: real, norm: real)
    requires w == 20_000_000.0 && x == -99_999_999_999_999.0 && norm == 100_000_000_000_001.0
    ensures norm * norm == w * w + x * x
  {
  }
}
