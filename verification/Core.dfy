/**
 * seven-core: the canonical state and its bytes. The attitude pipeline
 * (normalisation, hemisphere, quantisation) is in `Attitude`.
 */
module Core {
  import opened Basics
  import opened Postcard

  datatype Vec3 = Vec3(x: i64, y: i64, z: i64)

  datatype CanonicalQuaternion = CanonicalQuaternion(w: i64, x: i64, y: i64, z: i64)

  datatype CanonicalState = CanonicalState(
    positionMm: Vec3,
    velocityMms: Vec3,
    attitude: CanonicalQuaternion,
    observedAtNanos: i64)

  datatype CodecError = Deserialization

  const FIELD_COUNT: nat := 11

  /** The fields in declaration order, which is the order of the wire. */
  function Fields(s: CanonicalState): (fs: seq<i64>)
    ensures |fs| == FIELD_COUNT
  {
    [s.positionMm.x, s.positionMm.y, s.positionMm.z,
     s.velocityMms.x, s.velocityMms.y, s.velocityMms.z,
     s.attitude.w, s.attitude.x, s.attitude.y, s.attitude.z,
     s.observedAtNanos]
  }

  function FromFields(fs: seq<i64>): CanonicalState
    requires |fs| == FIELD_COUNT
  {
    CanonicalState(
      Vec3(fs[0], fs[1], fs[2]), Vec3(fs[3], fs[4], fs[5]),
      CanonicalQuaternion(fs[6], fs[7], fs[8], fs[9]), fs[10])
  }

  function EncodeFields(fs: seq<i64>): Bytes {
    if fs == [] then [] else EncodeVarint(Zigzag(fs[0])) + EncodeFields(fs[1..])
  }

  function DecodeFields(b: Bytes, count: nat): (r: Option<(seq<i64>, Bytes)>)
    ensures r.Some? ==> |r.value.0| == count
  {
    if count == 0 then Some(([], b))
    else
      CapacityOfAllGroups();
      match DecodeVarint(b, 0)
      case None => None
      case Some((n, rest)) =>
        match DecodeFields(rest, count - 1)
        case None => None
        case Some((fs, tail)) => Some(([Unzigzag(n)] + fs, tail))
  }

  function CanonicalBytes(s: CanonicalState): Bytes {
    EncodeFields(Fields(s))
  }

  /** Like `postcard::from_bytes`, this ignores whatever follows the last field. */
  function FromCanonicalBytes(b: Bytes): Result<CanonicalState, CodecError> {
    match DecodeFields(b, FIELD_COUNT)
    case None => Err(Deserialization)
    case Some((fs, _)) => Ok(FromFields(fs))
  }

  // ------------------------------------------------------------------
  // Canonical bytes are a prefix-free code
  // ------------------------------------------------------------------

  lemma DecodeOneMore(b: Bytes, count: nat, n: nat, middle: Bytes, fs: seq<i64>, rest: Bytes)
    requires count > 0 && DecodeVarint(b, 0) == Some((n, middle)) && DecodeFields(middle, count - 1) == Some((fs, rest))
    ensures n < U64_LIMIT && DecodeFields(b, count) == Some(([Unzigzag(n)] + fs, rest))
  {
    CapacityOfAllGroups();
  }

  lemma EncodeFirst(fs: seq<i64>, rest: Bytes)
    requires fs != []
    ensures EncodeFields(fs) + rest == EncodeVarint(Zigzag(fs[0])) + (EncodeFields(fs[1..]) + rest)
  {
  }

  lemma {:induction false} FieldsRoundTrip(fs: seq<i64>, rest: Bytes)
    ensures DecodeFields(EncodeFields(fs) + rest, |fs|) == Some((fs, rest))
    ensures |fs| <= |EncodeFields(fs)| <= 10 * |fs|
    decreases |fs|
  {
    if fs == [] {
      assert EncodeFields(fs) + rest == rest;
    } else {
      var n, tail := Zigzag(fs[0]), EncodeFields(fs[1..]);
      CapacityOfAllGroups();
      VarintRoundTrip(n, 0, tail + rest);
      FieldsRoundTrip(fs[1..], rest);
      ZigzagRoundTrip(fs[0]);
      EncodeFirst(fs, rest);
      DecodeOneMore(EncodeVarint(n) + (tail + rest), |fs|, n, tail + rest, fs[1..], rest);
      assert [fs[0]] + fs[1..] == fs;
    }
  }

  /** Decoding inverts encoding for every state, whatever follows the encoding. */
  lemma CanonicalRoundTrip(s: CanonicalState, junk: Bytes)
    ensures FromCanonicalBytes(CanonicalBytes(s) + junk) == Ok(s)
    ensures FromCanonicalBytes(CanonicalBytes(s)) == Ok(s)
    ensures 11 <= |CanonicalBytes(s)| <= 110
  {
    FieldsRoundTrip(Fields(s), junk);
    FieldsRoundTrip(Fields(s), []);
    assert CanonicalBytes(s) + [] == CanonicalBytes(s);
  }

  /** The fields follow each other in declaration order, each as a zigzag varint. */
  lemma CanonicalLayout(s: CanonicalState)
    ensures CanonicalBytes(s)
         == FieldBytes(s.positionMm.x) + (FieldBytes(s.positionMm.y) + (FieldBytes(s.positionMm.z)
            + (FieldBytes(s.velocityMms.x) + (FieldBytes(s.velocityMms.y) + (FieldBytes(s.velocityMms.z)
            + (FieldBytes(s.attitude.w) + (FieldBytes(s.attitude.x) + (FieldBytes(s.attitude.y)
            + (FieldBytes(s.attitude.z) + FieldBytes(s.observedAtNanos))))))))))
  {
    LastSixFields(Fields(s));
    FirstFiveFields(Fields(s));
  }

  lemma LastSixFields(fs: seq<i64>)
    requires |fs| == FIELD_COUNT
    ensures EncodeFields(fs[5..])
         == FieldBytes(fs[5]) + (FieldBytes(fs[6]) + (FieldBytes(fs[7])
            + (FieldBytes(fs[8]) + (FieldBytes(fs[9]) + FieldBytes(fs[10])))))
  {
    EncodeFrom(fs, 5);
    EncodeFrom(fs, 6);
    EncodeFrom(fs, 7);
    EncodeFrom(fs, 8);
    EncodeFrom(fs, 9);
    EncodeLast(fs);
  }

  lemma EncodeLast(fs: seq<i64>)
    requires |fs| == FIELD_COUNT
    ensures EncodeFields(fs[10..]) == FieldBytes(fs[10])
  {
    EncodeFrom(fs, 10);
    assert fs[11..] == [] && FieldBytes(fs[10]) + [] == FieldBytes(fs[10]);
  }

  lemma FirstFiveFields(fs: seq<i64>)
    requires |fs| == FIELD_COUNT
    ensures EncodeFields(fs)
         == FieldBytes(fs[0]) + (FieldBytes(fs[1]) + (FieldBytes(fs[2])
            + (FieldBytes(fs[3]) + (FieldBytes(fs[4]) + EncodeFields(fs[5..])))))
  {
    assert fs[0..] == fs;
    EncodeFrom(fs, 0);
    EncodeFrom(fs, 1);
    EncodeFrom(fs, 2);
    EncodeFrom(fs, 3);
    EncodeFrom(fs, 4);
  }

  function FieldBytes(k: i64): Bytes {
    EncodeVarint(Zigzag(k))
  }

  lemma EncodeFrom(fs: seq<i64>, i: nat)
    requires i < |fs|
    ensures EncodeFields(fs[i..]) == FieldBytes(fs[i]) + EncodeFields(fs[i + 1..])
  {
    assert fs[i..][1..] == fs[i + 1..];
  }

  /** No canonical encoding is a proper prefix of another; in particular the encoding is injective. */
  lemma CanonicalPrefixFree(s: CanonicalState, t: CanonicalState)
    requires CanonicalBytes(s) <= CanonicalBytes(t)
    ensures s == t
  {
    var junk := CanonicalBytes(t)[|CanonicalBytes(s)|..];
    assert CanonicalBytes(t) == CanonicalBytes(s) + junk;
    CanonicalRoundTrip(s, junk);
    CanonicalRoundTrip(t, []);
  }

  // ------------------------------------------------------------------
  // Which byte strings are canonical encodings
  // ------------------------------------------------------------------

  /** `b` is exactly `count` minimal varints: no padding groups and nothing after the last field. */
  predicate IsMinimal(b: Bytes, count: nat) {
    if count == 0 then b == []
    else
      MinimalVarint(b)
      && DecodeVarint(b, 0).Some?
      && IsMinimal(DecodeVarint(b, 0).value.1, count - 1)
  }

  lemma {:induction false} FieldsReencode(b: Bytes, count: nat)
    requires DecodeFields(b, count).Some?
    ensures EncodeFields(DecodeFields(b, count).value.0) == b <==> IsMinimal(b, count)
    decreases count
  {
    if count > 0 {
      CapacityOfAllGroups();
      var (n, rest) := DecodeVarint(b, 0).value;
      var fs := DecodeFields(rest, count - 1).value.0;
      FieldsReencode(rest, count - 1);
      EncodeOneMore(n, fs);
      HeadReencodes(b, n, rest, EncodeFields(fs));
    }
  }

  lemma EncodeOneMore(n: nat, fs: seq<i64>)
    requires n < U64_LIMIT
    ensures EncodeFields([Unzigzag(n)] + fs) == EncodeVarint(n) + EncodeFields(fs)
  {
    UnzigzagRoundTrip(n);
    assert ([Unzigzag(n)] + fs)[1..] == fs;
  }

  /**
   * A varint followed by `tail` is `b` exactly when the varint at the front of
   * `b` is minimal and followed by `tail`.
   */
  lemma HeadReencodes(b: Bytes, n: nat, rest: Bytes, tail: Bytes)
    requires DecodeVarint(b, 0) == Some((n, rest))
    ensures EncodeVarint(n) + tail == b <==> MinimalVarint(b) && tail == rest
  {
    CapacityOfAllGroups();
    VarintReencodes(b, 0);
    VarintRoundTrip(n, 0, tail);
  }

  /**
   * Decoding accepts more than the encoder writes. A decodable input is the
   * encoding of the state it decodes to exactly when it is minimal.
   */
  lemma ReencodesIffMinimal(b: Bytes)
    requires FromCanonicalBytes(b).Ok?
    ensures CanonicalBytes(FromCanonicalBytes(b).value) == b <==> IsMinimal(b, FIELD_COUNT)
  {
    var (fs, _) := DecodeFields(b, FIELD_COUNT).value;
    FieldsReencode(b, FIELD_COUNT);
    FieldsOfParsed(fs);
  }

  lemma FieldsOfParsed(fs: seq<i64>)
    requires |fs| == FIELD_COUNT
    ensures Fields(FromFields(fs)) == fs
  {
  }

  /** Decoding is not injective: a trailing byte is ignored. */
  lemma DecodingIsNotInjective(s: CanonicalState)
    ensures var b := CanonicalBytes(s);
            b != b + [0] && FromCanonicalBytes(b) == FromCanonicalBytes(b + [0])
  {
    CanonicalRoundTrip(s, [0]);
    assert |CanonicalBytes(s)| < |CanonicalBytes(s) + [0]|;
  }
}
