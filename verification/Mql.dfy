/**
 * seven-mql, `lib.rs`: projecting evidence onto messages and back, and the
 * lossy in-memory transport.
 *
 * Strings are sequences of ASCII characters. The subject grammar of the message
 * library, beyond what this module checks itself, is the parameter `grammar`.
 */
module Mql {
  import opened Basics
  import opened Core
  import opened Evidence
  import opened Rng

  /** A JSON value, without floating-point numbers. */
  datatype Value =
    | Null
    | Bool(b: bool)
    | Number(n: int)
    | Str(s: string)
    | Array(items: seq<Value>)
    | Object(fields: map<string, Value>)

  datatype Payload = PostcardBytes(bytes: Bytes) | OtherPayload

  datatype Operation = Event | OtherOperation

  datatype Message = Message(
    subject: string,
    operation: Operation,
    extensions: map<string, Value>,
    payload: Payload)

  /** `Panic` is the index panic of the hex reader on a string of odd length. */
  datatype MqlError = SubjectError | CanonicalFailure | UnexpectedPayload | Panic

  // ------------------------------------------------------------------
  // Hexadecimal
  // ------------------------------------------------------------------

  function HexDigit(n: int): char
    requires 0 <= n < 16
  {
    if n < 10 then ('0' as int + n) as char else ('a' as int + n - 10) as char
  }

  function DigitValue(ch: char): Option<int> {
    if '0' <= ch <= '9' then Some(ch as int - '0' as int)
    else if 'a' <= ch <= 'f' then Some(ch as int - 'a' as int + 10)
    else if 'A' <= ch <= 'F' then Some(ch as int - 'A' as int + 10)
    else None
  }

  function Hex(b: Bytes): string {
    if b == [] then "" else [HexDigit(b[0] / 16), HexDigit(b[0] % 16)] + Hex(b[1..])
  }

  /** `u8::from_str_radix` on two characters; a leading plus sign is allowed. */
  function PairValue(high: char, low: char): Option<byte> {
    if high == '+' then
      match DigitValue(low)
      case None => None
      case Some(l) => if 0 <= l < 16 then Some(l) else None
    else
      match (DigitValue(high), DigitValue(low))
      case (Some(h), Some(l)) => if 0 <= h < 16 && 0 <= l < 16 then Some(16 * h + l) else None
      case _ => None
  }

  /** Reads pairs and drops those that are not hexadecimal; `None` is the panic on a trailing single character. */
  function HexBytes(s: string): Option<Bytes> {
    if s == "" then Some([])
    else if |s| == 1 then None
    else
      match (PairValue(s[0], s[1]), HexBytes(s[2..]))
      case (_, None) => None
      case (None, Some(rest)) => Some(rest)
      case (Some(b), Some(rest)) => Some([b] + rest)
  }

  function ParseHex32(s: string): Result<Id32, MqlError> {
    match HexBytes(s)
    case None => Err(Panic)
    case Some(b) => if |b| == 32 then Ok(b) else Err(CanonicalFailure)
  }

  lemma PairRoundTrip(b: byte)
    ensures PairValue(HexDigit(b / 16), HexDigit(b % 16)) == Some(b)
  {
    var high, low: int := b / 16, b % 16;
    assert DigitValue(HexDigit(high)) == Some(high) && DigitValue(HexDigit(low)) == Some(low);
    assert 16 * high + low == b as int;
  }

  lemma {:induction false} HexRoundTrip(b: Bytes)
    ensures HexBytes(Hex(b)) == Some(b)
    ensures |b| == 32 ==> ParseHex32(Hex(b)) == Ok(b)
    decreases |b|
  {
    if b != [] {
      HexRoundTrip(b[1..]);
      PairRoundTrip(b[0]);
      assert Hex(b)[2..] == Hex(b[1..]);
      assert [b[0]] + b[1..] == b;
    }
  }

  const DIGITS: string := "0123456789abcdef"

  /** Each byte is written as two lower-case digits, the high one first. */
  lemma {:induction false} HexText(b: Bytes)
    ensures |Hex(b)| == 2 * |b|
    ensures forall i :: 0 <= i < |b| ==> Hex(b)[2 * i] == DIGITS[b[i] / 16] && Hex(b)[2 * i + 1] == DIGITS[b[i] % 16]
    decreases |b|
  {
    if b != [] {
      HexText(b[1..]);
      DigitText(b[0] / 16);
      DigitText(b[0] % 16);
      forall i | 0 <= i < |b|
        ensures Hex(b)[2 * i] == DIGITS[b[i] / 16] && Hex(b)[2 * i + 1] == DIGITS[b[i] % 16]
      {
        if i > 0 {
          assert Hex(b)[2 * i] == Hex(b[1..])[2 * (i - 1)] && Hex(b)[2 * i + 1] == Hex(b[1..])[2 * (i - 1) + 1];
        }
      }
    }
  }

  lemma DigitText(n: int)
    requires 0 <= n < 16
    ensures HexDigit(n) == DIGITS[n]
  {
  }

  /** The value that a pair of characters has for the reader: digits of either case, or a plus sign and a digit. */
  lemma PairsRead(high: int, low: int)
    requires 0 <= high < 16 && 0 <= low < 16
    ensures PairValue(DIGITS[high], DIGITS[low]) == Some(16 * high + low)
    ensures PairValue("0123456789ABCDEF"[high], "0123456789ABCDEF"[low]) == Some(16 * high + low)
    ensures PairValue('+', DIGITS[low]) == Some(low)
  {
    DigitText(high);
    DigitText(low);
    UpperDigit(high);
    UpperDigit(low);
  }

  lemma UpperDigit(n: int)
    requires 0 <= n < 16
    ensures DigitValue("0123456789ABCDEF"[n]) == Some(n) && "0123456789ABCDEF"[n] != '+'
  {
  }

  /** The pairs of characters that the reader keeps. */
  function ValidPairs(s: string): nat {
    if |s| < 2 then 0 else (if PairValue(s[0], s[1]).Some? then 1 else 0) + ValidPairs(s[2..])
  }

  /** The reader panics exactly on an odd length, and otherwise yields one byte for every pair that it keeps. */
  lemma {:induction false} HexBytesCounts(s: string)
    ensures HexBytes(s).None? <==> |s| % 2 == 1
    ensures HexBytes(s).Some? ==> |HexBytes(s).value| == ValidPairs(s)
    decreases |s|
  {
    if |s| >= 2 {
      HexBytesCounts(s[2..]);
      FirstPairCounts(s, HexBytes(s[2..]));
      TwoLess(|s|);
    } else {
      ShortTexts(s);
    }
  }

  lemma TwoLess(n: nat)
    requires n >= 2
    ensures n % 2 == (n - 2) % 2
  {
  }

  lemma ShortTexts(s: string)
    requires |s| < 2
    ensures HexBytes(s) == (if |s| == 1 then None else Some([])) && ValidPairs(s) == 0 && |s| % 2 == |s|
  {
  }

  lemma FirstPairCounts(s: string, rest: Option<Bytes>)
    requires |s| >= 2 && rest == HexBytes(s[2..])
    requires rest.Some? ==> |rest.value| == ValidPairs(s[2..])
    ensures HexBytes(s).None? <==> rest.None?
    ensures HexBytes(s).Some? ==> |HexBytes(s).value| == ValidPairs(s)
  {
  }

  /**
   * A 32-byte id is read exactly from strings of even length with 32 good pairs,
   * whatever the other pairs are; it panics exactly on an odd length.
   */
  lemma ParseHex32AcceptsIff(s: string)
    ensures ParseHex32(s).Ok? <==> |s| % 2 == 0 && ValidPairs(s) == 32
    ensures ParseHex32(s) == Err(Panic) <==> |s| % 2 == 1
  {
    HexBytesCounts(s);
  }

  /** A string of two bad characters before the text of an id is read as that id. */
  lemma MalformedIdIsAccepted(id: Id32)
    ensures ParseHex32("zz" + Hex(id)) == Ok(id)
  {
    var s := "zz" + Hex(id);
    HexRoundTrip(id);
    assert s[2..] == Hex(id) && PairValue(s[0], s[1]).None?;
  }

  // ------------------------------------------------------------------
  // Subjects
  // ------------------------------------------------------------------

  predicate DotFree(s: string) {
    forall i :: 0 <= i < |s| ==> s[i] != '.'
  }

  /** The dot-separated segments of a subject. */
  function Segments(s: string): (segments: seq<string>)
    ensures segments != []
  {
    if s == "" then [""]
    else
      var rest := Segments(s[1..]);
      if s[0] == '.' then [""] + rest else [[s[0]] + rest[0]] + rest[1..]
  }

  lemma {:induction false} SegmentsOfJoin(a: string, rest: string)
    requires DotFree(a)
    ensures Segments(a + "." + rest) == [a] + Segments(rest)
    ensures Segments(a) == [a]
    decreases |a|
  {
    if a == "" {
      assert a + "." + rest == "." + rest;
      assert ("." + rest)[1..] == rest;
    } else {
      SegmentsOfJoin(a[1..], rest);
      assert (a + "." + rest)[1..] == a[1..] + "." + rest;
      assert [a[0]] + a[1..] == a;
    }
  }

  function EvidenceSubject(grammar: string -> bool, subjectId: string, domain: string): Result<string, MqlError> {
    if domain == "" || !DotFree(domain) || subjectId == "" || !DotFree(subjectId) then Err(SubjectError)
    else
      var subject := "seven" + "." + (domain + "." + (subjectId + "." + "evidence"));
      if grammar(subject) then Ok(subject) else Err(SubjectError)
  }

  // ------------------------------------------------------------------
  // JSON forms
  // ------------------------------------------------------------------

  function HopValue(h: Hop): Value {
    Object(map["node" := Str(h.node), "received_at_nanos" := Number(h.receivedAtNanos)])
  }

  function ProvenanceValue(hops: seq<Hop>): Value {
    Object(map["hops" := Array(seq(|hops|, i requires 0 <= i < |hops| => HopValue(hops[i])))])
  }

  function AsI64(v: Value): Option<i64> {
    if v.Number? && I64_MIN <= v.n <= I64_MAX then Some(v.n) else None
  }

  function ParseHopFields(node: Value, receivedAt: Value): Option<Hop> {
    match (node, AsI64(receivedAt))
    case (Str(s), Some(t)) => Some(Hop(s, t))
    case _ => None
  }

  /** A struct is read from an object with all its fields or from an array of exactly its fields. */
  function ParseHop(v: Value): Option<Hop> {
    match v
    case Object(fields) =>
      if "node" in fields && "received_at_nanos" in fields
      then ParseHopFields(fields["node"], fields["received_at_nanos"]) else None
    case Array(items) => if |items| == 2 then ParseHopFields(items[0], items[1]) else None
    case _ => None
  }

  function ParseHops(items: seq<Value>): Option<seq<Hop>> {
    if items == [] then Some([])
    else
      match (ParseHop(items[0]), ParseHops(items[1..]))
      case (Some(h), Some(rest)) => Some([h] + rest)
      case _ => None
  }

  function ParseProvenance(v: Value): Option<seq<Hop>> {
    match v
    case Object(fields) =>
      if "hops" in fields && fields["hops"].Array? then ParseHops(fields["hops"].items) else None
    case Array(items) =>
      if |items| == 1 && items[0].Array? then ParseHops(items[0].items) else None
    case _ => None
  }

  lemma {:induction false} ProvenanceRoundTrip(hops: seq<Hop>)
    ensures ParseProvenance(ProvenanceValue(hops)) == Some(hops)
  {
    HopsRoundTrip(hops);
  }

  lemma {:induction false} HopsRoundTrip(hops: seq<Hop>)
    ensures ParseHops(seq(|hops|, i requires 0 <= i < |hops| => HopValue(hops[i]))) == Some(hops)
    decreases |hops|
  {
    if hops != [] {
      HopsRoundTrip(hops[1..]);
      var values := seq(|hops|, i requires 0 <= i < |hops| => HopValue(hops[i]));
      assert values[1..] == seq(|hops[1..]|, i requires 0 <= i < |hops[1..]| => HopValue(hops[1..][i]));
      assert [hops[0]] + hops[1..] == hops;
    }
  }

  /** The wire form of a provenance; a reader also takes the forms without names. */
  lemma ProvenanceWire(hops: seq<Hop>, i: nat)
    requires i < |hops|
    ensures ProvenanceValue(hops).Object? && ProvenanceValue(hops).fields.Keys == {"hops"}
    ensures var list := ProvenanceValue(hops).fields["hops"];
            && list.Array? && |list.items| == |hops|
            && list.items[i]
            == Object(map["node" := Str(hops[i].node), "received_at_nanos" := Number(hops[i].receivedAtNanos)])
            && ParseProvenance(Array([list])) == Some(hops)
    ensures ParseHop(Array([Str(hops[i].node), Number(hops[i].receivedAtNanos)])) == Some(hops[i])
  {
    HopsRoundTrip(hops);
  }

  function ParentValues(ids: seq<Id32>): seq<Value> {
    seq(|ids|, i requires 0 <= i < |ids| => Str(Hex(ids[i])))
  }

  /** Keeps the entries that are strings of 32 hexadecimal bytes; `None` is the panic of the hex reader. */
  function ParseParents(items: seq<Value>): Option<seq<Id32>> {
    if items == [] then Some([])
    else
      match ParseParents(items[1..])
      case None => None
      case Some(rest) =>
        if !items[0].Str? then Some(rest)
        else
          match ParseHex32(items[0].s)
          case Ok(id) => Some([id] + rest)
          case Err(Panic) => None
          case Err(_) => Some(rest)
  }

  lemma {:induction false} ParentsRoundTrip(ids: seq<Id32>)
    ensures ParseParents(ParentValues(ids)) == Some(ids)
    decreases |ids|
  {
    if ids != [] {
      ParentsRoundTrip(ids[1..]);
      HexRoundTrip(ids[0]);
      assert ParentValues(ids)[1..] == ParentValues(ids[1..]);
      assert [ids[0]] + ids[1..] == ids;
    }
  }

  // ------------------------------------------------------------------
  // Projection
  // ------------------------------------------------------------------

  const EVIDENCE_ID: string := "seven_evidence_id"
  const OBSERVATION_ID: string := "seven_observation_id"
  const SOURCE_ID: string := "seven_source_id"
  const PROVENANCE: string := "seven_provenance"
  const EXPIRES_AT: string := "seven_expires_at"
  const PARENT_IDS: string := "seven_parent_ids"
  const SIGNATURE: string := "seven_signature"

  /** The names of the extensions are pairwise distinct. */
  lemma ExtensionNames()
    ensures Distinct([EVIDENCE_ID, OBSERVATION_ID, SOURCE_ID, PROVENANCE, EXPIRES_AT, PARENT_IDS, SIGNATURE])
  {
  }

  function Extensions(e: Evidence): map<string, Value> {
    var always := map[
      EVIDENCE_ID := Str(Hex(e.evidenceId)),
      OBSERVATION_ID := Str(Hex(e.observationId)),
      SOURCE_ID := Str(Hex(e.sourceId)),
      PROVENANCE := ProvenanceValue(e.provenance),
      EXPIRES_AT := Number(e.expiresAtNanos),
      PARENT_IDS := Array(ParentValues(e.parents))];
    match e.signature
    case None => always
    case Some(sig) => always[SIGNATURE := Str(Hex(sig))]
  }

  function ToMessage(grammar: string -> bool, e: Evidence, domain: string): Result<Message, MqlError> {
    match EvidenceSubject(grammar, e.subject, domain)
    case Err(err) => Err(err)
    case Ok(subject) => Ok(Message(subject, Event, Extensions(e), PostcardBytes(e.payload)))
  }

  /** The text of a string extension, empty when the extension is absent or not a string. */
  function Text(extensions: map<string, Value>, key: string): string {
    if key in extensions && extensions[key].Str? then extensions[key].s else ""
  }

  function ReadParents(extensions: map<string, Value>): Option<seq<Id32>> {
    if PARENT_IDS in extensions && extensions[PARENT_IDS].Array?
    then ParseParents(extensions[PARENT_IDS].items) else Some([])
  }

  /** An absent source id is the zero key of older messages; of a present one the bad pairs are dropped first. */
  function ReadSource(extensions: map<string, Value>): Result<Id32, MqlError> {
    if SOURCE_ID !in extensions then Ok(seq(32, _ => 0))
    else ParseHex32(Text(extensions, SOURCE_ID))
  }

  function ReadSignature(extensions: map<string, Value>): Result<Option<Bytes>, MqlError> {
    if SIGNATURE in extensions && extensions[SIGNATURE].Str? then
      match HexBytes(extensions[SIGNATURE].s)
      case None => Err(Panic)
      case Some(sig) => Ok(Some(sig))
    else Ok(None)
  }

  function ReadExpiry(extensions: map<string, Value>): i64 {
    if EXPIRES_AT !in extensions then I64_MAX
    else
      match AsI64(extensions[EXPIRES_AT])
      case None => I64_MAX
      case Some(t) => t
  }

  function FromMessage(m: Message): Result<Evidence, MqlError> {
    if !m.payload.PostcardBytes? then Err(UnexpectedPayload)
    else
      var x := m.extensions;
      match ParseHex32(Text(x, EVIDENCE_ID))
      case Err(err) => Err(err)
      case Ok(evidenceId) =>
        match ParseHex32(Text(x, OBSERVATION_ID))
        case Err(err) => Err(err)
        case Ok(observationId) =>
          match ParseProvenance(if PROVENANCE in x then x[PROVENANCE] else ProvenanceValue([]))
          case None => Err(CanonicalFailure)
          case Some(provenance) =>
            match ReadParents(x)
            case None => Err(Panic)
            case Some(parents) =>
              match FromCanonicalBytes(m.payload.bytes)
              case Err(_) => Err(CanonicalFailure)
              case Ok(state) =>
                match ReadSource(x)
                case Err(err) => Err(err)
                case Ok(sourceId) =>
                  match ReadSignature(x)
                  case Err(err) => Err(err)
                  case Ok(signature) =>
                    var segments := Segments(m.subject);
                    if |segments| != 4 || segments[0] != "seven" || segments[3] != "evidence" then Err(SubjectError)
                    else Ok(Evidence(
                              evidenceId, observationId, sourceId, segments[2],
                              state.observedAtNanos, 0, ReadExpiry(x),
                              m.payload.bytes, provenance, parents, signature))
  }

  /** The message carries the four segments of the subject grammar. */
  lemma SubjectSegments(grammar: string -> bool, subjectId: string, domain: string)
    requires EvidenceSubject(grammar, subjectId, domain).Ok?
    ensures Segments(EvidenceSubject(grammar, subjectId, domain).value) == ["seven", domain, subjectId, "evidence"]
  {
    FourSegments("seven", domain, subjectId, "evidence");
  }

  lemma FourSegments(a: string, b: string, c: string, d: string)
    requires DotFree(a) && DotFree(b) && DotFree(c) && DotFree(d)
    ensures Segments(a + "." + (b + "." + (c + "." + d))) == [a, b, c, d]
  {
    var tail := c + "." + d;
    SegmentsOfJoin(a, b + "." + tail);
    SegmentsOfJoin(b, tail);
    SegmentsOfJoin(c, d);
    SegmentsOfJoin(d, "");
  }

  /** The extension map `x` describes the evidence `e`. */
  ghost predicate Describes(x: map<string, Value>, e: Evidence) {
    && EVIDENCE_ID in x && x[EVIDENCE_ID] == Str(Hex(e.evidenceId))
    && OBSERVATION_ID in x && x[OBSERVATION_ID] == Str(Hex(e.observationId))
    && SOURCE_ID in x && x[SOURCE_ID] == Str(Hex(e.sourceId))
    && PROVENANCE in x && x[PROVENANCE] == ProvenanceValue(e.provenance)
    && EXPIRES_AT in x && x[EXPIRES_AT] == Number(e.expiresAtNanos)
    && PARENT_IDS in x && x[PARENT_IDS] == Array(ParentValues(e.parents))
    && (e.signature.Some? ==> SIGNATURE in x && x[SIGNATURE] == Str(Hex(e.signature.value)))
    && (e.signature.None? ==> SIGNATURE !in x)
  }

  lemma ExtensionsDescribe(e: Evidence)
    ensures Describes(Extensions(e), e)
  {
    ExtensionNames();
  }

  /** Every reader recovers what the projection put into the extensions. */
  lemma ExtensionsReadBack(x: map<string, Value>, e: Evidence)
    requires Describes(x, e)
    ensures ParseHex32(Text(x, EVIDENCE_ID)) == Ok(e.evidenceId)
    ensures ParseHex32(Text(x, OBSERVATION_ID)) == Ok(e.observationId)
    ensures ReadSource(x) == Ok(e.sourceId)
    ensures ParseProvenance(x[PROVENANCE]) == Some(e.provenance)
    ensures ReadParents(x) == Some(e.parents)
    ensures ReadSignature(x) == Ok(e.signature)
    ensures ReadExpiry(x) == e.expiresAtNanos
  {
    HexRoundTrip(e.evidenceId);
    HexRoundTrip(e.observationId);
    HexRoundTrip(e.sourceId);
    ProvenanceRoundTrip(e.provenance);
    ParentsRoundTrip(e.parents);
    if e.signature.Some? {
      HexRoundTrip(e.signature.value);
    }
  }

  /** A message that describes evidence, with its subject and payload, is recovered as that evidence. */
  lemma DescribedIsRecovered(m: Message, e: Evidence)
    requires m.payload == PostcardBytes(e.payload) && Describes(m.extensions, e)
    requires var segments := Segments(m.subject);
             |segments| == 4 && segments[0] == "seven" && segments[2] == e.subject && segments[3] == "evidence"
    ensures FromMessage(m)
         == match FromCanonicalBytes(e.payload)
            case Err(_) => Err(CanonicalFailure)
            case Ok(state) => Ok(e.(receivedAtNanos := 0, observedAtNanos := state.observedAtNanos))
  {
    ExtensionsReadBack(m.extensions, e);
  }

  /**
   * Projecting evidence onto a message and back gives the evidence with the
   * receipt time cleared exactly when its payload decodes to a state observed
   * at the time that the evidence states. A payload that does not decode is an
   * explicit error, and one with another time only replaces the observation time.
   */
  lemma ProjectionRoundTrip(grammar: string -> bool, e: Evidence, domain: string)
    requires ToMessage(grammar, e, domain).Ok?
    ensures var back := FromMessage(ToMessage(grammar, e, domain).value);
            match FromCanonicalBytes(e.payload)
            case Err(_) => back == Err(CanonicalFailure)
            case Ok(state) =>
              && back == Ok(e.(receivedAtNanos := 0, observedAtNanos := state.observedAtNanos))
              && (back == Ok(e.(receivedAtNanos := 0)) <==> state.observedAtNanos == e.observedAtNanos)
  {
    var m := ToMessage(grammar, e, domain).value;
    SubjectSegments(grammar, e.subject, domain);
    ExtensionsDescribe(e);
    DescribedIsRecovered(m, e);
  }

  /** A source id is read exactly when it is absent or its text has even length and 32 good pairs. */
  lemma SourceIsReadIff(x: map<string, Value>)
    ensures ReadSource(x).Ok?
       <==> SOURCE_ID !in x || (x[SOURCE_ID].Str? && |x[SOURCE_ID].s| % 2 == 0 && ValidPairs(x[SOURCE_ID].s) == 32)
  {
    if SOURCE_ID in x {
      ParseHex32AcceptsIff(Text(x, SOURCE_ID));
    }
  }

  /** The message with two bad characters put before its source id. */
  function WithMalformedSource(m: Message, id: Id32): Message {
    m.(extensions := m.extensions[SOURCE_ID := Str("zz" + Hex(id))])
  }

  lemma MalformedSourceReadsAlike(x: map<string, Value>, e: Evidence)
    requires Describes(x, e)
    ensures var y := x[SOURCE_ID := Str("zz" + Hex(e.sourceId))];
            && ReadSource(y) == ReadSource(x)
            && Text(y, EVIDENCE_ID) == Text(x, EVIDENCE_ID) && Text(y, OBSERVATION_ID) == Text(x, OBSERVATION_ID)
            && PROVENANCE in y && y[PROVENANCE] == x[PROVENANCE] && ReadParents(y) == ReadParents(x)
            && ReadSignature(y) == ReadSignature(x) && ReadExpiry(y) == ReadExpiry(x)
  {
    ExtensionNames();
    MalformedIdIsAccepted(e.sourceId);
    HexRoundTrip(e.sourceId);
  }

  /**
   * A malformed source id is not always an error: with bad characters before
   * it, the message is recovered as it is without them.
   */
  lemma MalformedSourceIsAccepted(grammar: string -> bool, e: Evidence, domain: string)
    requires ToMessage(grammar, e, domain).Ok?
    ensures var m := ToMessage(grammar, e, domain).value;
            FromMessage(WithMalformedSource(m, e.sourceId)) == FromMessage(m)
  {
    ExtensionsDescribe(e);
    MalformedSourceReadsAlike(Extensions(e), e);
  }

  /**
   * The message of evidence, in its wire names: an event under the four-part
   * subject, with the payload bytes and the extensions that carry the rest.
   */
  lemma ProjectedWire(grammar: string -> bool, e: Evidence, domain: string)
    requires ToMessage(grammar, e, domain).Ok?
    ensures var m := ToMessage(grammar, e, domain).value; var x := m.extensions;
            && m.operation == Event && m.payload == PostcardBytes(e.payload)
            && m.subject == "seven." + domain + "." + e.subject + ".evidence" && grammar(m.subject)
            && "seven_evidence_id" in x && x["seven_evidence_id"] == Str(Hex(e.evidenceId))
            && "seven_observation_id" in x && x["seven_observation_id"] == Str(Hex(e.observationId))
            && "seven_source_id" in x && x["seven_source_id"] == Str(Hex(e.sourceId))
            && "seven_provenance" in x && x["seven_provenance"] == ProvenanceValue(e.provenance)
            && "seven_expires_at" in x && x["seven_expires_at"] == Number(e.expiresAtNanos)
            && "seven_parent_ids" in x && x["seven_parent_ids"] == Array(ParentValues(e.parents))
            && ("seven_signature" in x <==> e.signature.Some?)
            && (e.signature.Some? ==> x["seven_signature"] == Str(Hex(e.signature.value)))
  {
    ExtensionNames();
    ExtensionsDescribe(e);
    SubjectText(domain, e.subject);
  }

  lemma SubjectText(domain: string, subject: string)
    ensures "seven" + "." + (domain + "." + (subject + "." + "evidence"))
         == "seven." + domain + "." + subject + ".evidence"
  {
    var (a, b, c, d) := ("seven" + ".", domain + ".", subject + ".", "evidence");
    assert "." + d == ".evidence" && a == "seven.";
    Associative(b, c, d);
    Associative(a, b, c + d);
    Associative(a + b, c, d);
    Associative(domain, ".", subject + ".");
    assert a + b + c + d == "seven." + domain + "." + subject + ".evidence" by {
      Associative("seven.", domain, ".");
      Associative("seven." + domain + ".", subject, ".");
      Associative("seven." + domain + "." + subject, ".", d);
    }
  }

  /** Evidence is refused exactly for an empty or dotted domain or subject, or one that the grammar refuses. */
  lemma ProjectedIff(grammar: string -> bool, e: Evidence, domain: string)
    ensures ToMessage(grammar, e, domain).Ok?
       <==> && domain != "" && e.subject != ""
            && (forall i :: 0 <= i < |domain| ==> domain[i] != '.')
            && (forall i :: 0 <= i < |e.subject| ==> e.subject[i] != '.')
            && grammar("seven." + domain + "." + e.subject + ".evidence")
    ensures ToMessage(grammar, e, domain).Err? ==> ToMessage(grammar, e, domain) == Err(SubjectError)
  {
    SubjectText(domain, e.subject);
  }

  /** A text of even length with 32 good pairs. */
  predicate ReadsAsId(s: string) {
    |s| % 2 == 0 && ValidPairs(s) == 32
  }

  /** Every string in the list of parents has even length. */
  predicate EvenTexts(items: seq<Value>) {
    forall v :: v in items && v.Str? ==> |v.s| % 2 == 0
  }

  lemma {:induction false} ParentsPanicIff(items: seq<Value>)
    ensures ParseParents(items).Some? <==> EvenTexts(items)
    decreases |items|
  {
    if items != [] {
      ParentsPanicIff(items[1..]);
      assert items == [items[0]] + items[1..];
      if items[0].Str? {
        ParseHex32AcceptsIff(items[0].s);
      }
    }
  }

  /** The parent that a value is read as, if any: a string that reads as an id. */
  function KeptParent(v: Value): (ids: seq<Id32>)
    ensures ids == [] <==> !v.Str? || !ReadsAsId(v.s)
    ensures forall id :: id in ids ==> ids == [id] && v.Str? && ParseHex32(v.s) == Ok(id)
  {
    if v.Str? then
      ParseHex32AcceptsIff(v.s);
      match ParseHex32(v.s)
      case Ok(id) => [id]
      case Err(_) => []
    else []
  }

  lemma FirstParent(v: Value, rest: seq<Value>, items: seq<Value>)
    requires items == [v] + rest && EvenTexts(items) && ParseParents(rest).Some?
    ensures ParseParents(items) == Some(KeptParent(v) + ParseParents(rest).value)
  {
    assert items[0] == v && items[1..] == rest && v in items;
    if v.Str? {
      ParseHex32AcceptsIff(v.s);
    }
    assert [] + ParseParents(rest).value == ParseParents(rest).value;
  }

  /** The parents of two lists together are the parents of each, in order; each value is read by itself. */
  lemma {:induction false} ParentsOfAppend(a: seq<Value>, b: seq<Value>)
    requires EvenTexts(a + b)
    ensures ParseParents(a).Some? && ParseParents(b).Some?
    ensures ParseParents(a + b) == Some(ParseParents(a).value + ParseParents(b).value)
    ensures |a| == 1 ==> ParseParents(a) == Some(KeptParent(a[0]))
    decreases |a|
  {
    assert forall v :: v in a || v in b ==> v in a + b;
    ParentsPanicIff(a);
    ParentsPanicIff(b);
    if a == [] {
      assert a + b == b;
      assert [] + ParseParents(b).value == ParseParents(b).value;
    } else {
      var rest := a[1..];
      assert a == [a[0]] + rest && a + b == [a[0]] + (rest + b);
      ParentsOfAppend(rest, b);
      FirstParent(a[0], rest, a);
      FirstParent(a[0], rest + b, a + b);
      Associative(KeptParent(a[0]), ParseParents(rest).value, ParseParents(b).value);
      assert |a| == 1 ==> rest == [] && KeptParent(a[0]) + [] == KeptParent(a[0]);
    }
  }

  /** An expiry is read from a whole number in the 64-bit range; anything else means no expiry. */
  lemma ExpiryIsRead(x: map<string, Value>)
    ensures ReadExpiry(x)
         == if "seven_expires_at" in x && x["seven_expires_at"].Number?
               && -0x8000_0000_0000_0000 <= x["seven_expires_at"].n <= 0x7fff_ffff_ffff_ffff
            then x["seven_expires_at"].n else 0x7fff_ffff_ffff_ffff
  {
  }

  /** What the extensions must be for a message to be recovered. */
  ghost predicate Readable(x: map<string, Value>) {
    && ReadsAsId(Text(x, "seven_evidence_id")) && ReadsAsId(Text(x, "seven_observation_id"))
    && ("seven_source_id" in x ==> ReadsAsId(Text(x, "seven_source_id")))
    && ("seven_provenance" in x ==> ParseProvenance(x["seven_provenance"]).Some?)
    && ("seven_parent_ids" in x && x["seven_parent_ids"].Array? ==> EvenTexts(x["seven_parent_ids"].items))
    && ("seven_signature" in x && x["seven_signature"].Str? ==> |x["seven_signature"].s| % 2 == 0)
  }

  lemma ReadersSucceedIff(x: map<string, Value>)
    ensures Readable(x)
       <==> && ParseHex32(Text(x, EVIDENCE_ID)).Ok? && ParseHex32(Text(x, OBSERVATION_ID)).Ok?
            && ParseProvenance(if PROVENANCE in x then x[PROVENANCE] else ProvenanceValue([])).Some?
            && ReadParents(x).Some? && ReadSource(x).Ok? && ReadSignature(x).Ok?
  {
    ParseHex32AcceptsIff(Text(x, EVIDENCE_ID));
    ParseHex32AcceptsIff(Text(x, OBSERVATION_ID));
    ParseHex32AcceptsIff(Text(x, SOURCE_ID));
    ProvenanceRoundTrip([]);
    if PARENT_IDS in x && x[PARENT_IDS].Array? {
      ParentsPanicIff(x[PARENT_IDS].items);
    }
    if SIGNATURE in x && x[SIGNATURE].Str? {
      HexBytesCounts(x[SIGNATURE].s);
    }
  }

  /**
   * A message is recovered exactly when it carries postcard bytes that decode,
   * its extensions are readable, and its subject has the four segments of the
   * grammar; the third one is the subject of the evidence.
   */
  lemma RecoveredIff(m: Message)
    ensures FromMessage(m).Ok?
       <==> && m.payload.PostcardBytes? && FromCanonicalBytes(m.payload.bytes).Ok? && Readable(m.extensions)
            && exists domain, subject :: Segments(m.subject) == ["seven", domain, subject, "evidence"]
    ensures FromMessage(m).Ok? ==>
              && Segments(m.subject)[2..3] == [FromMessage(m).value.subject]
              && FromMessage(m).value.payload == m.payload.bytes && FromMessage(m).value.receivedAtNanos == 0
    ensures !m.payload.PostcardBytes? ==> FromMessage(m) == Err(UnexpectedPayload)
    ensures m.payload.PostcardBytes? && FromCanonicalBytes(m.payload.bytes).Ok? && Readable(m.extensions)
              && (forall domain, subject :: Segments(m.subject) != ["seven", domain, subject, "evidence"])
        ==> FromMessage(m) == Err(SubjectError)
  {
    ReadersSucceedIff(m.extensions);
    FourSegmentsIff(Segments(m.subject));
  }

  lemma FourSegmentsIff(segments: seq<string>)
    ensures |segments| == 4 && segments[0] == "seven" && segments[3] == "evidence"
       <==> exists domain, subject :: segments == ["seven", domain, subject, "evidence"]
  {
    if |segments| == 4 && segments[0] == "seven" && segments[3] == "evidence" {
      assert segments == ["seven", segments[1], segments[2], "evidence"];
    }
  }

  /** The extensions of older messages: without source, expiry, provenance, parents and signature. */
  function WithoutNewer(m: Message): Message {
    m.(extensions := m.extensions
         - {"seven_source_id", "seven_expires_at", "seven_provenance", "seven_parent_ids", "seven_signature"})
  }

  /** What an older message lacks is recovered as the zero key, no expiry, and no provenance, parents or signature. */
  lemma OlderMessage(grammar: string -> bool, e: Evidence, domain: string)
    requires ToMessage(grammar, e, domain).Ok? && FromCanonicalBytes(e.payload).Ok?
    ensures FromMessage(WithoutNewer(ToMessage(grammar, e, domain).value))
         == Ok(e.(sourceId := seq(32, _ => 0), expiresAtNanos := 0x7fff_ffff_ffff_ffff, provenance := [],
                  parents := [], signature := None, receivedAtNanos := 0,
                  observedAtNanos := FromCanonicalBytes(e.payload).value.observedAtNanos))
  {
    var m := ToMessage(grammar, e, domain).value;
    SubjectSegments(grammar, e.subject, domain);
    ExtensionsDescribe(e);
    OlderExtensions(m.extensions, e);
  }

  lemma OlderExtensions(x: map<string, Value>, e: Evidence)
    requires Describes(x, e)
    ensures var y := x
              - {"seven_source_id", "seven_expires_at", "seven_provenance", "seven_parent_ids", "seven_signature"};
            && ParseHex32(Text(y, EVIDENCE_ID)) == Ok(e.evidenceId)
            && ParseHex32(Text(y, OBSERVATION_ID)) == Ok(e.observationId)
            && ReadSource(y) == Ok(seq(32, _ => 0))
            && PROVENANCE !in y && ParseProvenance(ProvenanceValue([])) == Some([])
            && ReadParents(y) == Some([]) && ReadSignature(y) == Ok(None) && ReadExpiry(y) == I64_MAX
  {
    ExtensionNames();
    HexRoundTrip(e.evidenceId);
    HexRoundTrip(e.observationId);
    ProvenanceRoundTrip([]);
  }

  /**
   * The verdict of `verify` survives the projection, whatever the evidence: the
   * receiver judges as the sender would.
   */
  lemma ProjectionKeepsVerdict(c: Crypto, grammar: string -> bool, e: Evidence, domain: string)
    requires ToMessage(grammar, e, domain).Ok? && FromCanonicalBytes(e.payload).Ok?
    ensures FromMessage(ToMessage(grammar, e, domain).value).Ok?
    ensures Verify(c, FromMessage(ToMessage(grammar, e, domain).value).value) == Verify(c, e)
  {
    ProjectionRoundTrip(grammar, e, domain);
  }

  /** Minted evidence survives the projection and still verifies after it. */
  lemma MintedProjection(c: Crypto, grammar: string -> bool, s: Shipment, domain: string)
    requires SoundSigning(c) && ToMessage(grammar, Mint(c, s), domain).Ok?
    ensures FromMessage(ToMessage(grammar, Mint(c, s), domain).value) == Ok(Mint(c, s).(receivedAtNanos := 0))
    ensures Verify(c, Mint(c, s).(receivedAtNanos := 0)) == Ok(())
  {
    MintVerifies(c, s);
    ProjectionRoundTrip(grammar, Mint(c, s), domain);
  }

  // ------------------------------------------------------------------
  // Transport
  // ------------------------------------------------------------------

  datatype LossyMql = LossyMql(seed: Seed, lossP: real, dupP: real) {

    /** No copy, one copy or two copies of the message, never altered. */
    function Deliver(rng: Oracle, m: Message, sequence: Seed): seq<Message> {
      Copies(FateOf(rng, Xor(seed, sequence), lossP, dupP), m)
    }

    /** What the draws of a delivery decide. */
    lemma DeliverByDraws(rng: Oracle, m: Message, sequence: Seed)
      ensures var (loss, dup) := (rng.unit(Xor(seed, sequence), 0), rng.unit(Xor(seed, sequence), 1));
              && (Deliver(rng, m, sequence) == [] <==> loss < lossP)
              && (Deliver(rng, m, sequence) == [m, m] <==> loss >= lossP && dup < dupP)
              && (Deliver(rng, m, sequence) == [m] <==> loss >= lossP && dup >= dupP)
    {
      CopiesByDraws(rng, Xor(seed, sequence), lossP, dupP, m);
    }
  }
}
