/** seven-mql, `lora.rs`: the compact frame, its fragmentation and its reassembly. */
module Lora {
  import opened Basics
  import opened Core
  import opened Evidence

  const VERSION: byte := 1
  const LORA_APP_BUDGET: nat := 200
  const LORA_PACKET_MAX: nat := 237
  const HEADER_LEN: nat := 100

  datatype LoraFrame = LoraFrame(
    evidenceId: Id32,
    observationId: Id32,
    sourceId: Id32,
    hopCount: byte,
    payload: Bytes,
    signature: Option<Bytes>)

  datatype LoraError =
    | PayloadTooLong
    | BadSignatureLength
    | FrameTooShort
    | UnsupportedVersion
    | TruncatedPayload
    | TruncatedSignature
    | TrailingBytes
    | MtuTooSmall
    | EmptyFrame
    | TooManyFragments
    | NoFragments
    | ZeroTotal
    | MixedFragments
    | IndexOutOfRange
    | MissingFragments

  // ------------------------------------------------------------------
  // Frame codec
  // ------------------------------------------------------------------

  function FromEvidence(e: Evidence): LoraFrame {
    LoraFrame(e.evidenceId, e.observationId, e.sourceId, Min(|e.provenance|, 255), e.payload, e.signature)
  }

  function SignatureBytes(f: LoraFrame): Bytes {
    match f.signature
    case None => []
    case Some(sig) => sig
  }

  function Encode(f: LoraFrame): Result<Bytes, LoraError> {
    if |f.payload| > 255 then Err(PayloadTooLong)
    else if f.signature.Some? && |f.signature.value| != SIG_LEN then Err(BadSignatureLength)
    else
      var flags: byte := if f.signature.Some? then 1 else 0;
      Ok([VERSION, flags, f.hopCount, |f.payload|]
         + f.evidenceId + f.observationId + f.sourceId + f.payload + SignatureBytes(f))
  }

  /** The encoder, growing its output buffer field by field. */
  method EncodeFrame(f: LoraFrame) returns (r: Result<Bytes, LoraError>)
    ensures r == Encode(f)
  {
    if |f.payload| > 255 {
      return Err(PayloadTooLong);
    }
    if f.signature.Some? && |f.signature.value| != SIG_LEN {
      return Err(BadSignatureLength);
    }
    var flags: byte := if f.signature.Some? then 1 else 0;
    var out: Bytes := [];
    out := out + [VERSION];
    out := out + [flags];
    out := out + [f.hopCount];
    out := out + [|f.payload|];
    out := out + f.evidenceId;
    out := out + f.observationId;
    out := out + f.sourceId;
    out := out + f.payload;
    if f.signature.Some? {
      out := out + f.signature.value;
    }
    assert out == Encode(f).value;
    r := Ok(out);
  }

  function Decode(b: Bytes): Result<LoraFrame, LoraError> {
    if |b| < HEADER_LEN then Err(FrameTooShort)
    else if b[0] != VERSION then Err(UnsupportedVersion)
    else
      var payloadEnd := HEADER_LEN + b[3];
      if |b| < payloadEnd then Err(TruncatedPayload)
      else
        var frame := LoraFrame(b[4..36], b[36..68], b[68..100], b[2], b[100..payloadEnd], None);
        if b[1] % 2 == 1 then
          if |b| < payloadEnd + SIG_LEN then Err(TruncatedSignature)
          else if |b| != payloadEnd + SIG_LEN then Err(TrailingBytes)
          else Ok(frame.(signature := Some(b[payloadEnd..])))
        else if |b| != payloadEnd then Err(TrailingBytes)
        else Ok(frame)
  }

  /** Where each field of an encoding lies. */
  lemma Layout(f: LoraFrame)
    requires Encode(f).Ok?
    ensures var b := Encode(f).value; var end := HEADER_LEN + |f.payload|;
            && |b| == end + |SignatureBytes(f)|
            && b[..4] == [VERSION, if f.signature.Some? then 1 else 0, f.hopCount, |f.payload|]
            && b[4..36] == f.evidenceId && b[36..68] == f.observationId && b[68..100] == f.sourceId
            && b[100..end] == f.payload && b[end..] == SignatureBytes(f)
  {
    var flags: byte := if f.signature.Some? then 1 else 0;
    var head: Bytes := [VERSION, flags, f.hopCount, |f.payload|];
    var tail := SignatureBytes(f);
    var b := Encode(f).value;
    Rightwards(head, f.evidenceId, f.observationId, f.sourceId, f.payload, tail);
    assert b[0..] == b;
    Peel(b, 0, head, f.evidenceId + (f.observationId + (f.sourceId + (f.payload + tail))));
    Peel(b, 4, f.evidenceId, f.observationId + (f.sourceId + (f.payload + tail)));
    Peel(b, 36, f.observationId, f.sourceId + (f.payload + tail));
    Peel(b, 68, f.sourceId, f.payload + tail);
    Peel(b, 100, f.payload, tail);
  }

  lemma Rightwards(a: Bytes, b: Bytes, c: Bytes, d: Bytes, e: Bytes, f: Bytes)
    ensures a + b + c + d + e + f == a + (b + (c + (d + (e + f))))
  {
    Associative(a + b + c + d, e, f);
    Associative(a + b + c, d, e + f);
    Associative(a + b, c, d + (e + f));
    Associative(a, b, c + (d + (e + f)));
  }

  /** Decoding inverts encoding on every frame that can be encoded. */
  lemma FrameRoundTrip(f: LoraFrame)
    requires Encode(f).Ok?
    ensures Decode(Encode(f).value) == Ok(f)
  {
    Layout(f);
    var b := Encode(f).value;
    assert b[0] == b[..4][0] && b[1] == b[..4][1] && b[2] == b[..4][2] && b[3] == b[..4][3];
  }

  /** Every decodable frame is the encoding of what it decodes to, up to the ignored bits 1 to 7 of the flag byte. */
  lemma DecodedFrameReencodes(b: Bytes)
    requires Decode(b).Ok?
    ensures Encode(Decode(b).value) == Ok(b[1 := b[1] % 2])
  {
    var f := Decode(b).value;
    var (end, flags: byte) := (HEADER_LEN + |f.payload|, b[1] % 2);
    var cleared := b[1 := flags];
    assert cleared[..4] == [VERSION, flags, f.hopCount, |f.payload|];
    assert cleared[4..] == b[4..] && cleared[0..] == cleared && b[end..] == SignatureBytes(f);
    Cut(cleared, 0, 4);
    Cut(b, 4, 36);
    Cut(b, 36, 68);
    Cut(b, 68, 100);
    Cut(b, 100, end);
    Rightwards(cleared[..4], f.evidenceId, f.observationId, f.sourceId, f.payload, SignatureBytes(f));
  }

  /** A frame can be encoded exactly when its payload fits the length byte and its signature has 64 bytes. */
  lemma EncodeIff(f: LoraFrame)
    ensures Encode(f) == Err(PayloadTooLong) <==> |f.payload| > 255
    ensures Encode(f) == Err(BadSignatureLength)
       <==> |f.payload| <= 255 && f.signature.Some? && |f.signature.value| != 64
    ensures Encode(f).Ok? <==> |f.payload| <= 255 && (f.signature.Some? ==> |f.signature.value| == 64)
  {
  }

  /** The length that a header announces. */
  function AnnouncedLength(b: Bytes): nat
    requires |b| >= 100
  {
    100 + b[3] as int + if b[1] % 2 == 1 then 64 else 0
  }

  /** Bytes are decoded exactly when they have a header of version 1 and the length that it announces. */
  lemma DecodeIff(b: Bytes)
    ensures Decode(b).Ok? <==> |b| >= 100 && b[0] == 1 && |b| == AnnouncedLength(b)
    ensures Decode(b) == Err(FrameTooShort) <==> |b| < 100
    ensures Decode(b) == Err(UnsupportedVersion) <==> |b| >= 100 && b[0] != 1
    ensures Decode(b) == Err(TruncatedPayload) <==> |b| >= 100 && b[0] == 1 && |b| < 100 + b[3] as int
    ensures Decode(b) == Err(TruncatedSignature)
       <==> |b| >= 100 && b[0] == 1 && 100 + b[3] as int <= |b| < AnnouncedLength(b)
    ensures Decode(b) == Err(TrailingBytes) <==> |b| >= 100 && b[0] == 1 && |b| > AnnouncedLength(b)
  {
  }

  /** No encoding is a proper prefix of another. */
  lemma FramePrefixFree(f: LoraFrame, g: LoraFrame)
    requires Encode(f).Ok? && Encode(g).Ok? && Encode(f).value <= Encode(g).value
    ensures f == g
  {
    Layout(f);
    Layout(g);
    var (a, b) := (Encode(f).value, Encode(g).value);
    assert a[..4] == b[..4];
    assert a[1] == a[..4][1] && a[3] == a[..4][3] && b[1] == b[..4][1] && b[3] == b[..4][3];
    assert |a| == |b|;
    assert a == b;
    FrameRoundTrip(f);
    FrameRoundTrip(g);
  }

  // ------------------------------------------------------------------
  // Frames of forwarded evidence
  // ------------------------------------------------------------------

  /**
   * The frame of evidence forwarded along `hops` carries the saturating hop
   * count and every field that `verify` reads: any evidence rebuilt around the
   * received fields verifies exactly like the original.
   */
  lemma ForwardedFrame(c: Crypto, e: Evidence, hops: seq<Hop>, rebuilt: Evidence)
    requires Encode(FromEvidence(e)).Ok?
    ensures Encode(FromEvidence(ForwardAll(e, hops))).Ok?
    ensures var f := Decode(Encode(FromEvidence(ForwardAll(e, hops))).value).value;
            && f.hopCount == Min(|e.provenance| + |hops|, 255)
            && f.observationId == e.observationId
            && (rebuilt.evidenceId == f.evidenceId && rebuilt.sourceId == f.sourceId
                && rebuilt.payload == f.payload && rebuilt.signature == f.signature
                ==> Verify(c, rebuilt) == Verify(c, e))
  {
    ForwardAllKeeps(e, hops);
    FrameRoundTrip(FromEvidence(ForwardAll(e, hops)));
  }

  /**
   * The frame of minted evidence can always be encoded, with 175 to 274 bytes,
   * and meets the application budget exactly for short payloads.
   */
  lemma MintedFrameSize(c: Crypto, s: Shipment)
    requires SoundSigning(c)
    ensures Encode(FromEvidence(Mint(c, s))).Ok?
    ensures var size := |Encode(FromEvidence(Mint(c, s))).value|; var payload := |CanonicalBytes(s.origin.state)|;
            && 175 <= size <= 274
            && size == 164 + payload
            && (size <= LORA_APP_BUDGET <==> payload <= 36)
  {
    ForwardAllKeeps(Originate(c, s.origin), s.relays);
    CanonicalRoundTrip(s.origin.state, []);
    Layout(FromEvidence(Mint(c, s)));
  }

  // ------------------------------------------------------------------
  // Fragmentation
  // ------------------------------------------------------------------

  const FRAGMENT_HEADER: nat := 6

  datatype Fragment = Fragment(frameId: nat, index: byte, total: byte, chunk: Bytes)

  /** `slice::chunks`: consecutive pieces of `per` bytes, the last one possibly shorter. */
  function Chunks(b: Bytes, per: nat): (chunks: seq<Bytes>)
    requires per > 0
  {
    if b == [] then [] else if |b| <= per then [b] else [b[..per]] + Chunks(b[per..], per)
  }

  function DivCeil(n: nat, d: nat): nat
    requires d > 0
  {
    if n % d == 0 then n / d else n / d + 1
  }

  function Fragments(b: Bytes, frameId: nat, mtu: nat): Result<seq<Fragment>, LoraError> {
    if mtu <= FRAGMENT_HEADER then Err(MtuTooSmall)
    else
      var per := mtu - FRAGMENT_HEADER;
      if b == [] then Err(EmptyFrame)
      else if DivCeil(|b|, per) > 255 then Err(TooManyFragments)
      else
        ChunksCount(b, per);
        var chunks := Chunks(b, per);
        Ok(seq(|chunks|, i requires 0 <= i < |chunks| => Fragment(frameId, i, |chunks|, chunks[i])))
  }

  /** The quotient and the remainder are the only ones that satisfy the division identity. */
  lemma QuotientIsUnique(n: nat, d: nat, q: nat, r: nat)
    requires d > 0 && n == q * d + r && r < d
    ensures n / d == q && n % d == r
  {
    var p, s := n / d, n % d;
    assert n == p * d + s;
    Multiple(p - q, d);
    Distribute(p, q, d);
  }

  lemma Multiple(k: int, d: nat)
    requires d > 0
    ensures k > 0 ==> k * d >= d
    ensures k < 0 ==> k * d + d <= 0
    ensures k == 0 ==> k * d == 0
  {
  }

  lemma Distribute(p: int, q: int, d: nat)
    ensures (p - q) * d == p * d - q * d
  {
  }

  lemma DivCeilStep(n: nat, d: nat)
    requires d > 0
    ensures 0 < n <= d ==> DivCeil(n, d) == 1
    ensures n > d ==> DivCeil(n, d) == 1 + DivCeil(n - d, d)
  {
    if n > d {
      var q, r := (n - d) / d, (n - d) % d;
      Distribute(q, -1, d);
      QuotientIsUnique(n, d, q + 1, r);
    } else if n == d {
      QuotientIsUnique(n, d, 1, 0);
    } else {
      QuotientIsUnique(n, d, 0, n);
    }
  }

  lemma {:induction false} ChunksCount(b: Bytes, per: nat)
    requires per > 0
    ensures b != [] ==> |Chunks(b, per)| == DivCeil(|b|, per)
    decreases |b|
  {
    if b != [] {
      DivCeilStep(|b|, per);
      if |b| > per {
        ChunksCount(b[per..], per);
      }
    }
  }

  /** The chunks are not empty, not too long, and concatenate to the bytes. */
  lemma {:induction false} ChunksCover(b: Bytes, per: nat)
    requires per > 0
    ensures forall chunk :: chunk in Chunks(b, per) ==> 0 < |chunk| <= per
    ensures Flatten(Chunks(b, per)) == b
    decreases |b|
  {
    if |b| > per {
      ChunksCover(b[per..], per);
      FlattenPrepend(b[..per], Chunks(b[per..], per));
      assert b[..per] + b[per..] == b;
    }
  }

  lemma FlattenPrepend(part: Bytes, parts: seq<Bytes>)
    ensures Flatten([part] + parts) == part + Flatten(parts)
  {
    assert ([part] + parts)[1..] == parts;
  }

  /** `n` needs at most `k` pieces of size `d` exactly when `k` pieces can hold it. */
  lemma DivCeilBound(n: nat, d: nat, k: nat)
    requires d > 0
    ensures DivCeil(n, d) <= k <==> n <= k * d
  {
    var q, r := n / d, n % d;
    assert n == q * d + r;
    Multiple(k - q, d);
    Distribute(k, q, d);
  }

  /**
   * Fragmentation fails exactly when no payload fits the mtu, the frame is
   * empty, or 255 fragments cannot hold it. Otherwise every fragment is
   * non-empty, fits the mtu on the wire, carries its position and the common
   * total, and the chunks concatenate to the frame.
   */
  lemma FragmentsExactly(b: Bytes, frameId: nat, mtu: nat)
    ensures Fragments(b, frameId, mtu).Err? <==> mtu <= 6 || b == [] || |b| > 255 * (mtu - 6)
    ensures Fragments(b, frameId, mtu).Err? ==>
              Fragments(b, frameId, mtu).error
              == if mtu <= 6 then MtuTooSmall else if b == [] then EmptyFrame else TooManyFragments
    ensures Fragments(b, frameId, mtu).Ok? ==>
              var fs := Fragments(b, frameId, mtu).value;
              && 0 < |fs| <= 255
              && (forall i :: 0 <= i < |fs| ==>
                    && fs[i].index == i && fs[i].total == |fs| && fs[i].frameId == frameId
                    && 0 < |fs[i].chunk| && FRAGMENT_HEADER + |fs[i].chunk| <= mtu)
              && Flatten(ChunksOf(fs)) == b
  {
    if mtu > 6 && b != [] {
      var per := mtu - 6;
      ChunksCount(b, per);
      ChunksCover(b, per);
      DivCeilBound(|b|, per, 255);
      DivCeilBound(|b|, per, 0);
      if DivCeil(|b|, per) <= 255 {
        var chunks := Chunks(b, per);
        var fs := Fragments(b, frameId, mtu).value;
        assert ChunksOf(fs) == chunks;
        forall i | 0 <= i < |fs| ensures 0 < |fs[i].chunk| <= per {
          assert chunks[i] in chunks;
        }
      }
    }
  }

  function ChunksOf(fs: seq<Fragment>): seq<Bytes> {
    seq(|fs|, i requires 0 <= i < |fs| => fs[i].chunk)
  }

  // ------------------------------------------------------------------
  // Reassembly
  // ------------------------------------------------------------------

  /** The first fragment in the list with this index. */
  function FirstWithIndex(fs: seq<Fragment>, index: int): (r: Option<Fragment>)
    ensures r.Some? ==> r.value in fs && r.value.index == index
    ensures r.None? ==> forall f :: f in fs ==> f.index != index
  {
    if fs == [] then None
    else if fs[0].index == index then Some(fs[0])
    else FirstWithIndex(fs[1..], index)
  }

  /** The error raised by the first fragment that does not belong to the set, if any. */
  function FirstMisfit(fs: seq<Fragment>, frameId: nat, total: byte): Option<LoraError> {
    if fs == [] then None
    else if fs[0].frameId != frameId || fs[0].total != total then Some(MixedFragments)
    else if fs[0].index >= total then Some(IndexOutOfRange)
    else FirstMisfit(fs[1..], frameId, total)
  }

  /** The contents of the slots from `index` on, concatenated; `None` when a slot is empty. */
  function Assemble(fs: seq<Fragment>, index: nat, total: nat): Option<Bytes>
    decreases total - index
  {
    if index >= total then Some([])
    else
      match FirstWithIndex(fs, index)
      case None => None
      case Some(f) =>
        Prepended(f.chunk, Assemble(fs, index + 1, total))
  }

  function Reassembled(fs: seq<Fragment>): Result<Bytes, LoraError> {
    if fs == [] then Err(NoFragments)
    else if fs[0].total == 0 then Err(ZeroTotal)
    else
      match FirstMisfit(fs, fs[0].frameId, fs[0].total)
      case Some(e) => Err(e)
      case None =>
        match Assemble(fs, 0, fs[0].total)
        case None => Err(MissingFragments)
        case Some(b) => Ok(b)
  }

  lemma FirstWithIndexAppend(fs: seq<Fragment>, f: Fragment, index: int)
    ensures FirstWithIndex(fs + [f], index)
         == if FirstWithIndex(fs, index).Some? then FirstWithIndex(fs, index)
            else if f.index == index then Some(f) else None
    decreases |fs|
  {
    if fs != [] {
      assert (fs + [f])[1..] == fs[1..] + [f];
      FirstWithIndexAppend(fs[1..], f, index);
    }
  }

  lemma FirstMisfitSplit(fs: seq<Fragment>, k: nat, frameId: nat, total: byte)
    requires k <= |fs|
    requires FirstMisfit(fs[..k], frameId, total).None?
    ensures FirstMisfit(fs, frameId, total) == FirstMisfit(fs[k..], frameId, total)
    decreases k
  {
    if k > 0 {
      assert fs[..k][1..] == fs[1..][..k - 1];
      FirstMisfitSplit(fs[1..], k - 1, frameId, total);
      assert fs[1..][k - 1..] == fs[k..];
    } else {
      assert fs[0..] == fs;
    }
  }

  lemma FirstMisfitAppend(fs: seq<Fragment>, f: Fragment, frameId: nat, total: byte)
    requires FirstMisfit(fs, frameId, total).None?
    ensures FirstMisfit(fs + [f], frameId, total) == FirstMisfit([f], frameId, total)
  {
    assert (fs + [f])[..|fs|] == fs && (fs + [f])[|fs|..] == [f];
    FirstMisfitSplit(fs + [f], |fs|, frameId, total);
  }

  /** The fragment at position `k` decides whether a list without misfits before it has one there. */
  lemma MisfitAt(fs: seq<Fragment>, k: nat, frameId: nat, total: byte)
    requires k < |fs| && FirstMisfit(fs[..k], frameId, total).None?
    ensures fs[k].frameId != frameId || fs[k].total != total ==> FirstMisfit(fs, frameId, total) == Some(MixedFragments)
    ensures fs[k].frameId == frameId && fs[k].total == total ==>
              if fs[k].index >= total then FirstMisfit(fs, frameId, total) == Some(IndexOutOfRange)
              else FirstMisfit(fs[..k + 1], frameId, total).None?
  {
    FirstMisfitSplit(fs, k, frameId, total);
    assert fs[k..][0] == fs[k] && fs[..k + 1] == fs[..k] + [fs[k]];
    FirstMisfitAppend(fs[..k], fs[k], frameId, total);
  }

  /** How one more fragment changes what the slots hold. */
  lemma SlotsAfter(fs: seq<Fragment>, k: nat)
    requires k < |fs|
    ensures forall i :: FirstWithIndex(fs[..k + 1], i)
                     == if FirstWithIndex(fs[..k], i).Some? then FirstWithIndex(fs[..k], i)
                        else if fs[k].index == i then Some(fs[k]) else None
  {
    assert fs[..k + 1] == fs[..k] + [fs[k]];
    forall i {
      FirstWithIndexAppend(fs[..k], fs[k], i);
    }
  }

  /** Fills one slot per index, keeping the first arrival, then concatenates the slots. */
  method Reassemble(fs: seq<Fragment>) returns (r: Result<Bytes, LoraError>)
    ensures r == Reassembled(fs)
  {
    if fs == [] {
      return Err(NoFragments);
    }
    var frameId, total := fs[0].frameId, fs[0].total;
    if total == 0 {
      return Err(ZeroTotal);
    }
    var slots := new Option<Fragment>[total as int](_ => None);
    var k := 0;
    while k < |fs|
      invariant 0 <= k <= |fs|
      invariant FirstMisfit(fs[..k], frameId, total).None?
      invariant forall i :: 0 <= i < total as int ==> slots[i] == FirstWithIndex(fs[..k], i)
    {
      var f := fs[k];
      MisfitAt(fs, k, frameId, total);
      if f.frameId != frameId || f.total != total {
        return Err(MixedFragments);
      }
      if f.index >= total {
        return Err(IndexOutOfRange);
      }
      SlotsAfter(fs, k);
      if slots[f.index].None? {
        slots[f.index] := Some(f);
      }
      k := k + 1;
    }
    assert fs[..k] == fs;
    var out: Bytes := [];
    PrependedNothing(Assemble(fs, 0, total));
    for i := 0 to total as int
      invariant forall j :: 0 <= j < total as int ==> slots[j] == FirstWithIndex(fs, j)
      invariant Assemble(fs, 0, total) == Prepended(out, Assemble(fs, i, total))
    {
      match slots[i] {
        case None => return Err(MissingFragments);
        case Some(f) =>
          ghost var before := out;
          out := out + f.chunk;
          PrependedTwice(before, f.chunk, Assemble(fs, i + 1, total));
      }
    }
    assert out + [] == out;
    r := Ok(out);
  }

  function Prepended(out: Bytes, tail: Option<Bytes>): Option<Bytes> {
    match tail
    case None => None
    case Some(b) => Some(out + b)
  }

  lemma PrependedTwice(a: Bytes, b: Bytes, tail: Option<Bytes>)
    ensures Prepended(a, Prepended(b, tail)) == Prepended(a + b, tail)
  {
    if tail.Some? {
      assert a + (b + tail.value) == a + b + tail.value;
    }
  }

  lemma PrependedNothing(tail: Option<Bytes>)
    ensures Prepended([], tail) == tail
  {
    if tail.Some? {
      assert [] + tail.value == tail.value;
    }
  }

  // ------------------------------------------------------------------
  // Reassembly is exact
  // ------------------------------------------------------------------

  /** Every fragment of `fs` is one of `all`. */
  ghost predicate DrawnFrom(fs: seq<Fragment>, all: seq<Fragment>) {
    forall f :: f in fs ==> f in all
  }

  ghost predicate Occurs(fs: seq<Fragment>, index: int) {
    exists f :: f in fs && f.index == index
  }

  ghost predicate EveryIndexOccurs(fs: seq<Fragment>, total: nat) {
    forall i :: 0 <= i < total ==> Occurs(fs, i)
  }

  /** `all` is a complete fragmentation: the fragment at position `i` has index `i`. */
  ghost predicate Numbered(all: seq<Fragment>, frameId: nat) {
    forall i :: 0 <= i < |all| ==> all[i].index == i && all[i].total == |all| && all[i].frameId == frameId
  }

  lemma NoMisfit(fs: seq<Fragment>, all: seq<Fragment>, frameId: nat)
    requires Numbered(all, frameId) && DrawnFrom(fs, all) && |all| <= 255
    ensures FirstMisfit(fs, frameId, |all|).None?
    decreases |fs|
  {
    if fs != [] {
      assert fs[0] in all;
      NoMisfit(fs[1..], all, frameId);
    }
  }

  lemma {:induction false} AssembleComplete(fs: seq<Fragment>, all: seq<Fragment>, frameId: nat, index: nat)
    requires Numbered(all, frameId) && DrawnFrom(fs, all) && EveryIndexOccurs(fs, |all|) && index <= |all|
    ensures Assemble(fs, index, |all|) == Some(Flatten(ChunksOf(all)[index..]))
    decreases |all| - index
  {
    if index < |all| {
      AssembleComplete(fs, all, frameId, index + 1);
      var chunks := ChunksOf(all);
      assert chunks[index..] == [chunks[index]] + chunks[index + 1..];
      assert Occurs(fs, index);
      var f := FirstWithIndex(fs, index).value;
      assert f in all && f == all[index];
    }
  }

  lemma {:induction false} MissingSlot(fs: seq<Fragment>, index: nat, missing: nat, total: nat)
    requires index <= missing < total && FirstWithIndex(fs, missing).None?
    ensures Assemble(fs, index, total).None?
    decreases missing - index
  {
    if index < missing {
      MissingSlot(fs, index + 1, missing, total);
    }
  }

  // ------------------------------------------------------------------
  // Reassembly of any list
  // ------------------------------------------------------------------

  /** The fragment at position `i` belongs with the first one. */
  predicate Fits(fs: seq<Fragment>, i: int)
    requires 0 <= i < |fs|
  {
    SameFrame(fs, i) && fs[i].index < fs[0].total
  }

  predicate SameFrame(fs: seq<Fragment>, i: int)
    requires 0 <= i < |fs|
  {
    fs[i].frameId == fs[0].frameId && fs[i].total == fs[0].total
  }

  predicate Belongs(f: Fragment, frameId: nat, total: byte) {
    f.frameId == frameId && f.total == total && f.index < total
  }

  /** Position `i` holds the first fragment with this index. */
  predicate IsFirst(fs: seq<Fragment>, i: int, index: int) {
    0 <= i < |fs| && fs[i].index == index && forall j :: 0 <= j < i ==> fs[j].index != index
  }

  /** The first fragment with this index carries the chunk. */
  ghost predicate FirstCarries(fs: seq<Fragment>, index: int, chunk: Bytes) {
    exists i :: IsFirst(fs, i, index) && fs[i].chunk == chunk
  }

  /** For every index from `from` on, `chunks` has what the first fragment with that index carries. */
  ghost predicate FirstChunks(fs: seq<Fragment>, from: int, chunks: seq<Bytes>) {
    forall k :: 0 <= k < |chunks| ==> FirstCarries(fs, from + k, chunks[k])
  }

  predicate AllFit(fs: seq<Fragment>) {
    forall i :: 0 <= i < |fs| ==> Fits(fs, i)
  }

  /** The first fragment that does not fit decides the error, wherever it is. */
  lemma {:induction false} FirstMisfitDecides(fs: seq<Fragment>, frameId: nat, total: byte, i: nat)
    requires i < |fs|
    requires forall j :: 0 <= j < i ==> Belongs(fs[j], frameId, total)
    requires !Belongs(fs[i], frameId, total)
    ensures FirstMisfit(fs, frameId, total)
         == Some(if fs[i].frameId == frameId && fs[i].total == total then IndexOutOfRange else MixedFragments)
    decreases i
  {
    if i > 0 {
      FirstMisfitDecides(fs[1..], frameId, total, i - 1);
    }
  }

  lemma {:induction false} NoMisfitWhenAllFit(fs: seq<Fragment>, frameId: nat, total: byte)
    requires forall j :: 0 <= j < |fs| ==> Belongs(fs[j], frameId, total)
    ensures FirstMisfit(fs, frameId, total).None?
    decreases |fs|
  {
    if fs != [] {
      NoMisfitWhenAllFit(fs[1..], frameId, total);
    }
  }

  lemma {:induction false} FirstWithIndexIsFirst(fs: seq<Fragment>, index: int) returns (i: int)
    requires FirstWithIndex(fs, index).Some?
    ensures IsFirst(fs, i, index) && FirstWithIndex(fs, index) == Some(fs[i])
    decreases |fs|
  {
    if fs[0].index == index {
      i := 0;
    } else {
      var k := FirstWithIndexIsFirst(fs[1..], index);
      i := k + 1;
      assert forall j :: 0 < j < i ==> fs[j] == fs[1..][j - 1];
    }
  }

  /** When every index occurs, the slots hold the first chunks from `index` on. */
  lemma {:induction false} AssembleFirstChunks(fs: seq<Fragment>, index: nat, total: nat) returns (chunks: seq<Bytes>)
    requires index <= total && EveryIndexOccurs(fs, total)
    ensures |chunks| == total - index && Assemble(fs, index, total) == Some(Flatten(chunks))
    ensures FirstChunks(fs, index, chunks)
    decreases total - index
  {
    if index == total {
      chunks := [];
    } else {
      assert Occurs(fs, index);
      var i := FirstWithIndexIsFirst(fs, index);
      var rest := AssembleFirstChunks(fs, index + 1, total);
      chunks := [fs[i].chunk] + rest;
      assert FirstCarries(fs, index, fs[i].chunk);
      forall k | 0 <= k < |chunks| ensures FirstCarries(fs, index + k, chunks[k]) {
        assert k > 0 ==> chunks[k] == rest[k - 1] && FirstCarries(fs, index + 1 + (k - 1), rest[k - 1]);
      }
    }
  }

  /**
   * Reassembly of any list of fragments. It succeeds exactly when the list is
   * not empty, all fragments are of one frame and one positive total, every
   * index is below the total and every index occurs; the result then is, index
   * by index, the chunk of the first fragment with that index.
   */
  lemma ReassemblyOfAnyList(fs: seq<Fragment>)
    ensures Reassembled(fs).Ok?
       <==> && fs != [] && fs[0].total > 0
            && AllFit(fs) && EveryIndexOccurs(fs, fs[0].total)
    ensures Reassembled(fs).Ok? ==>
              exists chunks: seq<Bytes> ::
                |chunks| == fs[0].total && FirstChunks(fs, 0, chunks) && Reassembled(fs).value == Flatten(chunks)
  {
    if fs != [] && fs[0].total > 0 {
      if AllFit(fs) {
        ReassemblyOfFitting(fs);
      } else {
        var i :| 0 <= i < |fs| && !Fits(fs, i);
        var first := FirstUnfit(fs, i);
        ReassemblyOfMisfit(fs, first);
      }
    }
  }

  lemma ReassemblyOfFitting(fs: seq<Fragment>)
    requires fs != [] && fs[0].total > 0 && AllFit(fs)
    ensures Reassembled(fs).Ok? <==> EveryIndexOccurs(fs, fs[0].total)
    ensures Reassembled(fs).Err? ==> Reassembled(fs) == Err(MissingFragments)
    ensures Reassembled(fs).Ok? ==>
              exists chunks: seq<Bytes> ::
                |chunks| == fs[0].total && FirstChunks(fs, 0, chunks) && Reassembled(fs).value == Flatten(chunks)
  {
    forall j | 0 <= j < |fs| ensures Belongs(fs[j], fs[0].frameId, fs[0].total) {
      assert Fits(fs, j);
    }
    NoMisfitWhenAllFit(fs, fs[0].frameId, fs[0].total);
    if EveryIndexOccurs(fs, fs[0].total) {
      var chunks := AssembleFirstChunks(fs, 0, fs[0].total);
      assert FirstChunks(fs, 0, chunks);
    } else {
      var missing :| 0 <= missing < fs[0].total as int && !Occurs(fs, missing);
      MissingSlot(fs, 0, missing, fs[0].total);
    }
  }

  /** The first fragment that does not fit. */
  lemma FirstUnfit(fs: seq<Fragment>, i: nat) returns (first: nat)
    requires i < |fs| && !Fits(fs, i)
    ensures first <= i && !Fits(fs, first) && forall j :: 0 <= j < first ==> Fits(fs, j)
  {
    first := 0;
    while Fits(fs, first)
      invariant first <= i && forall j :: 0 <= j < first ==> Fits(fs, j)
      decreases i - first
    {
      first := first + 1;
    }
  }

  /**
   * A list with a fragment that does not fit fails with the error of the first
   * one: another frame or total is a mixture, a large index is out of range.
   */
  lemma ReassemblyOfMisfit(fs: seq<Fragment>, i: nat)
    requires i < |fs| && fs[0].total > 0 && !Fits(fs, i) && forall j :: 0 <= j < i ==> Fits(fs, j)
    ensures Reassembled(fs) == Err(if SameFrame(fs, i) then IndexOutOfRange else MixedFragments)
  {
    forall j | 0 <= j < i ensures Belongs(fs[j], fs[0].frameId, fs[0].total) {
      assert Fits(fs, j);
    }
    FirstMisfitDecides(fs, fs[0].frameId, fs[0].total, i);
  }

  /** The errors of lists that no fragment makes unfit. */
  lemma ReassemblyErrors(fs: seq<Fragment>)
    ensures Reassembled(fs) == Err(NoFragments) <==> fs == []
    ensures fs != [] && fs[0].total == 0 ==> Reassembled(fs) == Err(ZeroTotal)
    ensures fs != [] && fs[0].total > 0 && AllFit(fs) && !EveryIndexOccurs(fs, fs[0].total)
        ==> Reassembled(fs) == Err(MissingFragments)
  {
    if fs != [] && fs[0].total > 0 {
      if AllFit(fs) {
        ReassemblyOfFitting(fs);
      } else {
        var i :| 0 <= i < |fs| && !Fits(fs, i);
        var first := FirstUnfit(fs, i);
        ReassemblyOfMisfit(fs, first);
      }
    }
  }

  /**
   * A non-empty list drawn from the fragments of a frame, in any order and with
   * any duplicates, reassembles to the frame when every index occurs in it, and
   * is an explicit error when one is missing.
   */
  lemma ReassemblyIsExact(b: Bytes, frameId: nat, mtu: nat, fs: seq<Fragment>)
    requires Fragments(b, frameId, mtu).Ok?
    requires fs != [] && DrawnFrom(fs, Fragments(b, frameId, mtu).value)
    ensures Reassembled(fs)
         == if EveryIndexOccurs(fs, |Fragments(b, frameId, mtu).value|) then Ok(b) else Err(MissingFragments)
  {
    var all := Fragments(b, frameId, mtu).value;
    FragmentsExactly(b, frameId, mtu);
    ReassemblyOfDrawn(b, frameId, all, fs);
  }

  lemma ReassemblyOfDrawn(b: Bytes, frameId: nat, all: seq<Fragment>, fs: seq<Fragment>)
    requires Numbered(all, frameId) && 0 < |all| <= 255 && Flatten(ChunksOf(all)) == b
    requires fs != [] && DrawnFrom(fs, all)
    ensures Reassembled(fs) == if EveryIndexOccurs(fs, |all|) then Ok(b) else Err(MissingFragments)
  {
    NoMisfit(fs, all, frameId);
    assert fs[0] in all;
    if EveryIndexOccurs(fs, |all|) {
      AssembleComplete(fs, all, frameId, 0);
      assert ChunksOf(all)[0..] == ChunksOf(all);
    } else {
      var missing :| 0 <= missing < |all| && !Occurs(fs, missing);
      assert FirstWithIndex(fs, missing).None?;
      MissingSlot(fs, 0, missing, |all|);
    }
  }

  /**
   * Minted evidence crosses the radio link in at most two packets of the
   * largest size, and comes back from them whole.
   */
  lemma MintedFrameTravels(c: Crypto, s: Shipment, frameId: nat, received: seq<Fragment>)
    requires SoundSigning(c)
    ensures Encode(FromEvidence(Mint(c, s))).Ok?
    ensures var frame := FromEvidence(Mint(c, s));
            var sent := Fragments(Encode(frame).value, frameId, LORA_PACKET_MAX);
            && sent.Ok? && |sent.value| <= 2 && (forall f :: f in sent.value ==> 6 + |f.chunk| <= 237)
            && (received != [] && DrawnFrom(received, sent.value) && EveryIndexOccurs(received, |sent.value|)
                ==> Reassembled(received).Ok? && Decode(Reassembled(received).value) == Ok(frame))
  {
    var frame := FromEvidence(Mint(c, s));
    MintedFrameSize(c, s);
    var b := Encode(frame).value;
    FragmentsExactly(b, frameId, LORA_PACKET_MAX);
    ChunksCount(b, LORA_PACKET_MAX - FRAGMENT_HEADER);
    DivCeilBound(|b|, LORA_PACKET_MAX - FRAGMENT_HEADER, 2);
    FrameRoundTrip(frame);
    var sent := Fragments(b, frameId, LORA_PACKET_MAX).value;
    if received != [] && DrawnFrom(received, sent) {
      ReassemblyIsExact(b, frameId, LORA_PACKET_MAX, received);
    }
  }
}
