/**
 * seven-mql, `quic.rs`: length-prefixed frames and count-prefixed batches over
 * an ordered byte stream (section 2.2 of RFC 9000). The JSON codec of a message
 * is a value of type `Codec`.
 */
module Quic {
  import opened Basics

  /** `serde_json::to_vec` and `serde_json::from_slice` for messages. */
  datatype Codec<!M> = Codec(ser: M -> Option<Bytes>, de: Bytes -> Option<M>)

  /** What the encoder writes, the decoder reads back. */
  ghost predicate Lossless<M(!new)>(c: Codec<M>) {
    forall m: M :: c.ser(m).Some? ==> c.de(c.ser(m).value) == Some(m)
  }

  datatype QuicError =
    | JsonEncode
    | JsonDecode
    | Oversize
    | BatchTooLarge
    | ReadCountFailed
    | ReadLengthFailed
    | ReadBodyFailed

  // ------------------------------------------------------------------
  // Frames
  // ------------------------------------------------------------------

  function EncodeFrame<M>(c: Codec<M>, m: M, max: nat): Result<Bytes, QuicError> {
    match c.ser(m)
    case None => Err(JsonEncode)
    case Some(body) =>
      if |body| > max then Err(Oversize)
      else Ok(BigEndian(|body| % U32_LIMIT) + body)
  }

  function DecodeFrame<M>(c: Codec<M>, b: Bytes, max: nat): (r: Result<Option<(M, nat)>, QuicError>)
    ensures r.Ok? && r.value.Some? ==> 4 <= r.value.value.1 <= |b|
  {
    if |b| < 4 then Ok(None)
    else
      var len := FromBigEndian(b[..4]);
      if len > max then Err(Oversize)
      else if |b| < 4 + len then Ok(None)
      else
        match c.de(b[4..4 + len])
        case None => Err(JsonDecode)
        case Some(m) => Ok(Some((m, 4 + len)))
  }

  /** The message has a body within the limit whose length fits the prefix. */
  predicate Framable<M>(c: Codec<M>, m: M, max: nat) {
    c.ser(m).Some? && |c.ser(m).value| <= max && |c.ser(m).value| < U32_LIMIT
  }

  function FrameOf<M>(c: Codec<M>, m: M, max: nat): Bytes
    requires Framable(c, m, max)
  {
    EncodeFrame(c, m, max).value
  }

  lemma FrameLayout<M>(c: Codec<M>, m: M, max: nat)
    requires Framable(c, m, max)
    ensures var f := FrameOf(c, m, max); var body := c.ser(m).value;
            && |f| == 4 + |body| && FromBigEndian(f[..4]) == |body| && f[4..] == body
  {
    BigEndianRoundTrip(|c.ser(m).value|);
    assert FrameOf(c, m, max)[..4] == BigEndian(|c.ser(m).value|);
  }

  /** A frame at the front of a buffer decodes to its message and its own length, whatever follows. */
  lemma FrameDecodes<M(!new)>(c: Codec<M>, m: M, max: nat, rest: Bytes)
    requires Lossless(c) && Framable(c, m, max)
    ensures DecodeFrame(c, FrameOf(c, m, max) + rest, max) == Ok(Some((m, |FrameOf(c, m, max)|)))
  {
    FrameLayout(c, m, max);
    var f := FrameOf(c, m, max);
    assert (f + rest)[..4] == f[..4];
    assert (f + rest)[4..|f|] == f[4..];
  }

  /**
   * What any announced length does to a receiver: above the limit it is refused
   * before the body is looked at; within it the receiver waits for the whole
   * body, and then takes exactly the body to the codec.
   */
  lemma AnnouncedLengthDecides<M>(c: Codec<M>, n: nat, rest: Bytes, max: nat)
    requires n < U32_LIMIT
    ensures DecodeFrame(c, BigEndian(n) + rest, max)
         == if n > max then Err(Oversize)
            else if |rest| < n then Ok(None)
            else if c.de(rest[..n]).None? then Err(JsonDecode)
            else Ok(Some((c.de(rest[..n]).value, 4 + n)))
    ensures RecvFrame(c, BigEndian(n) + rest, max)
         == if n > max then Err(Oversize)
            else if |rest| < n then Err(ReadBodyFailed)
            else if c.de(rest[..n]).None? then Err(JsonDecode)
            else Ok((c.de(rest[..n]).value, rest[n..]))
  {
    BigEndianRoundTrip(n);
    SplitAppend(BigEndian(n), rest);
    var b := BigEndian(n) + rest;
    if |rest| >= n {
      assert b[4..4 + n] == rest[..n] && b[4 + n..] == rest[n..];
    }
  }

  /** A message is refused exactly when it has no body or its body is above the limit. */
  lemma EncodeFrameIff<M>(c: Codec<M>, m: M, max: nat)
    ensures EncodeFrame(c, m, max) == Err(JsonEncode) <==> c.ser(m).None?
    ensures EncodeFrame(c, m, max) == Err(Oversize) <==> c.ser(m).Some? && |c.ser(m).value| > max
    ensures EncodeFrame(c, m, max).Ok? <==> c.ser(m).Some? && |c.ser(m).value| <= max
  {
  }

  /**
   * With a limit of 2^32 bytes or more the length prefix can wrap. An encoded
   * frame is decoded as a whole exactly when its body length fits the prefix.
   */
  lemma FrameRoundTripIffLengthFits<M(!new)>(c: Codec<M>, m: M, max: nat)
    requires Lossless(c) && EncodeFrame(c, m, max).Ok?
    ensures var f := EncodeFrame(c, m, max).value;
            DecodeFrame(c, f, max) == Ok(Some((m, |f|))) <==> |c.ser(m).value| < U32_LIMIT
  {
    var f := EncodeFrame(c, m, max).value;
    if Framable(c, m, max) {
      FrameDecodes(c, m, max, []);
      assert f + [] == f;
    } else {
      var wrapped := |c.ser(m).value| % U32_LIMIT;
      BigEndianRoundTrip(wrapped);
      assert f[..4] == BigEndian(wrapped);
    }
  }

  /** Every strict prefix of a frame waits for more bytes. */
  lemma PrefixOfFrameWaits<M>(c: Codec<M>, m: M, max: nat, k: nat)
    requires Framable(c, m, max) && k < |FrameOf(c, m, max)|
    ensures DecodeFrame(c, FrameOf(c, m, max)[..k], max) == Ok(None)
  {
    FrameLayout(c, m, max);
    if k >= 4 {
      assert FrameOf(c, m, max)[..k][..4] == FrameOf(c, m, max)[..4];
    }
  }

  /** Once a buffer gives a message or an error, more bytes never change the answer. */
  lemma DecodeIsStable<M>(c: Codec<M>, b: Bytes, more: Bytes, max: nat)
    requires DecodeFrame(c, b, max) != Ok(None)
    ensures DecodeFrame(c, b + more, max) == DecodeFrame(c, b, max)
  {
    assert (b + more)[..4] == b[..4];
    var len := FromBigEndian(b[..4]);
    if len <= max {
      assert (b + more)[4..4 + len] == b[4..4 + len];
    }
  }

  // ------------------------------------------------------------------
  // Draining a stream that arrives in chunks
  // ------------------------------------------------------------------

  /** The messages decoded so far, the bytes not yet consumed, and the error that stopped decoding, if any. */
  datatype Drained<M> = Drained(messages: seq<M>, rest: Bytes, error: Option<QuicError>)

  /** Decodes frames from the front of `b` until no complete frame is left. */
  function Drain<M>(c: Codec<M>, b: Bytes, max: nat): Drained<M>
    decreases |b|
  {
    match DecodeFrame(c, b, max)
    case Err(e) => Drained([], b, Some(e))
    case Ok(None) => Drained([], b, None)
    case Ok(Some((m, n))) =>
      var d := Drain(c, b[n..], max);
      d.(messages := [m] + d.messages)
  }

  /** A receiver that buffers a chunk and drains; after an error it only buffers. */
  function Feed<M>(c: Codec<M>, d: Drained<M>, chunk: Bytes, max: nat): Drained<M> {
    if d.error.Some? then d.(rest := d.rest + chunk)
    else
      var next := Drain(c, d.rest + chunk, max);
      next.(messages := d.messages + next.messages)
  }

  function FeedAll<M>(c: Codec<M>, d: Drained<M>, chunks: seq<Bytes>, max: nat): Drained<M>
    decreases chunks
  {
    if chunks == [] then d else FeedAll(c, Feed(c, d, chunks[0], max), chunks[1..], max)
  }

  lemma {:induction false} DrainOfAppend<M>(c: Codec<M>, a: Bytes, b: Bytes, max: nat)
    ensures Drain(c, a + b, max) == Feed(c, Drain(c, a, max), b, max)
    decreases |a|
  {
    match DecodeFrame(c, a, max)
    case Err(e) => DecodeIsStable(c, a, b, max);
    case Ok(None) =>
      assert [] + Drain(c, a + b, max).messages == Drain(c, a + b, max).messages;
    case Ok(Some((m, n))) =>
      DecodeIsStable(c, a, b, max);
      assert (a + b)[n..] == a[n..] + b;
      DrainOfAppend(c, a[n..], b, max);
      FeedAfter(c, m, Drain(c, a[n..], max), b, max);
  }

  /** What has been delivered already does not change what the next chunk delivers. */
  lemma FeedAfter<M>(c: Codec<M>, m: M, d: Drained<M>, chunk: Bytes, max: nat)
    ensures var fed := Feed(c, d, chunk, max);
            Feed(c, d.(messages := [m] + d.messages), chunk, max) == fed.(messages := [m] + fed.messages)
  {
    if d.error.None? {
      var more := Drain(c, d.rest + chunk, max).messages;
      assert [m] + (d.messages + more) == ([m] + d.messages) + more;
    }
  }

  /**
   * However the bytes are split into chunks, feeding the chunks one by one
   * gives what draining all of them at once gives.
   */
  lemma {:induction false} ChunkingIsIrrelevant<M>(c: Codec<M>, before: Bytes, chunks: seq<Bytes>, max: nat)
    ensures FeedAll(c, Drain(c, before, max), chunks, max) == Drain(c, before + Flatten(chunks), max)
    decreases |chunks|
  {
    if chunks == [] {
      assert before + Flatten(chunks) == before;
    } else {
      var next := before + chunks[0];
      DrainOfAppend(c, before, chunks[0], max);
      FeedFirst(c, Drain(c, before, max), Drain(c, next, max), chunks, max);
      ChunkingIsIrrelevant(c, next, chunks[1..], max);
      FlattenFirst(before, chunks);
    }
  }

  lemma FlattenFirst(before: Bytes, chunks: seq<Bytes>)
    requires chunks != []
    ensures (before + chunks[0]) + Flatten(chunks[1..]) == before + Flatten(chunks)
  {
  }

  lemma FeedFirst<M>(c: Codec<M>, d: Drained<M>, next: Drained<M>, chunks: seq<Bytes>, max: nat)
    requires chunks != [] && Feed(c, d, chunks[0], max) == next
    ensures FeedAll(c, d, chunks, max) == FeedAll(c, next, chunks[1..], max)
  {
  }

  ghost predicate AllFramable<M>(c: Codec<M>, ms: seq<M>, max: nat) {
    forall i :: 0 <= i < |ms| ==> Framable(c, ms[i], max)
  }

  function Frames<M>(c: Codec<M>, ms: seq<M>, max: nat): Bytes
    requires forall i :: 0 <= i < |ms| ==> Framable(c, ms[i], max)
  {
    if ms == [] then [] else FrameOf(c, ms[0], max) + Frames(c, ms[1..], max)
  }

  lemma {:induction false} DrainOfFrames<M(!new)>(c: Codec<M>, ms: seq<M>, max: nat)
    requires Lossless(c) && AllFramable(c, ms, max)
    ensures Drain(c, Frames(c, ms, max), max) == Drained(ms, [], None)
    decreases |ms|
  {
    if ms != [] {
      var (f, tail) := (FrameOf(c, ms[0], max), Frames(c, ms[1..], max));
      FrameDecodes(c, ms[0], max, tail);
      SplitAppend(f, tail);
      DrainOfFrames(c, ms[1..], max);
      assert [ms[0]] + ms[1..] == ms;
    }
  }

  /**
   * The concatenated frames of some messages, received in any split, yield
   * exactly those messages in order and leave nothing over.
   */
  lemma StreamDeliversInOrder<M(!new)>(c: Codec<M>, ms: seq<M>, chunks: seq<Bytes>, max: nat)
    requires Lossless(c) && AllFramable(c, ms, max)
    requires Flatten(chunks) == Frames(c, ms, max)
    ensures FeedAll(c, Drained([], [], None), chunks, max) == Drained(ms, [], None)
  {
    ChunkingIsIrrelevant(c, [], chunks, max);
    assert [] + Flatten(chunks) == Flatten(chunks);
    DrainOfFrames(c, ms, max);
  }

  // ------------------------------------------------------------------
  // Batches
  // ------------------------------------------------------------------

  /** The sending half of a stream. */
  class SendStream {
    var written: Bytes
    var finished: bool

    constructor ()
      ensures written == [] && !finished
    {
      written, finished := [], false;
    }

    method WriteAll(b: Bytes)
      requires !finished
      modifies this
      ensures written == old(written) + b && !finished
    {
      written := written + b;
    }

    method Finish()
      modifies this
      ensures finished && written == old(written)
    {
      finished := true;
    }
  }

  /** The receiving half: the bytes that will ever arrive, and how many have been read. */
  class RecvStream {
    const arriving: Bytes
    var position: nat

    constructor (b: Bytes)
      ensures arriving == b && position == 0
    {
      arriving, position := b, 0;
    }

    predicate Valid()
      reads this
    {
      position <= |arriving|
    }

    function Pending(): Bytes
      requires Valid()
      reads this
    {
      arriving[position..]
    }

    /** Reads exactly `n` bytes, or consumes what is left and fails. */
    method ReadExact(n: nat) returns (r: Option<Bytes>)
      requires Valid()
      modifies this
      ensures Valid()
      ensures n <= |old(Pending())| ==> r == Some(old(Pending())[..n]) && Pending() == old(Pending())[n..]
      ensures n > |old(Pending())| ==> r.None? && Pending() == []
    {
      if position + n <= |arriving| {
        assert Pending()[..n] == arriving[position..position + n];
        assert Pending()[n..] == arriving[position + n..];
        r := Some(arriving[position..position + n]);
        position := position + n;
      } else {
        r := None;
        position := |arriving|;
      }
    }
  }

  /** The frames written before the first message that cannot be encoded, and its error. */
  function FramesUntilError<M>(c: Codec<M>, ms: seq<M>, max: nat): (Bytes, Option<QuicError>) {
    if ms == [] then ([], None)
    else
      match EncodeFrame(c, ms[0], max)
      case Err(e) => ([], Some(e))
      case Ok(f) =>
        var (tail, error) := FramesUntilError(c, ms[1..], max);
        (f + tail, error)
  }

  /** What a batch puts on the stream, and the error that cuts it short. */
  function BatchBytes<M>(c: Codec<M>, ms: seq<M>, max: nat): (Bytes, Option<QuicError>) {
    if |ms| >= U32_LIMIT then ([], Some(BatchTooLarge))
    else
      var (frames, error) := FramesUntilError(c, ms, max);
      (BigEndian(|ms|) + frames, error)
  }

  /** Writes the count, then frame after frame; a message that cannot be encoded leaves the batch unfinished. */
  method SendMessages<M>(c: Codec<M>, stream: SendStream, ms: seq<M>, max: nat) returns (error: Option<QuicError>)
    requires !stream.finished
    modifies stream
    ensures stream.written == old(stream.written) + BatchBytes(c, ms, max).0
    ensures error == BatchBytes(c, ms, max).1
    ensures stream.finished <==> error.None?
  {
    if |ms| >= U32_LIMIT {
      assert stream.written == stream.written + [];
      return Some(BatchTooLarge);
    }
    stream.WriteAll(BigEndian(|ms|));
    ghost var start := stream.written;
    ghost var whole := FramesUntilError(c, ms, max);
    for i := 0 to |ms|
      invariant !stream.finished
      invariant |start| <= |stream.written| && stream.written[..|start|] == start
      invariant var (tail, e) := FramesUntilError(c, ms[i..], max);
                stream.written + tail == start + whole.0 && e == whole.1
    {
      assert ms[i..][0] == ms[i] && ms[i..][1..] == ms[i + 1..];
      match EncodeFrame(c, ms[i], max) {
        case Err(e) =>
          assert stream.written + [] == stream.written;
          return Some(e);
        case Ok(f) =>
          WriteFirst(stream.written, f, FramesUntilError(c, ms[i + 1..], max).0);
          stream.WriteAll(f);
      }
    }
    assert stream.written + [] == stream.written;
    stream.Finish();
    error := None;
  }

  lemma WriteFirst(written: Bytes, f: Bytes, tail: Bytes)
    ensures written + (f + tail) == (written + f) + tail
  {
  }

  /** One frame read off the stream: the message and the bytes after it. */
  function RecvFrame<M>(c: Codec<M>, b: Bytes, max: nat): Result<(M, Bytes), QuicError> {
    if |b| < 4 then Err(ReadLengthFailed)
    else
      var len := FromBigEndian(b[..4]);
      if len > max then Err(Oversize)
      else if |b| < 4 + len then Err(ReadBodyFailed)
      else
        match c.de(b[4..4 + len])
        case None => Err(JsonDecode)
        case Some(m) => Ok((m, b[4 + len..]))
  }

  function RecvFrames<M>(c: Codec<M>, b: Bytes, count: nat, max: nat): Result<(seq<M>, Bytes), QuicError> {
    if count == 0 then Ok(([], b))
    else
      match RecvFrame(c, b, max)
      case Err(e) => Err(e)
      case Ok((m, rest)) =>
        match RecvFrames(c, rest, count - 1, max)
        case Err(e) => Err(e)
        case Ok((ms, tail)) => Ok(([m] + ms, tail))
  }

  function RecvBatch<M>(c: Codec<M>, b: Bytes, max: nat): Result<(seq<M>, Bytes), QuicError> {
    if |b| < 4 then Err(ReadCountFailed) else RecvFrames(c, b[4..], FromBigEndian(b[..4]), max)
  }

  /** Reads one frame, length first: the body of `recv_message` and of the batch loop. */
  method ReadFrame<M>(c: Codec<M>, stream: RecvStream, max: nat) returns (r: Result<M, QuicError>)
    requires stream.Valid()
    modifies stream
    ensures stream.Valid()
    ensures match RecvFrame(c, old(stream.Pending()), max)
            case Err(e) => r == Err(e)
            case Ok((m, rest)) => r == Ok(m) && stream.Pending() == rest
  {
    ghost var pending := stream.Pending();
    var lenBytes := stream.ReadExact(4);
    if lenBytes.None? {
      return Err(ReadLengthFailed);
    }
    var len := FromBigEndian(lenBytes.value);
    if len > max {
      return Err(Oversize);
    }
    var body := stream.ReadExact(len);
    if body.None? {
      return Err(ReadBodyFailed);
    }
    assert body.value == pending[4..4 + len];
    match c.de(body.value) {
      case None => r := Err(JsonDecode);
      case Some(m) => r := Ok(m);
    }
  }

  /** One more frame of a batch of which `out` has been received. */
  lemma RecvFramesStep<M>(
      c: Codec<M>, whole: Result<(seq<M>, Bytes), QuicError>, out: seq<M>, b: Bytes, count: nat, max: nat)
    requires count > 0 && whole == Resumed(out, RecvFrames(c, b, count, max))
    ensures match RecvFrame(c, b, max)
            case Err(e) => whole == Err(e)
            case Ok((m, rest)) => whole == Resumed(out + [m], RecvFrames(c, rest, count - 1, max))
  {
    if RecvFrame(c, b, max).Ok? {
      var (m, rest) := RecvFrame(c, b, max).value;
      ResumedTwice(out, m, RecvFrames(c, rest, count - 1, max));
    }
  }

  /** Reads the count, then that many frames. */
  method RecvMessages<M>(c: Codec<M>, stream: RecvStream, max: nat) returns (r: Result<seq<M>, QuicError>)
    requires stream.Valid()
    modifies stream
    ensures stream.Valid()
    ensures match RecvBatch(c, old(stream.Pending()), max)
            case Err(e) => r == Err(e)
            case Ok((ms, rest)) => r == Ok(ms) && stream.Pending() == rest
  {
    var countBytes := stream.ReadExact(4);
    if countBytes.None? {
      return Err(ReadCountFailed);
    }
    r := RecvCounted(c, stream, FromBigEndian(countBytes.value), max);
  }

  /** Reads the frames that a count announces. */
  method RecvCounted<M>(c: Codec<M>, stream: RecvStream, count: nat, max: nat) returns (r: Result<seq<M>, QuicError>)
    requires stream.Valid()
    modifies stream
    ensures stream.Valid()
    ensures match RecvFrames(c, old(stream.Pending()), count, max)
            case Err(e) => r == Err(e)
            case Ok((ms, rest)) => r == Ok(ms) && stream.Pending() == rest
  {
    ghost var whole := RecvFrames(c, stream.Pending(), count, max);
    var out: seq<M> := [];
    ResumedNothing(whole);
    for i := 0 to count
      invariant stream.Valid()
      invariant whole == Resumed(out, RecvFrames(c, stream.Pending(), count - i, max))
    {
      RecvFramesStep(c, whole, out, stream.Pending(), count - i, max);
      var frame := ReadFrame(c, stream, max);
      match frame {
        case Err(e) => return Err(e);
        case Ok(m) => out := out + [m];
      }
    }
    ResumedDone(c, out, stream.Pending(), max);
    r := Ok(out);
  }

  /** The outcome of the rest of a batch after `out` has been received. */
  ghost function Resumed<M>(out: seq<M>, r: Result<(seq<M>, Bytes), QuicError>): Result<(seq<M>, Bytes), QuicError> {
    match r
    case Err(e) => Err(e)
    case Ok((ms, rest)) => Ok((out + ms, rest))
  }

  lemma ResumedDone<M>(c: Codec<M>, out: seq<M>, b: Bytes, max: nat)
    ensures Resumed(out, RecvFrames(c, b, 0, max)) == Ok((out, b))
  {
    assert out + [] == out;
  }

  lemma ResumedNothing<M>(r: Result<(seq<M>, Bytes), QuicError>)
    ensures Resumed([], r) == r
  {
    if r.Ok? {
      assert [] + r.value.0 == r.value.0;
    }
  }

  lemma ResumedTwice<M>(out: seq<M>, m: M, r: Result<(seq<M>, Bytes), QuicError>)
    ensures Resumed(out, Resumed([m], r)) == Resumed(out + [m], r)
  {
    if r.Ok? {
      assert out + ([m] + r.value.0) == out + [m] + r.value.0;
    }
  }

  // ------------------------------------------------------------------
  // Receiving inverts sending
  // ------------------------------------------------------------------

  /**
   * Reading a frame off the stream is one `decode_frame` on the pending bytes,
   * where waiting for more becomes a read error.
   */
  lemma RecvFrameIsDecodeFrame<M>(c: Codec<M>, b: Bytes, max: nat)
    ensures match DecodeFrame(c, b, max)
            case Err(e) => RecvFrame(c, b, max) == Err(e)
            case Ok(None) => RecvFrame(c, b, max) == Err(if |b| < 4 then ReadLengthFailed else ReadBodyFailed)
            case Ok(Some((m, n))) => RecvFrame(c, b, max) == Ok((m, b[n..]))
  {
  }

  /**
   * The batch loop succeeds exactly when the pending bytes hold enough complete
   * frames, and then returns the messages that draining the bytes would decode
   * first, leaving what is drained after them.
   */
  lemma {:induction false} BatchLoopIsDrain<M>(c: Codec<M>, b: Bytes, count: nat, max: nat)
    ensures LoopMatches(Drain(c, b, max), RecvFrames(c, b, count, max), LeftToDrain(c, b, count, max), count)
    decreases count
  {
    if count == 0 {
      LoopOfNothing(c, b, max);
    } else if RecvFrame(c, b, max).Err? {
      NothingReceived(c, b, count, max);
    } else {
      var (m, rest) := RecvFrame(c, b, max).value;
      BatchLoopIsDrain(c, rest, count - 1, max);
      LoopAfterFrame(c, b, count - 1, max, m, rest);
    }
  }

  lemma LoopAfterFrame<M>(c: Codec<M>, b: Bytes, k: nat, max: nat, m: M, rest: Bytes)
    requires RecvFrame(c, b, max) == Ok((m, rest))
    requires LoopMatches(Drain(c, rest, max), RecvFrames(c, rest, k, max), LeftToDrain(c, rest, k, max), k)
    ensures LoopMatches(Drain(c, b, max), RecvFrames(c, b, k + 1, max), LeftToDrain(c, b, k + 1, max), k + 1)
  {
    OneReceived(c, b, k, max, m, rest);
    LoopMatchesOneMore(Drain(c, rest, max), RecvFrames(c, rest, k, max), LeftToDrain(c, rest, k, max), k, m,
                       Drain(c, b, max), RecvFrames(c, b, k + 1, max), LeftToDrain(c, b, k + 1, max), k + 1);
  }

  /** What drains from the bytes that the loop leaves. */
  function LeftToDrain<M>(c: Codec<M>, b: Bytes, count: nat, max: nat): Drained<M> {
    match RecvFrames(c, b, count, max)
    case Err(_) => Drained([], [], None)
    case Ok((_, rest)) => Drain(c, rest, max)
  }

  /** The loop for `count` frames succeeds when that many messages drain, and returns and leaves what the drain does. */
  ghost predicate LoopMatches<M>(
    drained: Drained<M>, r: Result<(seq<M>, Bytes), QuicError>, left: Drained<M>, count: nat)
  {
    && (r.Ok? <==> |drained.messages| >= count)
    && (r.Ok? ==>
          r.value.0 == drained.messages[..count] && left == drained.(messages := drained.messages[count..]))
  }

  lemma LoopOfNothing<M>(c: Codec<M>, b: Bytes, max: nat)
    ensures LoopMatches(Drain(c, b, max), RecvFrames(c, b, 0, max), LeftToDrain(c, b, 0, max), 0)
  {
    var d := Drain(c, b, max);
    assert d.messages[..0] == [] && d.messages[0..] == d.messages;
  }

  lemma LoopMatchesOneMore<M>(
      d: Drained<M>, r: Result<(seq<M>, Bytes), QuicError>, left: Drained<M>, k: nat, m: M,
      d1: Drained<M>, r1: Result<(seq<M>, Bytes), QuicError>, left1: Drained<M>, count: nat)
    requires LoopMatches(d, r, left, k)
    requires d1 == WithFirst(m, d) && r1 == Resumed([m], r) && left1 == left && count == k + 1
    ensures LoopMatches(d1, r1, left1, count)
  {
    FirstOfMany(m, d.messages, count);
  }

  function WithFirst<M>(m: M, d: Drained<M>): Drained<M> {
    d.(messages := [m] + d.messages)
  }

  lemma NothingReceived<M>(c: Codec<M>, b: Bytes, count: nat, max: nat)
    requires count > 0 && RecvFrame(c, b, max).Err?
    ensures Drain(c, b, max).messages == [] && RecvFrames(c, b, count, max).Err?
  {
    RecvFrameIsDecodeFrame(c, b, max);
  }

  /** A frame at the front is the first one of the drain and of the batch loop. */
  lemma OneReceived<M>(c: Codec<M>, b: Bytes, k: nat, max: nat, m: M, rest: Bytes)
    requires RecvFrame(c, b, max) == Ok((m, rest))
    ensures Drain(c, b, max) == WithFirst(m, Drain(c, rest, max))
    ensures RecvFrames(c, b, k + 1, max) == Resumed([m], RecvFrames(c, rest, k, max))
    ensures LeftToDrain(c, b, k + 1, max) == LeftToDrain(c, rest, k, max)
  {
    RecvFrameIsDecodeFrame(c, b, max);
  }

  lemma FirstOfMany<M>(m: M, ms: seq<M>, count: nat)
    requires count > 0
    ensures count - 1 <= |ms| ==> ([m] + ms)[..count] == [m] + ms[..count - 1] && ([m] + ms)[count..] == ms[count - 1..]
  {
  }

  lemma {:induction false} FramableIsSent<M>(c: Codec<M>, ms: seq<M>, max: nat)
    requires AllFramable(c, ms, max)
    ensures FramesUntilError(c, ms, max) == (Frames(c, ms, max), None)
    decreases |ms|
  {
    if ms != [] {
      FramableIsSent(c, ms[1..], max);
    }
  }

  lemma {:induction false} SentIsFramable<M>(c: Codec<M>, ms: seq<M>, max: nat)
    requires FramesUntilError(c, ms, max).1.None? && max < U32_LIMIT
    ensures AllFramable(c, ms, max)
    decreases |ms|
  {
    if ms != [] {
      SentIsFramable(c, ms[1..], max);
      assert forall i :: 0 < i < |ms| ==> ms[i] == ms[1..][i - 1];
    }
  }

  /** A batch stops at its first message that cannot be encoded: the count and the frames before it are written. */
  lemma BatchStopsAtFirstBad<M>(c: Codec<M>, ms: seq<M>, max: nat, k: nat)
    requires |ms| < U32_LIMIT && k < |ms| && AllFramable(c, ms[..k], max) && EncodeFrame(c, ms[k], max).Err?
    ensures BatchBytes(c, ms, max)
         == (BigEndian(|ms|) + Frames(c, ms[..k], max), Some(EncodeFrame(c, ms[k], max).error))
  {
    FramesStopAtFirstBad(c, ms, max, k);
  }

  lemma {:induction false} FramesStopAtFirstBad<M>(c: Codec<M>, ms: seq<M>, max: nat, k: nat)
    requires k < |ms| && AllFramable(c, ms[..k], max) && EncodeFrame(c, ms[k], max).Err?
    ensures FramesUntilError(c, ms, max) == (Frames(c, ms[..k], max), Some(EncodeFrame(c, ms[k], max).error))
    decreases k
  {
    if k > 0 {
      assert ms[..k][1..] == ms[1..][..k - 1];
      assert ms[..k][0] == ms[0];
      FramesStopAtFirstBad(c, ms[1..], max, k - 1);
    }
  }

  /** Below a limit of 2^32 bytes a batch is sent without error exactly when its messages fit their frames. */
  lemma BatchIsSentIffFramable<M>(c: Codec<M>, ms: seq<M>, max: nat)
    requires max < U32_LIMIT
    ensures BatchBytes(c, ms, max).1.None? <==> AllFramable(c, ms, max) && |ms| < U32_LIMIT
  {
    if AllFramable(c, ms, max) {
      FramableIsSent(c, ms, max);
    } else if FramesUntilError(c, ms, max).1.None? {
      SentIsFramable(c, ms, max);
    }
  }

  lemma {:induction false} RecvOfFrames<M(!new)>(c: Codec<M>, ms: seq<M>, max: nat, rest: Bytes)
    requires Lossless(c) && AllFramable(c, ms, max)
    ensures RecvFrames(c, Frames(c, ms, max) + rest, |ms|, max) == Ok((ms, rest))
    decreases |ms|
  {
    if ms == [] {
      assert Frames(c, ms, max) + rest == rest;
    } else {
      var (f, tail) := (FrameOf(c, ms[0], max), Frames(c, ms[1..], max));
      FrameDecodes(c, ms[0], max, tail + rest);
      RecvFrameIsDecodeFrame(c, f + (tail + rest), max);
      assert f + (tail + rest) == Frames(c, ms, max) + rest;
      SplitAppend(f, tail + rest);
      RecvOfFrames(c, ms[1..], max, rest);
      assert [ms[0]] + ms[1..] == ms;
    }
  }

  lemma {:induction false} PrefixOfFramesFails<M(!new)>(c: Codec<M>, ms: seq<M>, max: nat, k: nat)
    requires Lossless(c) && AllFramable(c, ms, max) && k < |Frames(c, ms, max)|
    ensures RecvFrames(c, Frames(c, ms, max)[..k], |ms|, max).Err?
    decreases |ms|
  {
    var (f, tail) := (FrameOf(c, ms[0], max), Frames(c, ms[1..], max));
    var b := (f + tail)[..k];
    RecvFrameIsDecodeFrame(c, b, max);
    if k < |f| {
      PrefixOfFrameWaits(c, ms[0], max, k);
      PrefixWithin(f, tail, k);
    } else {
      PrefixBeyond(f, tail, k);
      FrameDecodes(c, ms[0], max, tail[..k - |f|]);
      SplitAppend(f, tail[..k - |f|]);
      PrefixOfFramesFails(c, ms[1..], max, k - |f|);
    }
  }

  /**
   * Messages that fit their frames are sent, and receiving inverts the send: it
   * returns the same list and consumes the bytes of the batch and no more, and
   * on any strict prefix of them it fails.
   */
  lemma BatchRoundTrip<M(!new)>(c: Codec<M>, ms: seq<M>, max: nat, rest: Bytes)
    requires Lossless(c) && AllFramable(c, ms, max) && |ms| < U32_LIMIT
    ensures BatchBytes(c, ms, max).1.None?
    ensures RecvBatch(c, BatchBytes(c, ms, max).0 + rest, max) == Ok((ms, rest))
    ensures forall k :: 0 <= k < |BatchBytes(c, ms, max).0| ==> RecvBatch(c, BatchBytes(c, ms, max).0[..k], max).Err?
  {
    FramableIsSent(c, ms, max);
    BigEndianRoundTrip(|ms|);
    var (prefix, frames) := (BigEndian(|ms|), Frames(c, ms, max));
    assert prefix + frames + rest == prefix + (frames + rest);
    SplitAppend(prefix, frames + rest);
    RecvOfFrames(c, ms, max, rest);
    forall k | 0 <= k < |prefix + frames| ensures RecvBatch(c, (prefix + frames)[..k], max).Err? {
      PrefixOfBatchFails(c, ms, max, k);
    }
  }

  lemma PrefixOfBatchFails<M(!new)>(c: Codec<M>, ms: seq<M>, max: nat, k: nat)
    requires Lossless(c) && AllFramable(c, ms, max) && |ms| < U32_LIMIT
    requires k < |BigEndian(|ms|) + Frames(c, ms, max)|
    ensures RecvBatch(c, (BigEndian(|ms|) + Frames(c, ms, max))[..k], max).Err?
  {
    if k >= 4 {
      var (prefix, frames) := (BigEndian(|ms|), Frames(c, ms, max));
      BigEndianRoundTrip(|ms|);
      PrefixBeyond(prefix, frames, k);
      SplitAppend(prefix, frames[..k - 4]);
      PrefixOfFramesFails(c, ms, max, k - 4);
    }
  }
}
