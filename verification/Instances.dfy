/** The hypotheses of the theorems can be met together: a concrete value for each of the abstract parts. */
module Instances {
  import opened Basics
  import opened Core
  import opened Evidence
  import opened Authenticity
  import opened Quic
  import opened Rng
  import opened Mql
  import opened Sightings
  import opened Pipeline

  /** The digest of `x` is all zeros, and of everything else all ones. */
  function Separating(x: Bytes, b: Bytes): Id32 {
    seq(32, _ => if b == x then 0 else 1)
  }

  /** A digest that separates `x` from everything else, and a scheme in which one signature fits all. */
  function SeparatingCrypto(x: Bytes): Crypto {
    Crypto(b => Separating(x, b), key => key, (_, _) => Zeros(SIG_LEN), (_, _, sig) => sig == Zeros(SIG_LEN))
  }

  lemma SeparatingIsSound(x: Bytes)
    ensures SoundSigning(SeparatingCrypto(x)) && Unforgeable(SeparatingCrypto(x))
  {
    var c := SeparatingCrypto(x);
    forall source: Id32, message: Bytes, sig: Bytes | c.valid(source, message, sig)
      ensures Signed(c, source, message, sig)
    {
      assert c.publicKey(source) == source && c.sign(source, message) == sig;
    }
  }

  lemma SeparatingSeparates(a: CanonicalState, states: set<CanonicalState>)
    requires exists b :: states == {a, b}
    ensures CollisionFree(SeparatingCrypto(CanonicalBytes(a)), Payloads(states))
  {
    var x := CanonicalBytes(a);
    var b :| states == {a, b};
    assert Payloads(states) == {x, CanonicalBytes(b)};
    assert Separating(x, x)[0] == 0;
    assert CanonicalBytes(b) != x ==> Separating(x, CanonicalBytes(b))[0] == 1;
  }

  /**
   * Two shipments of any states, also different ones, with subjects that are
   * single segments meet the hypotheses of the end-to-end theorem together.
   */
  lemma EndToEndIsPossible(s: Shipment, t: Shipment, domain: string)
    requires domain != "" && DotFree(domain)
    requires s.origin.subject != "" && DotFree(s.origin.subject)
    requires t.origin.subject != "" && DotFree(t.origin.subject)
    ensures exists w: Sender ::
              && SoundSigning(w.crypto) && Unforgeable(w.crypto) && CollisionFreeShipments(w.crypto, [s, t])
              && w.domain == domain && Projectable(w, [s, t])
  {
    var c := SeparatingCrypto(CanonicalBytes(s.origin.state));
    var w := Sender(c, _ => true, domain);
    SeparatingIsSound(CanonicalBytes(s.origin.state));
    var states := set x | x in [s, t] :: x.origin.state;
    assert states == {s.origin.state, t.origin.state};
    SeparatingSeparates(s.origin.state, states);
    MintIsProjectable(w, s);
    MintIsProjectable(w, t);
  }

  lemma MintIsProjectable(w: Sender, s: Shipment)
    requires w.domain != "" && DotFree(w.domain) && s.origin.subject != "" && DotFree(s.origin.subject)
    requires forall subject :: w.grammar(subject)
    ensures Project(w, s).Ok?
  {
    ForwardAllKeeps(Originate(w.crypto, s.origin), s.relays);
  }

  /** The first position of a message in a list. */
  function Position(ms: seq<Message>, m: Message): (i: nat)
    requires m in ms
    ensures i < |ms| && ms[i] == m
  {
    if ms[0] == m then 0 else 1 + Position(ms[1..], m)
  }

  function Zeros(n: nat): (b: Bytes)
    ensures |b| == n
  {
    seq(n, _ => 0)
  }

  function WriteIn(ms: seq<Message>, m: Message): Option<Bytes> {
    if m in ms then Some(Zeros(Position(ms, m))) else None
  }

  function ReadIn(ms: seq<Message>, b: Bytes): Option<Message> {
    if |b| < |ms| then Some(ms[|b|]) else None
  }

  /** A codec for the messages of a list, which writes a message as its position in zero bytes. */
  function ListCodec(ms: seq<Message>): Codec<Message> {
    Codec.Codec(m => WriteIn(ms, m), b => ReadIn(ms, b))
  }

  /** For any messages there is a lossless codec under which all of them fit their frames. */
  lemma FramingIsPossible(ms: seq<Message>)
    requires |ms| < U32_LIMIT
    ensures Lossless(ListCodec(ms)) && AllFramable(ListCodec(ms), ms, |ms|)
  {
  }

  /** The hypotheses of the end-to-end theorems over a stream are met together, by any two shipments. */
  lemma StreamingIsPossible(s: Shipment, t: Shipment, domain: string)
    requires domain != "" && DotFree(domain)
    requires s.origin.subject != "" && DotFree(s.origin.subject)
    requires t.origin.subject != "" && DotFree(t.origin.subject)
    ensures exists w: Sender, arrivals: seq<Message>, codec: Codec<Message> ::
              && SoundSigning(w.crypto) && CollisionFreeShipments(w.crypto, [s, t]) && |arrivals| == 2
              && Carried(w, [s, t], arrivals) && Lossless(codec) && AllFramable(codec, arrivals, 2)
  {
    EndToEndIsPossible(s, t, domain);
    var w: Sender :| && SoundSigning(w.crypto) && CollisionFreeShipments(w.crypto, [s, t])
                     && w.domain == domain && Projectable(w, [s, t]);
    var arrivals := BothArrive(w, s, t);
    FramingIsPossible(arrivals);
    var codec := ListCodec(arrivals);
  }

  lemma BothArrive(w: Sender, s: Shipment, t: Shipment) returns (arrivals: seq<Message>)
    requires Projectable(w, [s, t])
    ensures |arrivals| == 2 && Carried(w, [s, t], arrivals)
  {
    assert s in [s, t] && t in [s, t];
    arrivals := [Project(w, s).value, Project(w, t).value];
    assert IsMessageOf(w, s, arrivals[0]) && IsMessageOf(w, t, arrivals[1]);
  }

  /** A generator that always draws zero. */
  lemma BoundedIsPossible()
    ensures exists rng: Oracle :: Bounded(rng) && UnitDraws(rng)
  {
    var rng := Oracle((_, _) => 0.0, (_, _) => 0);
    assert Bounded(rng) && UnitDraws(rng);
  }
}
