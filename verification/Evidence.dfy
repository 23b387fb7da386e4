/**
 * seven-evidence: minting, forwarding and verifying evidence.
 *
 * The hash and the signature scheme are the function fields of a `Crypto`; what
 * a theorem needs of them is an explicit hypothesis on that value.
 */
module Evidence {
  import opened Basics
  import opened Core

  const SIG_LEN: nat := 64

  /** blake3 and ed25519. A `sign` takes the 32-byte secret key. */
  datatype Crypto = Crypto(
    hash: Bytes -> Id32,
    publicKey: Id32 -> Id32,
    sign: (Id32, Bytes) -> Bytes,
    valid: (Id32, Bytes, Bytes) -> bool)

  /** Signatures are 64 bytes long and verify under the signer's public key. */
  ghost predicate SoundSigning(c: Crypto) {
    forall key: Id32, message: Bytes ::
      && |c.sign(key, message)| == SIG_LEN
      && c.valid(c.publicKey(key), message, c.sign(key, message))
  }

  /** No two of these byte strings have the same digest. */
  ghost predicate CollisionFree(c: Crypto, inputs: set<Bytes>) {
    forall a, b :: a in inputs && b in inputs && c.hash(a) == c.hash(b) ==> a == b
  }

  datatype Hop = Hop(node: string, receivedAtNanos: i64)

  datatype Evidence = Evidence(
    evidenceId: Id32,
    observationId: Id32,
    sourceId: Id32,
    subject: string,
    observedAtNanos: i64,
    receivedAtNanos: i64,
    expiresAtNanos: i64,
    payload: Bytes,
    provenance: seq<Hop>,
    parents: seq<Id32>,
    signature: Option<Bytes>)

  datatype EvidenceError = InvalidSignature | SignatureIdentityMismatch

  /** The bytes of the domain tag `seven/evidence/v1`. */
  const DOMAIN_TAG: Bytes :=
    [0x73, 0x65, 0x76, 0x65, 0x6e, 0x2f, 0x65, 0x76, 0x69, 0x64, 0x65, 0x6e, 0x63, 0x65, 0x2f, 0x76, 0x31]

  function SigningPreimage(e: Evidence): Bytes {
    DOMAIN_TAG + e.evidenceId + e.payload
  }

  /** The arguments of `originate`. */
  datatype Origin = Origin(
    key: Id32,
    subject: string,
    state: CanonicalState,
    receivedAtNanos: i64,
    expiresAtNanos: i64)

  /** The identity of a state: the digest of its canonical bytes. */
  function EvidenceIdOf(c: Crypto, s: CanonicalState): Id32 {
    c.hash(CanonicalBytes(s))
  }

  function Originate(c: Crypto, o: Origin): Evidence {
    var payload := CanonicalBytes(o.state);
    var unsigned := Evidence(
      EvidenceIdOf(c, o.state), c.hash(payload), c.publicKey(o.key), o.subject,
      o.state.observedAtNanos, o.receivedAtNanos, o.expiresAtNanos,
      payload, [], [], None);
    unsigned.(signature := Some(c.sign(o.key, SigningPreimage(unsigned))))
  }

  function Forward(e: Evidence, hop: Hop): Evidence {
    e.(receivedAtNanos := hop.receivedAtNanos, provenance := e.provenance + [hop])
  }

  function ForwardAll(e: Evidence, hops: seq<Hop>): Evidence
    decreases hops
  {
    if hops == [] then e else ForwardAll(Forward(e, hops[0]), hops[1..])
  }

  function Verify(c: Crypto, e: Evidence): Result<(), EvidenceError> {
    if c.hash(e.payload) != e.evidenceId then Err(SignatureIdentityMismatch)
    else
      match e.signature
      case None => Err(InvalidSignature)
      case Some(sig) =>
        if |sig| == SIG_LEN && c.valid(e.sourceId, SigningPreimage(e), sig) then Ok(())
        else Err(InvalidSignature)
  }

  /** Evidence as it circulates: minted at an origin, then forwarded along some relays. */
  datatype Shipment = Shipment(origin: Origin, relays: seq<Hop>)

  function Mint(c: Crypto, s: Shipment): Evidence {
    ForwardAll(Originate(c, s.origin), s.relays)
  }

  // ------------------------------------------------------------------
  // What a signature covers
  // ------------------------------------------------------------------

  /** A signature covers exactly the evidence id and the payload, behind the domain tag. */
  lemma PreimageBindsIdentity(e: Evidence, f: Evidence)
    ensures SigningPreimage(e) == SigningPreimage(f) <==> e.evidenceId == f.evidenceId && e.payload == f.payload
    ensures DOMAIN_TAG <= SigningPreimage(e)
  {
    var at := |DOMAIN_TAG|;
    PreimageLayout(e, at);
    PreimageLayout(f, at);
  }

  lemma PreimageLayout(e: Evidence, at: nat)
    requires at == |DOMAIN_TAG|
    ensures var b := SigningPreimage(e);
            && |b| == at + 32 + |e.payload| && b[..at] == DOMAIN_TAG
            && b[at..at + 32] == e.evidenceId && b[at + 32..] == e.payload
  {
    Associative(DOMAIN_TAG, e.evidenceId, e.payload);
    SplitAppend(DOMAIN_TAG, e.evidenceId + e.payload);
    Peel(SigningPreimage(e), at, e.evidenceId, e.payload);
  }

  /**
   * Exchanging the payload of verified evidence is detected as an identity
   * mismatch exactly when it changes the payload.
   */
  lemma TamperingIsDetected(c: Crypto, e: Evidence, payload: Bytes)
    requires Verify(c, e).Ok? && CollisionFree(c, {e.payload, payload})
    ensures Verify(c, e.(payload := payload)) == Err(SignatureIdentityMismatch) <==> payload != e.payload
    ensures Verify(c, e.(payload := payload)).Ok? <==> payload == e.payload
  {
    if payload == e.payload {
      assert e.(payload := payload) == e;
    } else {
      assert e.payload in {e.payload, payload} && payload in {e.payload, payload};
      assert c.hash(payload) != e.evidenceId;
    }
  }

  /** The verdict, decided on the bytes: the digest is checked first, then the signature over tag, id and payload. */
  lemma VerdictOnBytes(c: Crypto, e: Evidence)
    ensures Verify(c, e) == Err(SignatureIdentityMismatch) <==> c.hash(e.payload) != e.evidenceId
    ensures Verify(c, e).Ok?
       <==> && c.hash(e.payload) == e.evidenceId
            && e.signature.Some? && |e.signature.value| == 64
            && c.valid(e.sourceId, DOMAIN_TAG + e.evidenceId + e.payload, e.signature.value)
  {
  }

  /**
   * Verified evidence whose signature is removed or exchanged is still accepted
   * exactly when the new signature has 64 bytes and is valid for the same bytes
   * and source; otherwise the signature is refused.
   */
  lemma ExchangedSignature(c: Crypto, e: Evidence, signature: Option<Bytes>)
    requires Verify(c, e).Ok?
    ensures Verify(c, e.(signature := signature))
         == if signature.Some? && |signature.value| == 64
               && c.valid(e.sourceId, DOMAIN_TAG + e.evidenceId + e.payload, signature.value)
            then Ok(()) else Err(InvalidSignature)
  {
    VerdictOnBytes(c, e);
    VerdictOnBytes(c, e.(signature := signature));
  }

  /** The domain tag spells its text. */
  lemma DomainTagText()
    ensures |DOMAIN_TAG| == |"seven/evidence/v1"|
    ensures forall i :: 0 <= i < |DOMAIN_TAG| ==> DOMAIN_TAG[i] == "seven/evidence/v1"[i] as int
  {
  }

  // ------------------------------------------------------------------
  // What minting and forwarding set
  // ------------------------------------------------------------------

  /**
   * Minted evidence has the identity, subject, times and key of its origin and
   * no parents; it was received when the last relay says, or at the origin.
   */
  lemma MintedFields(c: Crypto, s: Shipment)
    ensures var (e, o) := (Mint(c, s), s.origin);
            && e.payload == CanonicalBytes(o.state)
            && e.evidenceId == e.observationId == c.hash(CanonicalBytes(o.state))
            && e.sourceId == c.publicKey(o.key) && e.subject == o.subject
            && e.observedAtNanos == o.state.observedAtNanos && e.expiresAtNanos == o.expiresAtNanos
            && e.provenance == s.relays && e.parents == []
            && e.signature
            == Some(c.sign(o.key, DOMAIN_TAG + c.hash(CanonicalBytes(o.state)) + CanonicalBytes(o.state)))
            && e.receivedAtNanos
            == (if s.relays == [] then o.receivedAtNanos else s.relays[|s.relays| - 1].receivedAtNanos)
  {
    ForwardAllKeeps(Originate(c, s.origin), s.relays);
  }

  // ------------------------------------------------------------------
  // What forwarding keeps
  // ------------------------------------------------------------------

  /**
   * A chain of forwards extends the provenance by exactly its hops and restamps
   * the receipt; every other field survives.
   */
  lemma {:induction false} ForwardAllKeeps(e: Evidence, hops: seq<Hop>)
    ensures ForwardAll(e, hops).provenance == e.provenance + hops
    ensures ForwardAll(e, hops)
         == e.(provenance := e.provenance + hops,
               receivedAtNanos := if hops == [] then e.receivedAtNanos else hops[|hops| - 1].receivedAtNanos)
    decreases hops
  {
    if hops == [] {
      assert e.provenance + hops == e.provenance;
    } else {
      ForwardAllKeeps(Forward(e, hops[0]), hops[1..]);
      assert e.provenance + [hops[0]] + hops[1..] == e.provenance + hops;
    }
  }

  /**
   * Minted evidence verifies wherever it travels, its payload decodes to the
   * minted state, and both ids are the state's.
   */
  lemma MintVerifies(c: Crypto, s: Shipment)
    requires SoundSigning(c)
    ensures Verify(c, Mint(c, s)) == Ok(())
    ensures Mint(c, s).evidenceId == Mint(c, s).observationId == EvidenceIdOf(c, s.origin.state)
    ensures Mint(c, s).subject == s.origin.subject
    ensures FromCanonicalBytes(Mint(c, s).payload) == Ok(s.origin.state)
    ensures Mint(c, s).observedAtNanos == s.origin.state.observedAtNanos
  {
    ForwardAllKeeps(Originate(c, s.origin), s.relays);
    CanonicalRoundTrip(s.origin.state, []);
  }

  /**
   * Among minted evidence with collision-free payloads, the observation id
   * identifies the observed state; forwarding never creates a new observation.
   */
  lemma SameObservationIffSameState(c: Crypto, a: Shipment, b: Shipment)
    requires CollisionFree(c, {CanonicalBytes(a.origin.state), CanonicalBytes(b.origin.state)})
    ensures Mint(c, a).observationId == Mint(c, b).observationId <==> a.origin.state == b.origin.state
    ensures Mint(c, a).observationId == Mint(c, b).observationId <==> Mint(c, a).payload == Mint(c, b).payload
  {
    ForwardAllKeeps(Originate(c, a.origin), a.relays);
    ForwardAllKeeps(Originate(c, b.origin), b.relays);
    if CanonicalBytes(a.origin.state) == CanonicalBytes(b.origin.state) {
      CanonicalPrefixFree(a.origin.state, b.origin.state);
    }
  }
}
