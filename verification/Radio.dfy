/**
 * Evidence heard over the radio link and evidence received as messages make a
 * node believe the same. The frame does not carry the subject: the listener
 * knows whom the frame is about.
 */
module Radio {
  import opened Basics
  import opened Evidence
  import opened Lora
  import opened Mql
  import opened Belief
  import opened Convergence
  import opened Sightings
  import opened Pipeline

  /** The evidence carries every field of the frame that verification and the engine read. */
  predicate RebuiltFrom(e: Evidence, f: LoraFrame) {
    && e.evidenceId == f.evidenceId && e.observationId == f.observationId && e.sourceId == f.sourceId
    && e.payload == f.payload && e.signature == f.signature
  }

  /** The fragments of the frame of a shipment, at the packet ceiling. */
  function SentFragments(c: Crypto, s: Shipment, frameId: nat): Result<seq<Fragment>, LoraError> {
    match Encode(FromEvidence(Mint(c, s)))
    case Err(e) => Err(e)
    case Ok(b) => Fragments(b, frameId, LORA_PACKET_MAX)
  }

  /**
   * These fragments come from the frame of the shipment and every index is
   * among them, in any order and multiplicity.
   */
  ghost predicate Received(c: Crypto, s: Shipment, frameId: nat, fs: seq<Fragment>) {
    var sent := SentFragments(c, s, frameId);
    sent.Ok? && fs != [] && DrawnFrom(fs, sent.value) && EveryIndexOccurs(fs, |sent.value|)
  }

  /** The frame that a listener decodes from fragments, if any. */
  function DecodedFrame(fs: seq<Fragment>): Result<LoraFrame, LoraError> {
    match Reassembled(fs)
    case Err(e) => Err(e)
    case Ok(b) => Decode(b)
  }

  /** The evidence was rebuilt around a frame decoded from fragments of this shipment. */
  ghost predicate HeardOnRadio(c: Crypto, s: Shipment, e: Evidence) {
    exists frameId, fs :: Received(c, s, frameId, fs) && RebuiltFromFragments(e, s.origin.subject, fs)
  }

  predicate RebuiltFromFragments(e: Evidence, subject: string, fs: seq<Fragment>) {
    e.subject == subject && DecodedFrame(fs).Ok? && RebuiltFrom(e, DecodedFrame(fs).value)
  }

  /** The evidence was recovered from the message of this shipment. */
  ghost predicate HeardAsMessage(w: Sender, s: Shipment, e: Evidence) {
    Project(w, s).Ok? && FromMessage(Project(w, s).value) == Ok(e)
  }

  ghost predicate Heard(w: Sender, s: Shipment, e: Evidence) {
    HeardOnRadio(w.crypto, s, e) || HeardAsMessage(w, s, e)
  }

  /** Everything a node incorporates was heard of something sent, over either link. */
  ghost predicate AllHeard(w: Sender, sent: seq<Shipment>, es: seq<Evidence>) {
    forall e :: e in es ==> exists s :: s in sent && Heard(w, s, e)
  }

  /** The sightings that were delivered, under their subject and id. */
  ghost function HeardSightings(c: Crypto, sent: seq<Shipment>, es: seq<Evidence>): set<Sighting> {
    set s | s in sent && KeyOf(c, SightingIn(s)) in Delivered(c, Elements(es)) :: SightingIn(s)
  }

  /** A complete set of fragments decodes to the frame of the minted evidence. */
  lemma ReceivedDecodes(c: Crypto, s: Shipment, frameId: nat, fs: seq<Fragment>)
    requires SoundSigning(c) && Received(c, s, frameId, fs)
    ensures DecodedFrame(fs) == Ok(FromEvidence(Mint(c, s)))
  {
    MintedFrameTravels(c, s, frameId, fs);
  }

  /** Evidence rebuilt around the frame of minted evidence, about its subject, shows the minted state. */
  lemma RebuiltShows(c: Crypto, s: Shipment, e: Evidence)
    requires SoundSigning(c) && RebuiltFrom(e, FromEvidence(Mint(c, s))) && e.subject == s.origin.subject
    ensures Shows(c, e, SightingIn(s))
  {
    MintVerifies(c, s);
    assert SigningPreimage(e) == SigningPreimage(Mint(c, s));
  }

  lemma HeardOnRadioShows(c: Crypto, s: Shipment, e: Evidence)
    requires SoundSigning(c) && HeardOnRadio(c, s, e)
    ensures Shows(c, e, SightingIn(s))
  {
    var frameId, fs :| Received(c, s, frameId, fs) && RebuiltFromFragments(e, s.origin.subject, fs);
    ReceivedDecodes(c, s, frameId, fs);
    RebuiltShows(c, s, e);
  }

  lemma HeardShows(w: Sender, s: Shipment, e: Evidence)
    requires SoundSigning(w.crypto) && Heard(w, s, e)
    ensures Shows(w.crypto, e, SightingIn(s))
  {
    if HeardOnRadio(w.crypto, s, e) {
      HeardOnRadioShows(w.crypto, s, e);
    } else {
      RecoveredShipment(w, s, Project(w, s).value);
    }
  }

  /** The shipment that some evidence was heard of. */
  lemma HeardOf(w: Sender, sent: seq<Shipment>, es: seq<Evidence>, e: Evidence) returns (s: Shipment)
    requires AllHeard(w, sent, es) && e in es
    ensures s in sent && Heard(w, s, e)
  {
    s :| s in sent && Heard(w, s, e);
  }

  lemma HeardIsShown(w: Sender, sent: seq<Shipment>, es: seq<Evidence>)
    requires SoundSigning(w.crypto) && AllHeard(w, sent, es)
    ensures Shown(w.crypto, es, HeardSightings(w.crypto, sent, es))
    ensures AllStates(HeardSightings(w.crypto, sent, es)) <= set s | s in sent :: s.origin.state
  {
    var seen := HeardSightings(w.crypto, sent, es);
    forall e | e in es ensures exists s :: s in seen && Shows(w.crypto, e, s) {
      var s := HeardOf(w, sent, es, e);
      HeardShows(w, s, e);
      ShownIsDelivered(w.crypto, e, SightingIn(s));
      assert e in Elements(es);
      assert SightingIn(s) in seen;
    }
  }

  /**
   * Whatever a node hears over the radio or receives as messages, in any mixture,
   * order and multiplicity, the track of every subject is the batch posterior of
   * the set of its states that were delivered.
   */
  lemma LinksEndToEnd(w: Sender, sent: seq<Shipment>, es: seq<Evidence>)
    requires SoundSigning(w.crypto) && CollisionFreeShipments(w.crypto, sent) && AllHeard(w, sent, es)
    ensures BatchTracks(Run(w.crypto, es).tracks, HeardSightings(w.crypto, sent, es))
  {
    var seen := HeardSightings(w.crypto, sent, es);
    HeardIsShown(w, sent, es);
    FewerPayloads(w.crypto, AllStates(seen), set s | s in sent :: s.origin.state);
    SightingsDecideTracks(w.crypto, es, seen);
  }

  /**
   * Two nodes to which the same subjects and observation ids were delivered hold
   * the same beliefs, whichever link carried what to whom.
   */
  lemma LinksConverge(
      v: Sender, sentA: seq<Shipment>, es: seq<Evidence>, w: Sender, sentB: seq<Shipment>, fs: seq<Evidence>)
    requires v.crypto == w.crypto && SoundSigning(w.crypto) && CollisionFreeShipments(w.crypto, sentA + sentB)
    requires AllHeard(v, sentA, es) && AllHeard(w, sentB, fs)
    requires Delivered(v.crypto, Elements(es)) == Delivered(w.crypto, Elements(fs))
    ensures Run(v.crypto, es).tracks == Run(w.crypto, fs).tracks
  {
    var c := w.crypto;
    var (seen, others) := (HeardSightings(c, sentA, es), HeardSightings(c, sentB, fs));
    var all := set s | s in sentA + sentB :: s.origin.state;
    HeardIsShown(v, sentA, es);
    HeardIsShown(w, sentB, fs);
    FewerPayloads(c, AllStates(seen + others), all);
    SameDeliveredIffSameSeen(c, es, seen, fs, others);
    FewerPayloads(c, AllStates(seen), all);
    SightingsDecideTracks(c, es, seen);
    SightingsDecideTracks(c, fs, others);
    AlikeTracks(Run(c, es).tracks, seen, Run(c, fs).tracks, others);
  }
}
