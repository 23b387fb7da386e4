/**
 * seven-bin: evidence is minted, projected onto messages, carried by a faulty
 * transport, recovered and incorporated. The final beliefs are the batch
 * posterior of the states that arrived.
 */
module Pipeline {
  import opened Basics
  import opened Evidence
  import opened Rng
  import opened Mql
  import opened Quic
  import opened Belief
  import opened Convergence
  import opened Engine
  import opened Sightings

  /** How a node projects evidence: its cryptography, the subject grammar of its message library, and its domain. */
  datatype Sender = Sender(crypto: Crypto, grammar: string -> bool, domain: string)

  /** The message that a shipment is projected onto. */
  function Project(w: Sender, s: Shipment): Result<Message, MqlError> {
    ToMessage(w.grammar, Mint(w.crypto, s), w.domain)
  }

  ghost predicate IsMessageOf(w: Sender, s: Shipment, m: Message) {
    Project(w, s) == Ok(m)
  }

  /** Every shipment has a subject that the message grammar accepts. */
  ghost predicate Projectable(w: Sender, sent: seq<Shipment>) {
    forall s :: s in sent ==> Project(w, s).Ok?
  }

  /** Every arrival is the message of something sent; what is lost, repeated or reordered is free. */
  ghost predicate Carried(w: Sender, sent: seq<Shipment>, arrivals: seq<Message>) {
    forall m :: m in arrivals ==> exists s :: s in sent && IsMessageOf(w, s, m)
  }

  /** The payloads in play do not collide. */
  ghost predicate CollisionFreeShipments(c: Crypto, sent: seq<Shipment>) {
    CollisionFree(c, Payloads(set s | s in sent :: s.origin.state))
  }

  function SightingIn(s: Shipment): Sighting {
    Sighting(s.origin.subject, s.origin.state)
  }

  /** The shipments whose message is among the arrivals. */
  ghost function Arrived(w: Sender, sent: seq<Shipment>, arrivals: seq<Message>): set<Shipment> {
    set s | s in sent && Project(w, s).Ok? && Project(w, s).value in arrivals
  }

  /** What the arrivals let a node see: whose states they are, whatever relays they passed. */
  ghost function ArrivedSightings(w: Sender, sent: seq<Shipment>, arrivals: seq<Message>): set<Sighting> {
    set s | s in Arrived(w, sent, arrivals) :: SightingIn(s)
  }

  predicate Recoverable(ms: seq<Message>) {
    forall m :: m in ms ==> FromMessage(m).Ok?
  }

  /** The evidence recovered from messages, in order of arrival. */
  function Recovered(ms: seq<Message>): (es: seq<Evidence>)
    requires Recoverable(ms)
    ensures |es| == |ms|
  {
    seq(|ms|, i requires 0 <= i < |ms| => FromMessage(ms[i]).value)
  }

  // ------------------------------------------------------------------
  // What arrives is what was sent
  // ------------------------------------------------------------------

  /** The message of a shipment is recovered, verifies, and shows the minted state under the id of its bytes. */
  lemma RecoveredShipment(w: Sender, s: Shipment, m: Message)
    requires SoundSigning(w.crypto) && IsMessageOf(w, s, m)
    ensures FromMessage(m).Ok?
    ensures Shows(w.crypto, FromMessage(m).value, SightingIn(s))
  {
    MintedProjection(w.crypto, w.grammar, s, w.domain);
    MintVerifies(w.crypto, s);
  }

  lemma SourceOf(w: Sender, sent: seq<Shipment>, arrivals: seq<Message>, m: Message) returns (s: Shipment)
    requires Carried(w, sent, arrivals) && m in arrivals
    ensures s in sent && IsMessageOf(w, s, m)
  {
    s :| s in sent && IsMessageOf(w, s, m);
  }

  lemma CarriedIsRecoverable(w: Sender, sent: seq<Shipment>, arrivals: seq<Message>)
    requires SoundSigning(w.crypto) && Carried(w, sent, arrivals)
    ensures Recoverable(arrivals)
  {
    forall m | m in arrivals ensures FromMessage(m).Ok? {
      var s := SourceOf(w, sent, arrivals, m);
      RecoveredShipment(w, s, m);
    }
  }

  lemma ArrivedByMessage(w: Sender, sent: seq<Shipment>, arrivals: seq<Message>, s: Shipment, m: Message)
    requires s in sent && m in arrivals && IsMessageOf(w, s, m)
    ensures SightingIn(s) in ArrivedSightings(w, sent, arrivals)
  {
  }

  /** The evidence recovered from a carried arrival shows a sighting that arrived. */
  lemma RecoveredShows(w: Sender, sent: seq<Shipment>, arrivals: seq<Message>, i: nat) returns (s: Sighting)
    requires SoundSigning(w.crypto) && Carried(w, sent, arrivals) && Recoverable(arrivals) && i < |arrivals|
    ensures s in ArrivedSightings(w, sent, arrivals) && Shows(w.crypto, Recovered(arrivals)[i], s)
  {
    var shipment := SourceOf(w, sent, arrivals, arrivals[i]);
    RecoveredShipment(w, shipment, arrivals[i]);
    ArrivedByMessage(w, sent, arrivals, shipment, arrivals[i]);
    s := SightingIn(shipment);
  }

  /** The key of a shipment that arrived is delivered. */
  lemma ArrivedIsDelivered(w: Sender, sent: seq<Shipment>, arrivals: seq<Message>, s: Shipment)
    requires SoundSigning(w.crypto) && Recoverable(arrivals) && s in Arrived(w, sent, arrivals)
    ensures KeyOf(w.crypto, SightingIn(s)) in Delivered(w.crypto, Elements(Recovered(arrivals)))
  {
    var m := Project(w, s).value;
    RecoveredShipment(w, s, m);
    var i :| 0 <= i < |arrivals| && arrivals[i] == m;
    var e := Recovered(arrivals)[i];
    assert e in Elements(Recovered(arrivals));
    ShownIsDelivered(w.crypto, e, SightingIn(s));
  }

  /** The recovered evidence shows exactly the sightings that arrived. */
  lemma ArrivalsShow(w: Sender, sent: seq<Shipment>, arrivals: seq<Message>)
    requires SoundSigning(w.crypto) && Carried(w, sent, arrivals) && Recoverable(arrivals)
    ensures Shown(w.crypto, Recovered(arrivals), ArrivedSightings(w, sent, arrivals))
  {
    var (es, seen) := (Recovered(arrivals), ArrivedSightings(w, sent, arrivals));
    forall e | e in es ensures exists s :: s in seen && Shows(w.crypto, e, s) {
      var i :| 0 <= i < |es| && es[i] == e;
      var s := RecoveredShows(w, sent, arrivals, i);
    }
    forall s | s in Arrived(w, sent, arrivals)
      ensures KeyOf(w.crypto, SightingIn(s)) in Delivered(w.crypto, Elements(es))
    {
      ArrivedIsDelivered(w, sent, arrivals, s);
    }
  }

  lemma ArrivedStatesWereSent(w: Sender, sent: seq<Shipment>, arrivals: seq<Message>)
    ensures AllStates(ArrivedSightings(w, sent, arrivals)) <= set s | s in sent :: s.origin.state
  {
  }

  // ------------------------------------------------------------------
  // End to end
  // ------------------------------------------------------------------

  /**
   * For minted and forwarded evidence, carried with any losses, duplications
   * and reorderings, everything that arrives is recovered, and the track of
   * every subject is the batch posterior of the set of its states that arrived.
   */
  lemma EndToEnd(w: Sender, sent: seq<Shipment>, arrivals: seq<Message>)
    requires SoundSigning(w.crypto) && CollisionFreeShipments(w.crypto, sent) && Carried(w, sent, arrivals)
    ensures Recoverable(arrivals)
    ensures BatchTracks(Run(w.crypto, Recovered(arrivals)).tracks, ArrivedSightings(w, sent, arrivals))
  {
    var seen := ArrivedSightings(w, sent, arrivals);
    CarriedIsRecoverable(w, sent, arrivals);
    ArrivalsShow(w, sent, arrivals);
    ArrivedStatesWereSent(w, sent, arrivals);
    FewerPayloads(w.crypto, AllStates(seen), set s | s in sent :: s.origin.state);
    SightingsDecideTracks(w.crypto, Recovered(arrivals), seen);
  }

  /** The evidence verifies and decodes, so incorporating it cannot fail. */
  predicate Sound(c: Crypto, e: Evidence) {
    Verify(c, e).Ok? && Reading(e.payload).Some?
  }

  /** Whether evidence counts after other evidence: its id is not recorded yet. */
  predicate Includes(c: Crypto, before: seq<Evidence>, e: Evidence) {
    e.observationId !in Seen(Run(c, before), e.subject)
  }

  lemma ShownIsSound(c: Crypto, e: Evidence, s: Sighting)
    requires Shows(c, e, s)
    ensures Sound(c, e)
  {
  }

  lemma SoundIsIncorporated(c: Crypto, before: seq<Evidence>, e: Evidence)
    requires Sound(c, e)
    ensures Step(c, Run(c, before), e).1 == Ok(Includes(c, before, e))
  {
  }

  /**
   * Incorporating what arrives never fails: an arrival is included when its
   * observation is new, and ignored otherwise.
   */
  lemma ArrivalsNeverFail(w: Sender, sent: seq<Shipment>, arrivals: seq<Message>, i: nat)
    requires SoundSigning(w.crypto) && Carried(w, sent, arrivals) && i < |arrivals|
    ensures Recoverable(arrivals)
    ensures var es := Recovered(arrivals);
            Step(w.crypto, Run(w.crypto, es[..i]), es[i]).1 == Ok(Includes(w.crypto, es[..i], es[i]))
  {
    CarriedIsRecoverable(w, sent, arrivals);
    var es := Recovered(arrivals);
    var s := RecoveredShows(w, sent, arrivals, i);
    ShownIsSound(w.crypto, es[i], s);
    SoundIsIncorporated(w.crypto, es[..i], es[i]);
  }

  /**
   * Two nodes that see the same states of the same subjects hold the same
   * beliefs, whatever was sent to each, over whatever relays and domains, in
   * any order and any multiplicity.
   */
  lemma NodesSeeingAlikeConverge(
      v: Sender, sentA: seq<Shipment>, a: seq<Message>, w: Sender, sentB: seq<Shipment>, b: seq<Message>)
    requires v.crypto == w.crypto && SoundSigning(w.crypto)
    requires CollisionFreeShipments(v.crypto, sentA) && CollisionFreeShipments(w.crypto, sentB)
    requires Carried(v, sentA, a) && Carried(w, sentB, b)
    requires forall subject ::
               StatesOf(ArrivedSightings(v, sentA, a), subject) == StatesOf(ArrivedSightings(w, sentB, b), subject)
    ensures Recoverable(a) && Recoverable(b)
    ensures Run(v.crypto, Recovered(a)).tracks == Run(w.crypto, Recovered(b)).tracks
  {
    EndToEnd(v, sentA, a);
    EndToEnd(w, sentB, b);
    var (t, u) := (Run(v.crypto, Recovered(a)).tracks, Run(w.crypto, Recovered(b)).tracks);
    AlikeTracks(t, ArrivedSightings(v, sentA, a), u, ArrivedSightings(w, sentB, b));
  }

  lemma AlikeTracks(t: map<string, Track>, seen: set<Sighting>, u: map<string, Track>, others: set<Sighting>)
    requires BatchTracks(t, seen) && BatchTracks(u, others)
    requires forall subject :: StatesOf(seen, subject) == StatesOf(others, subject)
    ensures t == u
  {
    assert forall s :: s in t <==> s in u;
  }

  /**
   * Convergence on observations: two nodes to which the same pairs of subject
   * and observation id were delivered saw the same states and hold the same
   * beliefs. What was sent to them may differ in relays, order and multiplicity.
   */
  lemma NodesConverge(
      v: Sender, sentA: seq<Shipment>, a: seq<Message>, w: Sender, sentB: seq<Shipment>, b: seq<Message>)
    requires v.crypto == w.crypto && SoundSigning(w.crypto) && CollisionFreeShipments(w.crypto, sentA + sentB)
    requires Carried(v, sentA, a) && Carried(w, sentB, b)
    ensures Recoverable(a) && Recoverable(b)
    ensures Delivered(v.crypto, Elements(Recovered(a))) == Delivered(w.crypto, Elements(Recovered(b)))
       <==> ArrivedSightings(v, sentA, a) == ArrivedSightings(w, sentB, b)
    ensures Delivered(v.crypto, Elements(Recovered(a))) == Delivered(w.crypto, Elements(Recovered(b)))
        ==> Run(v.crypto, Recovered(a)).tracks == Run(w.crypto, Recovered(b)).tracks
  {
    var (seen, others) := (ArrivedSightings(v, sentA, a), ArrivedSightings(w, sentB, b));
    var all := set s | s in sentA + sentB :: s.origin.state;
    CarriedIsRecoverable(v, sentA, a);
    CarriedIsRecoverable(w, sentB, b);
    ArrivalsShow(v, sentA, a);
    ArrivalsShow(w, sentB, b);
    ArrivedStatesWereSent(v, sentA, a);
    ArrivedStatesWereSent(w, sentB, b);
    FewerPayloads(w.crypto, AllStates(seen + others), all);
    SameDeliveredIffSameSeen(w.crypto, Recovered(a), seen, Recovered(b), others);
    if seen == others {
      FewerPayloads(w.crypto, set s | s in sentA :: s.origin.state, all);
      FewerPayloads(w.crypto, set s | s in sentB :: s.origin.state, all);
      NodesSeeingAlikeConverge(v, sentA, a, w, sentB, b);
    }
  }

  /** In particular two nodes that receive the same shipments hold the same beliefs. */
  lemma SameShipmentsConverge(w: Sender, sent: seq<Shipment>, a: seq<Message>, b: seq<Message>)
    requires SoundSigning(w.crypto) && CollisionFreeShipments(w.crypto, sent)
    requires Carried(w, sent, a) && Carried(w, sent, b) && Arrived(w, sent, a) == Arrived(w, sent, b)
    ensures Recoverable(a) && Recoverable(b)
    ensures Run(w.crypto, Recovered(a)).tracks == Run(w.crypto, Recovered(b)).tracks
  {
    NodesSeeingAlikeConverge(w, sent, a, w, sent, b);
  }

  // ------------------------------------------------------------------
  // Over a stream
  // ------------------------------------------------------------------

  /**
   * Carried messages that are sent on as a batch are received as they were,
   * and a node that incorporates what it receives holds the batch posteriors.
   */
  lemma BatchEndToEnd(
      w: Sender, sent: seq<Shipment>, arrivals: seq<Message>, codec: Codec<Message>, max: nat, rest: Bytes)
    requires SoundSigning(w.crypto) && CollisionFreeShipments(w.crypto, sent) && Carried(w, sent, arrivals)
    requires Lossless(codec) && AllFramable(codec, arrivals, max) && |arrivals| < U32_LIMIT
    ensures var r := RecvBatch(codec, BatchBytes(codec, arrivals, max).0 + rest, max);
            && r.Ok? && r.value.1 == rest && Recoverable(r.value.0)
            && BatchTracks(Run(w.crypto, Recovered(r.value.0)).tracks, ArrivedSightings(w, sent, arrivals))
  {
    BatchRoundTrip(codec, arrivals, max, rest);
    EndToEnd(w, sent, arrivals);
  }

  /** The same for messages framed one after the other on a stream whose bytes come in any chunks. */
  lemma StreamEndToEnd(
      w: Sender, sent: seq<Shipment>, arrivals: seq<Message>, codec: Codec<Message>, max: nat, chunks: seq<Bytes>)
    requires SoundSigning(w.crypto) && CollisionFreeShipments(w.crypto, sent) && Carried(w, sent, arrivals)
    requires Lossless(codec) && AllFramable(codec, arrivals, max) && Flatten(chunks) == Frames(codec, arrivals, max)
    ensures var fed := FeedAll(codec, Drained([], [], None), chunks, max);
            && fed.error.None? && fed.rest == [] && Recoverable(fed.messages)
            && BatchTracks(Run(w.crypto, Recovered(fed.messages)).tracks, ArrivedSightings(w, sent, arrivals))
  {
    StreamDeliversInOrder(codec, arrivals, chunks, max);
    EndToEnd(w, sent, arrivals);
  }

  // ------------------------------------------------------------------
  // The demonstration pipeline
  // ------------------------------------------------------------------

  /** What the lossy transport delivers of a list of shipments, numbered from 0. */
  function Delivery(w: Sender, rng: Oracle, link: LossyMql, sent: seq<Shipment>): seq<Message>
    requires forall s :: s in sent ==> Project(w, s).Ok?
  {
    if sent == [] then []
    else
      var n := |sent| - 1;
      Delivery(w, rng, link, sent[..n]) + link.Deliver(rng, Project(w, sent[n]).value, WrappingAdd(0, n))
  }

  /** The transport never alters a message. */
  lemma {:induction false} DeliveryIsCarried(w: Sender, rng: Oracle, link: LossyMql, sent: seq<Shipment>)
    requires Projectable(w, sent)
    ensures Carried(w, sent, Delivery(w, rng, link, sent))
    decreases |sent|
  {
    if sent != [] {
      var n := |sent| - 1;
      DeliveryIsCarried(w, rng, link, sent[..n]);
      var m := Project(w, sent[n]).value;
      var more := link.Deliver(rng, m, WrappingAdd(0, n));
      DeliverKeeps(rng, link, m, WrappingAdd(0, n));
      CarriedMore(w, sent, Delivery(w, rng, link, sent[..n]), more);
    }
  }

  /**
   * A message is delivered exactly when it is some shipment's and the loss draw
   * for that shipment's number spares it.
   */
  lemma {:induction false} DeliveredIffSpared(w: Sender, rng: Oracle, link: LossyMql, sent: seq<Shipment>, m: Message)
    requires Projectable(w, sent)
    ensures m in Delivery(w, rng, link, sent) <==> SomeArrives(w, rng, link, sent, m)
    decreases |sent|
  {
    if sent != [] {
      var n := |sent| - 1;
      DeliveredIffSpared(w, rng, link, sent[..n], m);
      DeliveredNow(w, rng, link, sent[n], n, m);
      ArrivesInPrefix(w, rng, link, sent, m);
    }
  }

  /** The message is that of shipment number `i`, and is not lost. */
  ghost predicate Arrives(w: Sender, rng: Oracle, link: LossyMql, s: Shipment, i: nat, m: Message) {
    IsMessageOf(w, s, m) && Spared(rng, link, i)
  }

  ghost predicate SomeArrives(w: Sender, rng: Oracle, link: LossyMql, sent: seq<Shipment>, m: Message) {
    exists i :: 0 <= i < |sent| && Arrives(w, rng, link, sent[i], i, m)
  }

  lemma ArrivesInPrefix(w: Sender, rng: Oracle, link: LossyMql, sent: seq<Shipment>, m: Message)
    requires sent != []
    ensures SomeArrives(w, rng, link, sent, m)
       <==> || SomeArrives(w, rng, link, sent[..|sent| - 1], m)
            || Arrives(w, rng, link, sent[|sent| - 1], |sent| - 1, m)
  {
    var before := sent[..|sent| - 1];
    assert forall i :: 0 <= i < |before| ==> before[i] == sent[i];
  }

  /** The loss draw of number `i` is not below the loss probability. */
  predicate Spared(rng: Oracle, link: LossyMql, i: nat) {
    rng.unit(Xor(link.seed, i % U64_LIMIT), 0) >= link.lossP
  }

  lemma DeliveredNow(w: Sender, rng: Oracle, link: LossyMql, s: Shipment, i: nat, m: Message)
    requires Project(w, s).Ok?
    ensures m in link.Deliver(rng, Project(w, s).value, WrappingAdd(0, i))
       <==> Arrives(w, rng, link, s, i, m)
  {
    link.DeliverByDraws(rng, Project(w, s).value, WrappingAdd(0, i));
  }

  /** With no loss every shipment arrives. */
  lemma LosslessLinkDeliversAll(w: Sender, rng: Oracle, link: LossyMql, sent: seq<Shipment>)
    requires Projectable(w, sent) && UnitDraws(rng) && link.lossP == 0.0
    ensures Arrived(w, sent, Delivery(w, rng, link, sent)) == set s | s in sent
  {
    forall s | s in sent ensures Project(w, s).value in Delivery(w, rng, link, sent) {
      var i :| 0 <= i < |sent| && sent[i] == s;
      assert Arrives(w, rng, link, sent[i], i, Project(w, s).value);
      DeliveredIffSpared(w, rng, link, sent, Project(w, s).value);
    }
  }

  /** On the link of the demonstration, with no faults, every shipment's message arrives once and in order. */
  lemma {:induction false} PerfectLinkDeliversInOrder(w: Sender, rng: Oracle, link: LossyMql, sent: seq<Shipment>)
    requires Projectable(w, sent) && UnitDraws(rng) && link.lossP == 0.0 && link.dupP == 0.0
    ensures |Delivery(w, rng, link, sent)| == |sent|
    ensures forall i :: 0 <= i < |sent| ==> IsMessageOf(w, sent[i], Delivery(w, rng, link, sent)[i])
    decreases |sent|
  {
    if sent != [] {
      var n := |sent| - 1;
      PerfectLinkDeliversInOrder(w, rng, link, sent[..n]);
      link.DeliverByDraws(rng, Project(w, sent[n]).value, WrappingAdd(0, n));
      InOrderWithNext(w, sent, Delivery(w, rng, link, sent[..n]), Project(w, sent[n]).value);
    }
  }

  lemma InOrderWithNext(w: Sender, sent: seq<Shipment>, arrivals: seq<Message>, m: Message)
    requires |sent| == |arrivals| + 1 && IsMessageOf(w, sent[|arrivals|], m)
    requires forall i :: 0 <= i < |arrivals| ==> IsMessageOf(w, sent[..|arrivals|][i], arrivals[i])
    ensures forall i :: 0 <= i < |sent| ==> IsMessageOf(w, sent[i], (arrivals + [m])[i])
  {
    forall i | 0 <= i < |sent| ensures IsMessageOf(w, sent[i], (arrivals + [m])[i]) {
      if i < |arrivals| {
        assert sent[..|arrivals|][i] == sent[i];
      }
    }
  }

  lemma DeliverKeeps(rng: Oracle, link: LossyMql, m: Message, sequence: Seed)
    ensures forall d :: d in link.Deliver(rng, m, sequence) ==> d == m
  {
  }

  lemma DeliveryOfNext(w: Sender, rng: Oracle, link: LossyMql, sent: seq<Shipment>, i: nat)
    requires Projectable(w, sent) && i < |sent|
    ensures Delivery(w, rng, link, sent[..i + 1])
         == Delivery(w, rng, link, sent[..i]) + link.Deliver(rng, Project(w, sent[i]).value, WrappingAdd(0, i))
  {
    assert sent[..i + 1][..i] == sent[..i];
  }

  lemma CarriedMore(w: Sender, sent: seq<Shipment>, arrivals: seq<Message>, more: seq<Message>)
    requires sent != [] && Carried(w, sent[..|sent| - 1], arrivals)
    requires forall m :: m in more ==> IsMessageOf(w, sent[|sent| - 1], m)
    ensures Carried(w, sent, arrivals + more)
  {
    forall m | m in arrivals + more ensures exists s :: s in sent && IsMessageOf(w, s, m) {
      if m in arrivals {
        var s := SourceOf(w, sent[..|sent| - 1], arrivals, m);
        assert s in sent;
      } else {
        assert sent[|sent| - 1] in sent;
      }
    }
  }

  /** One more incorporation is one more step of the run; on sound evidence it does not fail. */
  method IncorporateNext(engine: BeliefEngine, e: Evidence, ghost before: seq<Evidence>) returns (included: bool)
    requires engine.Valid() && engine.View() == Run(engine.crypto, before)
    requires Sound(engine.crypto, e)
    modifies engine.Repr
    ensures engine.Valid() && fresh(engine.Repr - old(engine.Repr))
    ensures engine.View() == Run(engine.crypto, before + [e])
    ensures included == Includes(engine.crypto, before, e)
  {
    RunAppend(engine.crypto, before, e);
    SoundIsIncorporated(engine.crypto, before, e);
    var outcome := engine.Incorporate(e);
    included := outcome.value;
  }

  /** Whether each evidence of a list is included when all are incorporated in order, after `before`. */
  ghost function Inclusions(c: Crypto, before: seq<Evidence>, es: seq<Evidence>): seq<bool> {
    if es == [] then []
    else
      var n := |es| - 1;
      Inclusions(c, before, es[..n]) + [Includes(c, before + es[..n], es[n])]
  }

  lemma InclusionsOfNext(c: Crypto, before: seq<Evidence>, es: seq<Evidence>, i: nat)
    requires i < |es|
    ensures Inclusions(c, before, es[..i + 1])
         == Inclusions(c, before, es[..i]) + [Includes(c, before + es[..i], es[i])]
  {
    assert es[..i + 1][..i] == es[..i];
  }

  /** Incorporates sound evidence in order, and tells of each whether it was included. */
  method IncorporateAll(engine: BeliefEngine, es: seq<Evidence>, ghost before: seq<Evidence>)
    returns (included: seq<bool>)
    requires engine.Valid() && engine.View() == Run(engine.crypto, before)
    requires forall e :: e in es ==> Sound(engine.crypto, e)
    modifies engine.Repr
    ensures engine.Valid() && fresh(engine.Repr - old(engine.Repr))
    ensures engine.View() == Run(engine.crypto, before + es)
    ensures included == Inclusions(engine.crypto, before, es)
  {
    included := [];
    assert before + es[..0] == before;
    for i := 0 to |es|
      invariant engine.Valid() && fresh(engine.Repr - old(engine.Repr))
      invariant engine.View() == Run(engine.crypto, before + es[..i])
      invariant included == Inclusions(engine.crypto, before, es[..i])
    {
      AppendNext(before, es, i);
      InclusionsOfNext(engine.crypto, before, es, i);
      assert es[i] in es;
      var one := IncorporateNext(engine, es[i], before + es[..i]);
      included := included + [one];
    }
    assert es[..|es|] == es;
  }

  lemma SameRecovery(a: seq<Message>, i: nat, b: seq<Message>, j: nat)
    requires Recoverable(a) && Recoverable(b) && i < |a| && j < |b| && a[i] == b[j]
    ensures Recovered(a)[i] == Recovered(b)[j]
  {
  }

  lemma RecoveredAppend(a: seq<Message>, b: seq<Message>)
    requires Recoverable(a) && Recoverable(b)
    ensures Recoverable(a + b) && Recovered(a + b) == Recovered(a) + Recovered(b)
  {
    var (joint, parts) := (Recovered(a + b), Recovered(a) + Recovered(b));
    forall i | 0 <= i < |a| + |b| ensures joint[i] == parts[i] {
      if i < |a| {
        SameRecovery(a + b, i, a, i);
      } else {
        SameRecovery(a + b, i, b, i - |a|);
      }
    }
  }

  lemma DeliveredIsSound(w: Sender, rng: Oracle, link: LossyMql, s: Shipment, sequence: Seed)
    requires SoundSigning(w.crypto) && Project(w, s).Ok?
    ensures var delivered := link.Deliver(rng, Project(w, s).value, sequence);
            Recoverable(delivered) && forall e :: e in Recovered(delivered) ==> Sound(w.crypto, e)
  {
    var m := Project(w, s).value;
    RecoveredShipment(w, s, m);
    DeliverKeeps(rng, link, m, sequence);
    ShownIsSound(w.crypto, FromMessage(m).value, SightingIn(s));
  }

  /** Projects one shipment, delivers it and ingests what arrives. */
  method SendOne(
      engine: BeliefEngine, w: Sender, rng: Oracle, link: LossyMql,
      s: Shipment, sequence: Seed, ghost done: seq<Message>)
    returns (delivered: seq<Message>)
    requires engine.crypto == w.crypto && SoundSigning(w.crypto) && Project(w, s).Ok?
    requires engine.Valid() && Recoverable(done)
    requires engine.View() == Run(engine.crypto, Recovered(done))
    modifies engine.Repr
    ensures engine.Valid() && fresh(engine.Repr - old(engine.Repr))
    ensures delivered == link.Deliver(rng, Project(w, s).value, sequence)
    ensures Recoverable(done + delivered)
    ensures engine.View() == Run(engine.crypto, Recovered(done + delivered))
  {
    delivered := link.Deliver(rng, Project(w, s).value, sequence);
    DeliveredIsSound(w, rng, link, s, sequence);
    RecoveredAppend(done, delivered);
    var _ := IncorporateAll(engine, Recovered(delivered), Recovered(done));
  }

  /**
   * The loop of the demonstration: each shipment is projected and delivered,
   * and every arrival is recovered and incorporated. The beliefs at the end are
   * the batch posterior of the states that the transport let through.
   */
  method RunPipeline(w: Sender, rng: Oracle, link: LossyMql, sent: seq<Shipment>) returns (engine: BeliefEngine)
    requires SoundSigning(w.crypto) && CollisionFreeShipments(w.crypto, sent) && Projectable(w, sent)
    ensures fresh(engine) && engine.Valid()
    ensures BatchTracks(engine.View().tracks, ArrivedSightings(w, sent, Delivery(w, rng, link, sent)))
  {
    ghost var done: seq<Message> := [];
    engine := new BeliefEngine(w.crypto);
    for i := 0 to |sent|
      invariant fresh(engine) && fresh(engine.Repr) && engine.Valid() && engine.crypto == w.crypto
      invariant done == Delivery(w, rng, link, sent[..i])
      invariant Recoverable(done)
      invariant engine.View() == Run(w.crypto, Recovered(done))
    {
      var delivered := SendOne(engine, w, rng, link, sent[i], WrappingAdd(0, i), done);
      DeliveryOfNext(w, rng, link, sent, i);
      done := done + delivered;
    }
    assert sent[..|sent|] == sent;
    DeliveryIsCarried(w, rng, link, sent);
    EndToEnd(w, sent, done);
  }
}
