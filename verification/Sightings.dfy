/**
 * seven-belief and seven-evidence together: evidence that shows a state of a
 * subject under the id of that state, and the batch posterior that a set of
 * shown states makes an engine believe.
 */
module Sightings {
  import opened Basics
  import opened Core
  import opened Evidence
  import opened Gaussian
  import opened Belief
  import opened Convergence

  /** A state in which a subject was observed. */
  datatype Sighting = Sighting(subject: string, state: CanonicalState)

  /** The evidence verifies and carries the reading of the state under the id of the state. */
  ghost predicate Shows(c: Crypto, e: Evidence, s: Sighting) {
    && Verify(c, e).Ok? && e.subject == s.subject
    && e.observationId == EvidenceIdOf(c, s.state) && Reading(e.payload) == Some(Measurements(s.state))
  }

  /** The subject and the id under which a sighting is delivered. */
  function KeyOf(c: Crypto, s: Sighting): (string, Id32) {
    (s.subject, EvidenceIdOf(c, s.state))
  }

  ghost function KeysOf(c: Crypto, seen: set<Sighting>): set<(string, Id32)> {
    set s | s in seen :: KeyOf(c, s)
  }

  /** The evidence shows these sightings, nothing else and every one of them. */
  ghost predicate Shown(c: Crypto, es: seq<Evidence>, seen: set<Sighting>) {
    && (forall e :: e in es ==> exists s :: s in seen && Shows(c, e, s))
    && KeysOf(c, seen) <= Delivered(c, Elements(es))
  }

  /** The sighting that some evidence of the list shows. */
  ghost function SightingOf(c: Crypto, es: seq<Evidence>, seen: set<Sighting>, e: Evidence): (s: Sighting)
    requires Shown(c, es, seen) && e in es
    ensures s in seen && Shows(c, e, s)
  {
    var s :| s in seen && Shows(c, e, s);
    s
  }

  /** The states in which one subject was seen. */
  ghost function StatesOf(seen: set<Sighting>, subject: string): set<CanonicalState> {
    set s | s in seen && s.subject == subject :: s.state
  }

  ghost function Payloads(states: set<CanonicalState>): set<Bytes> {
    set s | s in states :: CanonicalBytes(s)
  }

  ghost function IdsOf(c: Crypto, states: set<CanonicalState>): set<Id32> {
    set s | s in states :: EvidenceIdOf(c, s)
  }

  /** The states of all subjects. */
  ghost function AllStates(seen: set<Sighting>): set<CanonicalState> {
    set s | s in seen :: s.state
  }

  // ------------------------------------------------------------------
  // The batch posterior of a set of states
  // ------------------------------------------------------------------

  /** The sum of one dimension over a set of states. */
  ghost function StateSum(states: set<CanonicalState>, d: int): real
    requires 0 <= d < 6
  {
    if states == {} then 0.0
    else
      var s :| s in states;
      Measurements(s)[d] + StateSum(states - {s}, d)
  }

  /** The posterior of a set of observed states. */
  ghost function BatchOfStates(states: set<CanonicalState>): Track {
    RawTrack.Track(
      seq(6, d requires 0 <= d < 6 => PosteriorMean(|states|, StateSum(states, d), Noise(d))),
      seq(6, d requires 0 <= d < 6 => PosteriorVar(|states|, Noise(d))),
      6 * |states|)
  }

  /** The tracks are the batch posteriors of what was seen. */
  ghost predicate BatchTracks(tracks: map<string, Track>, seen: set<Sighting>) {
    forall subject ::
      && (subject in tracks <==> StatesOf(seen, subject) != {})
      && (subject in tracks ==> tracks[subject] == BatchOfStates(StatesOf(seen, subject)))
  }

  // ------------------------------------------------------------------
  // Ids and states
  // ------------------------------------------------------------------

  /** Without collisions the id of a state identifies it. */
  lemma IdIdentifies(c: Crypto, states: set<CanonicalState>, a: CanonicalState, b: CanonicalState)
    requires CollisionFree(c, Payloads(states)) && a in states && b in states
    requires EvidenceIdOf(c, a) == EvidenceIdOf(c, b)
    ensures a == b
  {
    assert CanonicalBytes(a) in Payloads(states) && CanonicalBytes(b) in Payloads(states);
    CanonicalPrefixFree(a, b);
  }

  lemma FewerPayloads(c: Crypto, fewer: set<CanonicalState>, states: set<CanonicalState>)
    requires fewer <= states && CollisionFree(c, Payloads(states))
    ensures CollisionFree(c, Payloads(fewer))
  {
    assert Payloads(fewer) <= Payloads(states);
  }

  lemma IdsWithout(c: Crypto, states: set<CanonicalState>, s: CanonicalState)
    requires CollisionFree(c, Payloads(states)) && s in states
    ensures IdsOf(c, states - {s}) == IdsOf(c, states) - {EvidenceIdOf(c, s)}
    ensures CollisionFree(c, Payloads(states - {s}))
  {
    FewerPayloads(c, states - {s}, states);
    forall t | t in states - {s} ensures EvidenceIdOf(c, t) != EvidenceIdOf(c, s) {
      if EvidenceIdOf(c, t) == EvidenceIdOf(c, s) {
        IdIdentifies(c, states, t, s);
      }
    }
  }

  lemma {:induction false} CountIds(c: Crypto, states: set<CanonicalState>)
    requires CollisionFree(c, Payloads(states))
    ensures |IdsOf(c, states)| == |states|
    decreases states
  {
    if states != {} {
      var s :| s in states;
      IdsWithout(c, states, s);
      CountIds(c, states - {s});
      SizeWithout(IdsOf(c, states), EvidenceIdOf(c, s));
      SizeWithout(states, s);
    }
  }

  /** The readings of these states are in the map, each under its id. */
  ghost predicate Holds(c: Crypto, m: ReadingMap, states: set<CanonicalState>) {
    forall s :: s in states ==> EvidenceIdOf(c, s) in m && m[EvidenceIdOf(c, s)] == Some(Measurements(s))
  }

  lemma {:induction false} SumOfHeld(c: Crypto, m: ReadingMap, states: set<CanonicalState>, d: int)
    requires 0 <= d < 6 && CollisionFree(c, Payloads(states)) && Holds(c, m, states)
    ensures IdsOf(c, states) <= Decoded(m)
    ensures SumOver(m, IdsOf(c, states), d) == StateSum(states, d)
    decreases states
  {
    if states != {} {
      var s :| s in states && StateSum(states, d) == Measurements(s)[d] + StateSum(states - {s}, d);
      IdsWithout(c, states, s);
      SumOfHeld(c, m, states - {s}, d);
      SumOverRemoves(m, IdsOf(c, states), EvidenceIdOf(c, s), d);
    }
  }

  lemma HeldAreDecoded(c: Crypto, m: ReadingMap, states: set<CanonicalState>)
    requires CollisionFree(c, Payloads(states)) && Holds(c, m, states) && m.Keys == IdsOf(c, states)
    ensures Decoded(m) == IdsOf(c, states) && |Decoded(m)| == |states|
  {
    CountIds(c, states);
    SumOfHeld(c, m, states, 0);
  }

  /** When the map holds the readings of these states and nothing else, its batch posterior is theirs. */
  lemma BatchOfHeld(c: Crypto, m: ReadingMap, states: set<CanonicalState>)
    requires CollisionFree(c, Payloads(states)) && Holds(c, m, states) && m.Keys == IdsOf(c, states)
    ensures Batch(m) == BatchOfStates(states)
    ensures Decoded(m) == {} <==> states == {}
  {
    var (p, b) := (Batch(m), BatchOfStates(states));
    HeldAreDecoded(c, m, states);
    forall d | 0 <= d < 6 ensures p.mean[d] == b.mean[d] && p.variance[d] == b.variance[d] {
      SumOfHeld(c, m, states, d);
    }
    assert p.mean == b.mean && p.variance == b.variance;
  }

  // ------------------------------------------------------------------
  // What an engine believes of what it was shown
  // ------------------------------------------------------------------

  /** A recorded id is the id of a state that was seen, with the reading of that state. */
  lemma RecordedWasSeen(c: Crypto, es: seq<Evidence>, seen: set<Sighting>, subject: string, id: Id32)
    returns (state: CanonicalState)
    requires Shown(c, es, seen) && id in Readings(c, es, subject)
    ensures state in StatesOf(seen, subject) && EvidenceIdOf(c, state) == id
    ensures Readings(c, es, subject)[id] == Some(Measurements(state))
  {
    var e := RecordedFrom(c, es, subject, id);
    state := SightingOf(c, es, seen, e).state;
  }

  lemma SeenIsRecorded(c: Crypto, es: seq<Evidence>, seen: set<Sighting>, subject: string, state: CanonicalState)
    requires Shown(c, es, seen) && state in StatesOf(seen, subject)
    ensures EvidenceIdOf(c, state) in Readings(c, es, subject)
  {
    assert KeyOf(c, Sighting(subject, state)) in KeysOf(c, seen);
    DeliveredMeansRecorded(c, es, subject, EvidenceIdOf(c, state));
  }

  lemma ReadingsHoldStates(c: Crypto, es: seq<Evidence>, seen: set<Sighting>, subject: string)
    requires Shown(c, es, seen) && CollisionFree(c, Payloads(StatesOf(seen, subject)))
    ensures var (m, states) := (Readings(c, es, subject), StatesOf(seen, subject));
            Holds(c, m, states) && m.Keys == IdsOf(c, states)
  {
    var (m, states) := (Readings(c, es, subject), StatesOf(seen, subject));
    forall id | id in m ensures id in IdsOf(c, states) {
      var state := RecordedWasSeen(c, es, seen, subject, id);
    }
    forall s | s in states ensures EvidenceIdOf(c, s) in m && m[EvidenceIdOf(c, s)] == Some(Measurements(s)) {
      SeenIsRecorded(c, es, seen, subject, s);
      var state := RecordedWasSeen(c, es, seen, subject, EvidenceIdOf(c, s));
      IdIdentifies(c, states, s, state);
    }
  }

  /**
   * However often and in whatever order the sightings are shown, the track of
   * every subject is the batch posterior of the set of its states, and the
   * recorded ids are theirs.
   */
  lemma SightingsDecideTracks(c: Crypto, es: seq<Evidence>, seen: set<Sighting>)
    requires Shown(c, es, seen) && CollisionFree(c, Payloads(AllStates(seen)))
    ensures BatchTracks(Run(c, es).tracks, seen)
    ensures forall subject :: Seen(Run(c, es), subject) == IdsOf(c, StatesOf(seen, subject))
  {
    forall subject
      ensures subject in Run(c, es).tracks <==> StatesOf(seen, subject) != {}
      ensures subject in Run(c, es).tracks ==> Run(c, es).tracks[subject] == BatchOfStates(StatesOf(seen, subject))
      ensures Seen(Run(c, es), subject) == IdsOf(c, StatesOf(seen, subject))
    {
      FewerPayloads(c, StatesOf(seen, subject), AllStates(seen));
      ReadingsHoldStates(c, es, seen, subject);
      RunIsBatch(c, es, subject);
      BatchOfHeld(c, Readings(c, es, subject), StatesOf(seen, subject));
    }
  }

  lemma ShownIsDelivered(c: Crypto, e: Evidence, s: Sighting)
    requires Shows(c, e, s)
    ensures Verify(c, e).Ok? && (e.subject, e.observationId) == KeyOf(c, s)
  {
  }

  /** What was delivered, as pairs of subject and observation id, are the keys of what was seen. */
  lemma DeliveredIsSeen(c: Crypto, es: seq<Evidence>, seen: set<Sighting>)
    requires Shown(c, es, seen)
    ensures Delivered(c, Elements(es)) == KeysOf(c, seen)
  {
    forall e | e in Elements(es) ensures (e.subject, e.observationId) in KeysOf(c, seen) {
      var s := SightingOf(c, es, seen, e);
      ShownIsDelivered(c, e, s);
      assert KeyOf(c, s) in KeysOf(c, seen);
    }
  }

  /** Without collisions the same observations were delivered exactly when the same states were seen. */
  lemma SameDeliveredIffSameSeen(
      c: Crypto, es: seq<Evidence>, seen: set<Sighting>, fs: seq<Evidence>, others: set<Sighting>)
    requires Shown(c, es, seen) && Shown(c, fs, others)
    requires CollisionFree(c, Payloads(AllStates(seen + others)))
    ensures Delivered(c, Elements(es)) == Delivered(c, Elements(fs)) <==> seen == others
  {
    DeliveredIsSeen(c, es, seen);
    DeliveredIsSeen(c, fs, others);
    if KeysOf(c, seen) == KeysOf(c, others) {
      KeysIdentify(c, seen, others, seen + others);
      KeysIdentify(c, others, seen, seen + others);
    }
  }

  lemma KeysIdentify(c: Crypto, seen: set<Sighting>, others: set<Sighting>, all: set<Sighting>)
    requires seen <= all && others <= all && CollisionFree(c, Payloads(AllStates(all)))
    requires KeysOf(c, seen) <= KeysOf(c, others)
    ensures seen <= others
  {
    forall s | s in seen ensures s in others {
      assert KeyOf(c, s) in KeysOf(c, others);
      var t :| t in others && KeyOf(c, t) == KeyOf(c, s);
      assert s.state in AllStates(all) && t.state in AllStates(all);
      IdIdentifies(c, AllStates(all), s.state, t.state);
    }
  }
}
