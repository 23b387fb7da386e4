/** seven-replay: the replay state machine and what a log says about its final state. */
module Replay {
  import opened Basics
  import opened Evidence
  import opened Events
  import opened Belief
  import opened Convergence
  import opened Engine

  datatype EventError = BeliefFailed(cause: BeliefError) | UnwrittenKey(key: string)

  datatype ReplayError = EventFailed(index: nat, kind: EventError) | NonDeterministic

  /** The maps that events other than observations update. */
  datatype Maps = Maps(
    seen: map<string, SevenMessage>,
    nodes: map<string, bool>,
    db: map<string, Id32>)

  datatype ReplayState = ReplayState(beliefs: EngineState, maps: Maps)

  const START: ReplayState := ReplayState(EMPTY, Maps(map[], map[], map[]))

  function ApplyToMaps(m: Maps, e: SevenEvent): Maps {
    match e
    case MessageSent(envelope) => m.(seen := m.seen[envelope.id := envelope])
    case TransportLoss(id) => m.(seen := m.seen - {id})
    case NodeOnline(node) => m.(nodes := m.nodes[node := true])
    case NodeOffline(node) => m.(nodes := m.nodes[node := false])
    case DbWrite(key, hash) => m.(db := m.db[key := hash])
    case _ => m
  }

  function Apply(c: Crypto, st: ReplayState, e: SevenEvent): (ReplayState, Option<EventError>) {
    match e
    case Observation(evidence) =>
      var (beliefs, outcome) := Step(c, st.beliefs, evidence);
      (st.(beliefs := beliefs),
       match outcome
       case Err(cause) => Some(BeliefFailed(cause))
       case Ok(_) => None)
    case DbRead(key, _) => (st, if key in st.maps.db then None else Some(UnwrittenKey(key)))
    case _ => (st.(maps := ApplyToMaps(st.maps, e)), None)
  }

  /** One pass over a log, stopping at the first event that fails. */
  function Pass(c: Crypto, events: seq<SevenEvent>): Result<ReplayState, ReplayError> {
    if events == [] then Ok(START)
    else
      var i := |events| - 1;
      match Pass(c, events[..i])
      case Err(e) => Err(e)
      case Ok(st) =>
        match Apply(c, st, events[i])
        case (_, Some(kind)) => Err(EventFailed(i, kind))
        case (next, None) => Ok(next)
  }

  // ------------------------------------------------------------------
  // The engine
  // ------------------------------------------------------------------

  /** Everything that the state fingerprint reads. */
  datatype Footprint = Footprint(
    payloads: map<string, Bytes>,
    nodes: map<string, bool>,
    db: map<string, Id32>,
    tracks: map<string, Track>)

  function FootprintOf(st: ReplayState): Footprint {
    Footprint(map id | id in st.maps.seen :: st.maps.seen[id].canonicalPayload,
              st.maps.nodes, st.maps.db, st.beliefs.tracks)
  }

  /** Two states have the same footprint exactly when they agree on seen payloads, nodes, keys and tracks. */
  lemma FootprintSeparates(a: ReplayState, b: ReplayState)
    ensures FootprintOf(a) == FootprintOf(b)
       <==> && a.maps.nodes == b.maps.nodes && a.maps.db == b.maps.db && a.beliefs.tracks == b.beliefs.tracks
            && a.maps.seen.Keys == b.maps.seen.Keys
            && forall id :: id in a.maps.seen ==>
                 a.maps.seen[id].canonicalPayload == b.maps.seen[id].canonicalPayload
  {
    var (p, q) := (FootprintOf(a).payloads, FootprintOf(b).payloads);
    assert p.Keys == a.maps.seen.Keys && q.Keys == b.maps.seen.Keys;
    if p == q {
      forall id | id in a.maps.seen
        ensures id in b.maps.seen && a.maps.seen[id].canonicalPayload == b.maps.seen[id].canonicalPayload
      {
        assert id in p && id in q && p[id] == q[id];
      }
    }
  }

  class ReplayEngine {
    const beliefs: BeliefEngine
    var seenMessages: map<string, SevenMessage>
    var nodesOnline: map<string, bool>
    var db: map<string, Id32>

    ghost predicate Valid()
      reads this, beliefs, beliefs.Repr
    {
      this !in beliefs.Repr && beliefs.Valid()
    }

    function View(): ReplayState
      requires Valid()
      reads this, beliefs, beliefs.Repr
    {
      ReplayState(beliefs.View(), Maps(seenMessages, nodesOnline, db))
    }

    constructor (c: Crypto)
      ensures Valid() && fresh(beliefs) && fresh(beliefs.Repr)
      ensures beliefs.crypto == c && View() == START
    {
      beliefs := new BeliefEngine(c);
      seenMessages, nodesOnline, db := map[], map[], map[];
    }

    /** Applies one event in place. */
    method ApplyEvent(e: SevenEvent) returns (error: Option<EventError>)
      requires Valid()
      modifies this, beliefs.Repr
      ensures Valid() && fresh(beliefs.Repr - old(beliefs.Repr))
      ensures (View(), error) == Apply(beliefs.crypto, old(View()), e)
    {
      error := None;
      if e.Observation? {
        var outcome := beliefs.Incorporate(e.evidence);
        if outcome.Err? {
          error := Some(BeliefFailed(outcome.error));
        }
      } else {
        error := UpdateMaps(e);
      }
    }

    /** The events other than observations; duplications, reorderings, receipts and recorded updates have no effect. */
    method UpdateMaps(e: SevenEvent) returns (error: Option<EventError>)
      requires Valid() && !e.Observation?
      modifies this
      ensures Valid() && beliefs.View() == old(beliefs.View())
      ensures Maps(seenMessages, nodesOnline, db) == ApplyToMaps(old(Maps(seenMessages, nodesOnline, db)), e)
      ensures error == if e.DbRead? && e.key !in old(db) then Some(UnwrittenKey(e.key)) else None
    {
      error := None;
      match e
      case MessageSent(envelope) => seenMessages := seenMessages[envelope.id := envelope];
      case TransportLoss(id) => seenMessages := seenMessages - {id};
      case NodeOnline(node) => nodesOnline := nodesOnline[node := true];
      case NodeOffline(node) => nodesOnline := nodesOnline[node := false];
      case DbWrite(key, hash) => db := db[key := hash];
      case DbRead(key, _) =>
        if key !in db {
          error := Some(UnwrittenKey(key));
        }
      case TransportDuplicate(_) =>
      case TransportReorder(_, _) =>
      case MessageReceived(_) =>
      case BeliefUpdate(_, _) =>
    }
  }

  lemma PassOfNext(c: Crypto, events: seq<SevenEvent>, i: nat)
    requires i < |events| && Pass(c, events[..i]).Ok?
    ensures Pass(c, events[..i + 1])
         == match Apply(c, Pass(c, events[..i]).value, events[i])
            case (_, Some(kind)) => Err(EventFailed(i, kind))
            case (next, None) => Ok(next)
  {
    assert events[..i + 1][..i] == events[..i];
  }

  /** Replays a log into a fresh engine. */
  method ReplayPass(c: Crypto, log: EventLog) returns (r: Result<ReplayEngine, ReplayError>)
    ensures r.Err? ==> Pass(c, log.events) == Err(r.error)
    ensures r.Ok? ==> fresh(r.value) && r.value.Valid() && Pass(c, log.events) == Ok(r.value.View())
  {
    var engine := new ReplayEngine(c);
    for i := 0 to |log.events|
      invariant fresh(engine) && fresh(engine.beliefs) && fresh(engine.beliefs.Repr)
      invariant engine.Valid() && engine.beliefs.crypto == c
      invariant Pass(c, log.events[..i]) == Ok(engine.View())
    {
      PassOfNext(c, log.events, i);
      var error := engine.ApplyEvent(log.events[i]);
      if error.Some? {
        FailureIsFinal(c, log.events, i + 1);
        return Err(EventFailed(i, error.value));
      }
    }
    assert log.events[..|log.events|] == log.events;
    r := Ok(engine);
  }

  /** Replays twice and compares the fingerprints of the two final states. */
  method ReplayTwice(
      c: Crypto, log: EventLog, fingerprint: Footprint -> Id32) returns (r: Result<ReplayEngine, ReplayError>)
    ensures r != Err(NonDeterministic)
    ensures r.Err? ==> Pass(c, log.events) == Err(r.error)
    ensures r.Ok? ==> r.value.Valid() && Pass(c, log.events) == Ok(r.value.View())
  {
    PassIsNeverNonDeterministic(c, log.events);
    var first := ReplayPass(c, log);
    if first.Err? {
      return first;
    }
    var second := ReplayPass(c, log);
    if second.Err? {
      return second;
    }
    if fingerprint(FootprintOf(first.value.View())) != fingerprint(FootprintOf(second.value.View())) {
      r := Err(NonDeterministic);
    } else {
      r := first;
    }
  }

  lemma {:induction false} FailureIsFinal(c: Crypto, events: seq<SevenEvent>, k: nat)
    requires k <= |events| && Pass(c, events[..k]).Err?
    ensures Pass(c, events) == Pass(c, events[..k])
    decreases |events|
  {
    if k == |events| {
      assert events[..k] == events;
    } else {
      var before := events[..|events| - 1];
      assert before[..k] == events[..k];
      FailureIsFinal(c, before, k);
    }
  }

  lemma {:induction false} PassIsNeverNonDeterministic(c: Crypto, events: seq<SevenEvent>)
    ensures Pass(c, events) != Err(NonDeterministic)
    decreases |events|
  {
    if events != [] {
      PassIsNeverNonDeterministic(c, events[..|events| - 1]);
    }
  }

  // ------------------------------------------------------------------
  // Last writers
  // ------------------------------------------------------------------

  /** The maps after all events of a log, ignoring failures. */
  function MapsOf(events: seq<SevenEvent>): Maps {
    if events == [] then START.maps
    else ApplyToMaps(MapsOf(events[..|events| - 1]), events[|events| - 1])
  }

  /** The evidence of the observations of a log, in order. */
  function Observed(events: seq<SevenEvent>): seq<Evidence> {
    if events == [] then []
    else
      var e := events[|events| - 1];
      Observed(events[..|events| - 1]) + if e.Observation? then [e.evidence] else []
  }

  /** A successful pass ends with the maps of the log and the engine run on its observations. */
  lemma {:induction false} PassComputes(c: Crypto, events: seq<SevenEvent>)
    requires Pass(c, events).Ok?
    ensures Pass(c, events).value == ReplayState(Run(c, Observed(events)), MapsOf(events))
    decreases |events|
  {
    if events != [] {
      var (before, e) := (events[..|events| - 1], events[|events| - 1]);
      PassComputes(c, before);
      if e.Observation? {
        assert Observed(events)[..|Observed(before)|] == Observed(before);
      } else {
        assert Observed(before) + [] == Observed(before);
      }
    }
  }

  /** The event decides what is seen under this message id. */
  predicate ConcernsMessage(e: SevenEvent, id: string) {
    (e.MessageSent? && e.envelope.id == id) || e == TransportLoss(id)
  }

  predicate ConcernsNode(e: SevenEvent, node: string) {
    e == NodeOnline(node) || e == NodeOffline(node)
  }

  predicate ConcernsKey(e: SevenEvent, key: string) {
    e.DbWrite? && e.key == key
  }

  /** Event `k` sends the message `id`, and no later event sends or loses it. */
  ghost predicate LastSend(events: seq<SevenEvent>, k: int, id: string) {
    && 0 <= k < |events| && events[k].MessageSent? && events[k].envelope.id == id
    && forall l :: k < l < |events| ==> !ConcernsMessage(events[l], id)
  }

  /** Event `k` is the last one about the node. */
  ghost predicate LastStatus(events: seq<SevenEvent>, k: int, node: string) {
    && 0 <= k < |events| && ConcernsNode(events[k], node)
    && forall l :: k < l < |events| ==> !ConcernsNode(events[l], node)
  }

  /** Event `k` is the last write of the key. */
  ghost predicate LastWrite(events: seq<SevenEvent>, k: int, key: string) {
    && 0 <= k < |events| && ConcernsKey(events[k], key)
    && forall l :: k < l < |events| ==> !ConcernsKey(events[l], key)
  }

  /** A message is seen exactly when its last send is not followed by a loss, and the last send is what is kept. */
  lemma {:induction false} SeenIsLastSend(events: seq<SevenEvent>, id: string)
    ensures id in MapsOf(events).seen <==> exists k :: LastSend(events, k, id)
    ensures forall k :: LastSend(events, k, id) ==> MapsOf(events).seen[id] == events[k].envelope
    decreases |events|
  {
    if events != [] {
      var n := |events| - 1;
      var (before, e) := (events[..n], events[n]);
      SeenIsLastSend(before, id);
      if ConcernsMessage(e, id) {
        assert e.MessageSent? ==> LastSend(events, n, id);
      } else {
        forall k ensures LastSend(before, k, id) <==> LastSend(events, k, id) {
          assert LastSend(before, k, id) ==> events[k] == before[k];
        }
      }
    }
  }

  lemma {:induction false} NodesAreLastStatus(events: seq<SevenEvent>, node: string)
    ensures node in MapsOf(events).nodes <==> exists k :: LastStatus(events, k, node)
    ensures forall k :: LastStatus(events, k, node) ==> MapsOf(events).nodes[node] == events[k].NodeOnline?
    decreases |events|
  {
    if events != [] {
      var n := |events| - 1;
      var (before, e) := (events[..n], events[n]);
      NodesAreLastStatus(before, node);
      if ConcernsNode(e, node) {
        assert LastStatus(events, n, node);
      } else {
        forall k ensures LastStatus(before, k, node) <==> LastStatus(events, k, node) {
          assert LastStatus(before, k, node) ==> events[k] == before[k];
        }
      }
    }
  }

  lemma {:induction false} DbIsLastWrite(events: seq<SevenEvent>, key: string)
    ensures key in MapsOf(events).db <==> exists k :: LastWrite(events, k, key)
    ensures forall k :: LastWrite(events, k, key) ==> MapsOf(events).db[key] == events[k].valueHash
    decreases |events|
  {
    if events != [] {
      var n := |events| - 1;
      var (before, e) := (events[..n], events[n]);
      DbIsLastWrite(before, key);
      if ConcernsKey(e, key) {
        assert LastWrite(events, n, key);
      } else {
        forall k ensures LastWrite(before, k, key) <==> LastWrite(events, k, key) {
          assert LastWrite(before, k, key) ==> events[k] == before[k];
        }
      }
    }
  }

  /** A key is in the database exactly when some event writes it. */
  lemma {:induction false} WrittenKeys(events: seq<SevenEvent>, key: string)
    ensures key in MapsOf(events).db <==> exists k :: 0 <= k < |events| && ConcernsKey(events[k], key)
    decreases |events|
  {
    if events != [] {
      var n := |events| - 1;
      var before := events[..n];
      WrittenKeys(before, key);
      assert forall k :: 0 <= k < n ==> events[k] == before[k];
    }
  }

  /** The final state of a successful replay has last-writer semantics and the beliefs of the observations. */
  lemma ReplayHasLastWriters(c: Crypto, events: seq<SevenEvent>, name: string)
    requires Pass(c, events).Ok?
    ensures var m := Pass(c, events).value.maps;
            && (name in m.seen <==> exists k :: LastSend(events, k, name))
            && (forall k :: LastSend(events, k, name) ==> m.seen[name] == events[k].envelope)
            && (name in m.nodes <==> exists k :: LastStatus(events, k, name))
            && (forall k :: LastStatus(events, k, name) ==> m.nodes[name] == events[k].NodeOnline?)
            && (name in m.db <==> exists k :: LastWrite(events, k, name))
            && (forall k :: LastWrite(events, k, name) ==> m.db[name] == events[k].valueHash)
    ensures Pass(c, events).value.beliefs == Run(c, Observed(events))
  {
    PassComputes(c, events);
    SeenIsLastSend(events, name);
    NodesAreLastStatus(events, name);
    DbIsLastWrite(events, name);
  }

  // ------------------------------------------------------------------
  // Failures
  // ------------------------------------------------------------------

  /**
   * Event `i` fails by itself: a read of a key that no earlier event writes, or
   * an observation that does not verify, or one that does not decode and whose
   * id no earlier observation recorded.
   */
  ghost predicate Fails(c: Crypto, events: seq<SevenEvent>, i: int)
    requires 0 <= i < |events|
  {
    match events[i]
    case DbRead(key, _) => forall j :: 0 <= j < i ==> !ConcernsKey(events[j], key)
    case Observation(e) =>
      || Verify(c, e).Err?
      || (Reading(e.payload).None?
          && forall j :: 0 <= j < i && events[j].Observation? ==>
               !Records(c, events[j].evidence, e.subject, e.observationId))
    case _ => false
  }

  lemma {:induction false} ObservedAre(events: seq<SevenEvent>, e: Evidence)
    ensures e in Observed(events) <==> Observation(e) in events
    decreases |events|
  {
    if events != [] {
      var n := |events| - 1;
      ObservedAre(events[..n], e);
      assert events == events[..n] + [events[n]];
    }
  }

  /** Incorporating an observation after the earlier ones of the log fails exactly as `Fails` says. */
  lemma ObservationOutcome(c: Crypto, events: seq<SevenEvent>, i: nat)
    requires i < |events| && events[i].Observation?
    ensures Step(c, Run(c, Observed(events[..i])), events[i].evidence).1.Err? <==> Fails(c, events, i)
  {
    var (before, e) := (events[..i], events[i].evidence);
    var (s, id) := (e.subject, e.observationId);
    RunDescribesSubject(c, Observed(before), s);
    ReadingsComeFromEvidence(c, Observed(before), s, id);
    if id in Readings(c, Observed(before), s) {
      var f :| f in Observed(before) && Records(c, f, s, id);
      ObservedAre(before, f);
      var j :| 0 <= j < |before| && before[j] == Observation(f);
      assert events[j] == before[j];
    } else {
      forall j | 0 <= j < i && events[j].Observation? ensures !Records(c, events[j].evidence, s, id) {
        ObservedAre(before, events[j].evidence);
        assert before[j] == events[j];
      }
    }
  }

  lemma ReadOutcome(events: seq<SevenEvent>, i: nat, key: string)
    requires i < |events|
    ensures key in MapsOf(events[..i]).db <==> exists j :: 0 <= j < i && ConcernsKey(events[j], key)
  {
    WrittenKeys(events[..i], key);
    assert forall j :: 0 <= j < i ==> events[..i][j] == events[j];
  }

  /** The error of an event that fails: the unwritten key, or the verdict on the observation. */
  function FailureOf(c: Crypto, e: SevenEvent): EventError
    requires e.DbRead? || e.Observation?
  {
    if e.DbRead? then UnwrittenKey(e.key)
    else
      match Verify(c, e.evidence)
      case Err(cause) => BeliefFailed(UnverifiedEvidence(cause))
      case Ok(_) => BeliefFailed(NonFinite)
  }

  lemma FailuresInPrefix(c: Crypto, events: seq<SevenEvent>, n: nat)
    requires n <= |events|
    ensures forall i :: 0 <= i < n ==> (Fails(c, events[..n], i) <==> Fails(c, events, i))
    ensures forall i :: 0 <= i < n ==> events[..n][i] == events[i]
  {
  }

  /** Event `index` is the first that fails, for this reason. */
  ghost predicate FirstFailure(c: Crypto, events: seq<SevenEvent>, error: ReplayError) {
    && error.EventFailed? && error.index < |events|
    && Fails(c, events, error.index) && error.kind == FailureOf(c, events[error.index])
    && forall i :: 0 <= i < error.index ==> !Fails(c, events, i)
  }

  ghost predicate NoneFails(c: Crypto, events: seq<SevenEvent>) {
    forall i :: 0 <= i < |events| ==> !Fails(c, events, i)
  }

  /** A pass fails exactly at the first event that fails by itself, with its reason, and succeeds when there is none. */
  lemma {:induction false} PassFailsAtFirstFailure(c: Crypto, events: seq<SevenEvent>)
    ensures Pass(c, events).Ok? <==> NoneFails(c, events)
    ensures Pass(c, events).Err? ==> FirstFailure(c, events, Pass(c, events).error)
    decreases |events|
  {
    if events != [] {
      var n := |events| - 1;
      PassFailsAtFirstFailure(c, events[..n]);
      if Pass(c, events[..n]).Ok? {
        LastOutcome(c, events);
        LastDecides(c, events);
      } else {
        FirstFailureStays(c, events, n, Pass(c, events[..n]).error);
      }
    }
  }

  /** When no earlier event fails, the last one decides. */
  lemma LastDecides(c: Crypto, events: seq<SevenEvent>)
    requires events != [] && NoneFails(c, events[..|events| - 1])
    ensures var n := |events| - 1;
            && (NoneFails(c, events) <==> !Fails(c, events, n))
            && (Fails(c, events, n) ==> FirstFailure(c, events, EventFailed(n, FailureOf(c, events[n]))))
  {
    FailuresInPrefix(c, events, |events| - 1);
  }

  lemma FirstFailureStays(c: Crypto, events: seq<SevenEvent>, n: nat, error: ReplayError)
    requires n <= |events| && FirstFailure(c, events[..n], error)
    ensures FirstFailure(c, events, error) && !NoneFails(c, events)
  {
    FailuresInPrefix(c, events, n);
  }

  lemma LastOutcome(c: Crypto, events: seq<SevenEvent>)
    requires events != [] && Pass(c, events[..|events| - 1]).Ok?
    ensures var n := |events| - 1;
            && (Pass(c, events).Err? <==> Fails(c, events, n))
            && (Pass(c, events).Err? ==> Pass(c, events).error == EventFailed(n, FailureOf(c, events[n])))
  {
    var n := |events| - 1;
    PassComputes(c, events[..n]);
    if events[n].Observation? {
      ObservationOutcome(c, events, n);
    } else if events[n].DbRead? {
      ReadOutcome(events, n, events[n].key);
    }
  }

  // ------------------------------------------------------------------
  // The order of observations does not show
  // ------------------------------------------------------------------

  /** Events other than observations that change the maps or can fail. */
  predicate TouchesMaps(e: SevenEvent) {
    e.MessageSent? || e.TransportLoss? || e.NodeOnline? || e.NodeOffline? || e.DbWrite? || e.DbRead?
  }

  /** The log without observations and without the events that have no effect. */
  function Skeleton(events: seq<SevenEvent>): seq<SevenEvent> {
    if events == [] then []
    else
      var e := events[|events| - 1];
      Skeleton(events[..|events| - 1]) + if TouchesMaps(e) then [e] else []
  }

  /** Every read finds its key written before it. */
  predicate ReadsOk(events: seq<SevenEvent>) {
    events == []
    || (var (before, e) := (events[..|events| - 1], events[|events| - 1]);
        ReadsOk(before) && (e.DbRead? ==> e.key in MapsOf(before).db))
  }

  lemma {:induction false} SkeletonDecidesMaps(events: seq<SevenEvent>)
    ensures MapsOf(Skeleton(events)) == MapsOf(events)
    ensures ReadsOk(Skeleton(events)) == ReadsOk(events)
    decreases |events|
  {
    if events != [] {
      var (before, e) := (events[..|events| - 1], events[|events| - 1]);
      SkeletonDecidesMaps(before);
      if TouchesMaps(e) {
        assert Skeleton(events)[..|Skeleton(before)|] == Skeleton(before);
      } else {
        assert Skeleton(events) == Skeleton(before);
      }
    }
  }

  /** Every observation of the log verifies and decodes. */
  ghost predicate ValidObservations(c: Crypto, events: seq<SevenEvent>) {
    forall e :: e in Observed(events) ==> Verify(c, e).Ok? && Reading(e.payload).Some?
  }

  lemma {:induction false} OnlyReadsFail(c: Crypto, events: seq<SevenEvent>)
    requires ValidObservations(c, events)
    ensures Pass(c, events).Ok? <==> ReadsOk(events)
    decreases |events|
  {
    if events != [] {
      var (before, e) := (events[..|events| - 1], events[|events| - 1]);
      assert forall f :: f in Observed(before) ==> f in Observed(events);
      OnlyReadsFail(c, before);
      if Pass(c, before).Ok? {
        PassComputes(c, before);
        if e.Observation? {
          assert e.evidence in Observed(events);
        }
      }
    }
  }

  /**
   * Two logs with valid observations that agree on the other events with an
   * effect, and whose observations deliver the same set under consistent
   * readings, both fail or both succeed, and on success everything that the
   * state fingerprint reads is the same. So observations may be permuted,
   * repeated and moved, and events without effect erased.
   */
  lemma ObservationOrderDoesNotShow(c: Crypto, a: seq<SevenEvent>, b: seq<SevenEvent>)
    requires ValidObservations(c, a) && ValidObservations(c, b)
    requires Skeleton(a) == Skeleton(b)
    requires Consistent(c, Elements(Observed(a)) + Elements(Observed(b)))
    requires Delivered(c, Elements(Observed(a))) == Delivered(c, Elements(Observed(b)))
    ensures Pass(c, a).Ok? <==> Pass(c, b).Ok?
    ensures Pass(c, a).Ok? ==> FootprintOf(Pass(c, a).value) == FootprintOf(Pass(c, b).value)
  {
    SkeletonDecidesMaps(a);
    SkeletonDecidesMaps(b);
    OnlyReadsFail(c, a);
    OnlyReadsFail(c, b);
    if Pass(c, a).Ok? {
      PassComputes(c, a);
      PassComputes(c, b);
      EnginesConverge(c, Observed(a), Observed(b));
    }
  }
}
