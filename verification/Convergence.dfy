/**
 * seven-belief: what the engine believes is a function of the set of readings it
 * was given, not of their order or multiplicity, exactly when evidence with one
 * observation id carries one reading.
 */
module Convergence {
  import opened Basics
  import opened Evidence
  import opened Gaussian
  import opened Belief

  // ------------------------------------------------------------------
  // The batch posterior of a set of readings
  // ------------------------------------------------------------------

  type ReadingMap = map<Id32, Option<Vec6>>

  /** The ids whose payload decoded. */
  function Decoded(m: ReadingMap): set<Id32> {
    set id | id in m && m[id].Some?
  }

  /** The sum of one dimension over a set of decoded ids. */
  ghost function SumOver(m: ReadingMap, ids: set<Id32>, d: int): real
    requires 0 <= d < 6 && ids <= Decoded(m)
  {
    if ids == {} then 0.0
    else
      var id :| id in ids;
      m[id].value[d] + SumOver(m, ids - {id}, d)
  }

  lemma {:induction false} SumOverRemoves(m: ReadingMap, ids: set<Id32>, id: Id32, d: int)
    requires 0 <= d < 6 && ids <= Decoded(m) && id in ids
    ensures SumOver(m, ids, d) == m[id].value[d] + SumOver(m, ids - {id}, d)
    decreases ids
  {
    var pick :| pick in ids && SumOver(m, ids, d) == m[pick].value[d] + SumOver(m, ids - {pick}, d);
    if pick != id {
      SumOverRemoves(m, ids - {pick}, id, d);
      SumOverRemoves(m, ids - {id}, pick, d);
      assert ids - {pick} - {id} == ids - {id} - {pick};
    }
  }

  lemma {:induction false} SumOverAgrees(m: ReadingMap, k: ReadingMap, ids: set<Id32>, d: int)
    requires 0 <= d < 6 && ids <= Decoded(m) && ids <= Decoded(k)
    requires forall id :: id in ids ==> m[id] == k[id]
    ensures SumOver(m, ids, d) == SumOver(k, ids, d)
    decreases ids
  {
    if ids != {} {
      var id :| id in ids;
      SumOverRemoves(m, ids, id, d);
      SumOverRemoves(k, ids, id, d);
      SumOverAgrees(m, k, ids - {id}, d);
    }
  }

  /** The posterior of a set of readings: it knows no order. */
  ghost function Batch(m: ReadingMap): Track {
    RawTrack.Track(
      seq(6, d requires 0 <= d < 6 => PosteriorMean(|Decoded(m)|, SumOver(m, Decoded(m), d), Noise(d))),
      seq(6, d requires 0 <= d < 6 => PosteriorVar(|Decoded(m)|, Noise(d))),
      6 * |Decoded(m)|)
  }

  /** Recording a new reading adds it to the batch if it decoded, and changes nothing otherwise. */
  lemma RecordingAdds(m: ReadingMap, id: Id32, reading: Option<Vec6>, d: int)
    requires 0 <= d < 6 && id !in m
    ensures var k := m[id := reading];
            && Decoded(k) == Decoded(m) + (if reading.Some? then {id} else {})
            && SumOver(k, Decoded(k), d)
            == SumOver(m, Decoded(m), d) + (if reading.Some? then reading.value[d] else 0.0)
  {
    var k := m[id := reading];
    assert Decoded(k) == Decoded(m) + (if reading.Some? then {id} else {});
    SumOverAgrees(k, m, Decoded(m), d);
    if reading.Some? {
      SumOverRemoves(k, Decoded(k), id, d);
      assert Decoded(k) - {id} == Decoded(m);
    } else {
      assert Decoded(k) == Decoded(m);
    }
  }

  /** Accepted evidence and decoded readings are the same observations, counted and summed alike. */
  lemma {:induction false} AcceptedAreDecoded(c: Crypto, es: seq<Evidence>, s: string, d: int)
    requires 0 <= d < 6
    ensures |Accepted(c, es, s)| == |Decoded(Readings(c, es, s))|
    ensures Sum(Column(Accepted(c, es, s), d)) == SumOver(Readings(c, es, s), Decoded(Readings(c, es, s)), d)
    decreases |es|
  {
    if es != [] {
      var (before, e) := (es[..|es| - 1], es[|es| - 1]);
      AcceptedAreDecoded(c, before, s, d);
      var m := Readings(c, before, s);
      if e.subject == s && Verify(c, e).Ok? && e.observationId !in m {
        RecordingAdds(m, e.observationId, Reading(e.payload), d);
        if Reading(e.payload).Some? {
          ColumnAppend(Accepted(c, before, s), e, d);
        } else {
          assert Decoded(m) + {} == Decoded(m);
        }
      }
    }
  }

  lemma PosteriorOfAcceptedIsBatch(c: Crypto, es: seq<Evidence>, s: string)
    ensures PosteriorOf(Accepted(c, es, s)) == Batch(Readings(c, es, s))
    ensures Accepted(c, es, s) == [] <==> Decoded(Readings(c, es, s)) == {}
  {
    var (p, b) := (PosteriorOf(Accepted(c, es, s)), Batch(Readings(c, es, s)));
    AcceptedAreDecoded(c, es, s, 0);
    forall d | 0 <= d < 6 ensures p.mean[d] == b.mean[d] && p.variance[d] == b.variance[d] {
      AcceptedAreDecoded(c, es, s, d);
    }
    assert p.mean == b.mean && p.variance == b.variance;
  }

  /**
   * The track of every subject is the batch posterior of its readings; a
   * subject is tracked when one of them decoded.
   */
  lemma RunIsBatch(c: Crypto, es: seq<Evidence>, s: string)
    ensures s in Run(c, es).tracks <==> Decoded(Readings(c, es, s)) != {}
    ensures s in Run(c, es).tracks ==> Run(c, es).tracks[s] == Batch(Readings(c, es, s))
    ensures Seen(Run(c, es), s) == Readings(c, es, s).Keys
  {
    RunDescribesSubject(c, es, s);
    PosteriorOfAcceptedIsBatch(c, es, s);
  }

  lemma EqualReadingsEqualTracks(c: Crypto, es: seq<Evidence>, fs: seq<Evidence>)
    requires forall s :: Readings(c, es, s) == Readings(c, fs, s)
    ensures Run(c, es).tracks == Run(c, fs).tracks
  {
    var (t, u) := (Run(c, es).tracks, Run(c, fs).tracks);
    forall s: string ensures s in t <==> s in u
                     ensures s in t ==> t[s] == u[s] {
      RunIsBatch(c, es, s);
      RunIsBatch(c, fs, s);
    }
  }

  // ------------------------------------------------------------------
  // Convergence
  // ------------------------------------------------------------------

  /** One observation of a subject has one reading. */
  ghost predicate Agree(c: Crypto, e: Evidence, f: Evidence) {
    Verify(c, e).Ok? && Verify(c, f).Ok? && e.subject == f.subject && e.observationId == f.observationId
    ==> Reading(e.payload) == Reading(f.payload)
  }

  ghost predicate Consistent(c: Crypto, es: set<Evidence>) {
    forall e, f :: e in es && f in es ==> Agree(c, e, f)
  }

  /** `e` would be recorded under this id of this subject. */
  predicate Records(c: Crypto, e: Evidence, s: string, id: Id32) {
    Verify(c, e).Ok? && e.subject == s && e.observationId == id
  }

  /** The subject and observation id of everything that verified. */
  function Delivered(c: Crypto, es: set<Evidence>): set<(string, Id32)> {
    set e | e in es && Verify(c, e).Ok? :: (e.subject, e.observationId)
  }

  /** Every recorded reading comes from some evidence, and every verified evidence is recorded. */
  lemma {:induction false} ReadingsComeFromEvidence(c: Crypto, es: seq<Evidence>, s: string, id: Id32)
    ensures id in Readings(c, es, s) ==>
              exists e :: e in es && Records(c, e, s, id) && Readings(c, es, s)[id] == Reading(e.payload)
    ensures (exists e :: e in es && Records(c, e, s, id)) ==> id in Readings(c, es, s)
    decreases |es|
  {
    if es != [] {
      ReadingsComeFromEvidence(c, es[..|es| - 1], s, id);
      assert es == es[..|es| - 1] + [es[|es| - 1]];
    }
  }

  lemma ReadingsDependOnSet(c: Crypto, es: seq<Evidence>, fs: seq<Evidence>, s: string)
    requires Consistent(c, Elements(es) + Elements(fs))
    requires Delivered(c, Elements(es)) == Delivered(c, Elements(fs))
    ensures Readings(c, es, s) == Readings(c, fs, s)
  {
    var (m, k) := (Readings(c, es, s), Readings(c, fs, s));
    forall id: Id32
      ensures id in m <==> id in k
      ensures id in m ==> m[id] == k[id]
    {
      SameReading(c, es, fs, s, id);
    }
  }

  lemma SameReading(c: Crypto, es: seq<Evidence>, fs: seq<Evidence>, s: string, id: Id32)
    requires Consistent(c, Elements(es) + Elements(fs))
    requires Delivered(c, Elements(es)) == Delivered(c, Elements(fs))
    ensures id in Readings(c, es, s) <==> id in Readings(c, fs, s)
    ensures id in Readings(c, es, s) ==> Readings(c, es, s)[id] == Readings(c, fs, s)[id]
  {
    DeliveredMeansRecorded(c, es, s, id);
    DeliveredMeansRecorded(c, fs, s, id);
    if id in Readings(c, es, s) {
      var (e, f) := (RecordedFrom(c, es, s, id), RecordedFrom(c, fs, s, id));
      assert e in Elements(es) + Elements(fs) && f in Elements(es) + Elements(fs);
      assert Agree(c, e, f);
    }
  }

  /** The evidence a recorded reading comes from. */
  ghost function RecordedFrom(c: Crypto, es: seq<Evidence>, s: string, id: Id32): (e: Evidence)
    requires id in Readings(c, es, s)
    ensures e in es && Records(c, e, s, id) && Readings(c, es, s)[id] == Reading(e.payload)
  {
    ReadingsComeFromEvidence(c, es, s, id);
    var e :| e in es && Records(c, e, s, id) && Readings(c, es, s)[id] == Reading(e.payload);
    e
  }

  lemma DeliveredMeansRecorded(c: Crypto, es: seq<Evidence>, s: string, id: Id32)
    ensures (s, id) in Delivered(c, Elements(es)) <==> id in Readings(c, es, s)
  {
    ReadingsComeFromEvidence(c, es, s, id);
    if id in Readings(c, es, s) {
      assert RecordedFrom(c, es, s, id) in Elements(es);
    }
  }

  /**
   * Two engines that receive the same observations, in any order and any
   * multiplicity, have the same tracks and have recorded the same ids.
   */
  lemma EnginesConverge(c: Crypto, es: seq<Evidence>, fs: seq<Evidence>)
    requires Consistent(c, Elements(es) + Elements(fs))
    requires Delivered(c, Elements(es)) == Delivered(c, Elements(fs))
    ensures Run(c, es).tracks == Run(c, fs).tracks
    ensures forall s :: Seen(Run(c, es), s) == Seen(Run(c, fs), s)
  {
    forall s ensures Readings(c, es, s) == Readings(c, fs, s) {
      ReadingsDependOnSet(c, es, fs, s);
    }
    EqualReadingsEqualTracks(c, es, fs);
    forall s ensures Seen(Run(c, es), s) == Seen(Run(c, fs), s) {
      RunIsBatch(c, es, s);
      RunIsBatch(c, fs, s);
    }
  }

  // ------------------------------------------------------------------
  // Exactly when the order is irrelevant
  // ------------------------------------------------------------------

  lemma PullFront<T>(es: seq<T>, e: T) returns (rest: seq<T>)
    requires e in es
    ensures multiset([e] + rest) == multiset(es)
  {
    var i :| 0 <= i < |es| && es[i] == e;
    rest := es[..i] + es[i + 1..];
    assert es == es[..i] + [e] + es[i + 1..];
  }

  /** Exchanging the first two evidences of an observation exchanges the reading recorded for it and nothing else. */
  lemma {:induction false} FirstReadingWins(
      c: Crypto, e: Evidence, f: Evidence, rest: seq<Evidence>, s: string, id: Id32)
    requires Records(c, e, s, id) && Records(c, f, s, id)
    ensures var (m, k) := (Readings(c, [e, f] + rest, s), Readings(c, [f, e] + rest, s));
            && id in m && m[id] == Reading(e.payload)
            && k == m[id := Reading(f.payload)]
    decreases |rest|
  {
    if rest == [] {
      ReadingsOfTwo(c, e, f, s);
      ReadingsOfTwo(c, f, e, s);
      assert [e, f] + rest == [e, f] && [f, e] + rest == [f, e];
    } else {
      var n := |rest| - 1;
      FirstReadingWins(c, e, f, rest[..n], s, id);
      var m := Readings(c, [e, f] + rest[..n], s);
      ExchangeSurvives(c, m, id, Reading(f.payload), rest[n], s);
      ReadingsAfter(c, [e, f], rest, s);
      ReadingsAfter(c, [f, e], rest, s);
    }
  }

  lemma ReadingsAfter(c: Crypto, first: seq<Evidence>, rest: seq<Evidence>, s: string)
    requires rest != []
    ensures var n := |rest| - 1;
            Readings(c, first + rest, s) == WithReading(c, Readings(c, first + rest[..n], s), rest[n], s)
  {
    assert (first + rest)[..|first + rest| - 1] == first + rest[..|rest| - 1];
  }

  lemma ExchangeSurvives(c: Crypto, m: ReadingMap, id: Id32, other: Option<Vec6>, e: Evidence, s: string)
    requires id in m
    ensures id in WithReading(c, m, e, s) && WithReading(c, m, e, s)[id] == m[id]
    ensures WithReading(c, m[id := other], e, s) == WithReading(c, m, e, s)[id := other]
  {
  }

  lemma ReadingsOfAppend(c: Crypto, es: seq<Evidence>, e: Evidence, s: string)
    ensures Readings(c, es + [e], s) == WithReading(c, Readings(c, es, s), e, s)
  {
    assert (es + [e])[..|es|] == es;
  }

  lemma ReadingsOfTwo(c: Crypto, e: Evidence, f: Evidence, s: string)
    ensures Readings(c, [e, f], s) == WithReading(c, WithReading(c, map[], e, s), f, s)
  {
    ReadingsOfAppend(c, [], e, s);
    ReadingsOfAppend(c, [e], f, s);
    assert [] + [e] == [e] && [e] + [f] == [e, f];
  }

  /** Sets of readings that differ in one reading have different posteriors. */
  lemma BatchSeparates(m: ReadingMap, k: ReadingMap, id: Id32)
    requires id in m && id in k && k == m[id := k[id]] && m[id] != k[id]
    ensures (Decoded(m) == {} <==> Decoded(k) != {}) || Batch(m) != Batch(k)
  {
    var others := Decoded(m) - {id};
    assert Decoded(k) - {id} == others;
    if m[id].None? {
      assert Decoded(k) == others + {id} && Decoded(m) == others;
    } else if k[id].None? {
      assert Decoded(m) == others + {id} && Decoded(k) == others;
    } else {
      var d := DifferingDimension(m[id].value, k[id].value);
      MeansDiffer(m, k, id, d);
    }
  }

  lemma MeansDiffer(m: ReadingMap, k: ReadingMap, id: Id32, d: int)
    requires 0 <= d < 6 && id in Decoded(m) && id in Decoded(k) && k == m[id := k[id]]
    requires m[id].value[d] != k[id].value[d]
    ensures Batch(m).mean[d] != Batch(k).mean[d]
  {
    var ids := Decoded(m);
    assert Decoded(k) == ids;
    SumOverRemoves(m, ids, id, d);
    SumOverRemoves(k, ids, id, d);
    SumOverAgrees(m, k, ids - {id}, d);
    MeansSeparate(|ids|, SumOver(m, ids, d), SumOver(k, ids, d), Noise(d));
  }

  lemma MeansSeparate(n: nat, x: real, y: real, r: real)
    requires r > 0.0 && x != y
    ensures PosteriorMean(n, x, r) != PosteriorMean(n, y, r)
  {
    PosteriorMeanEquation(n, x, r);
    PosteriorMeanEquation(n, y, r);
  }

  lemma DifferingDimension(x: Vec6, y: Vec6) returns (d: int)
    requires x != y
    ensures 0 <= d < 6 && x[d] != y[d]
  {
    d :| 0 <= d < 6 && x[d] != y[d];
  }

  lemma DisagreementShows(c: Crypto, e: Evidence, f: Evidence, rest: seq<Evidence>)
    requires !Agree(c, e, f)
    ensures Run(c, [e, f] + rest).tracks != Run(c, [f, e] + rest).tracks
  {
    var (s, id) := (e.subject, e.observationId);
    var (es, fs) := ([e, f] + rest, [f, e] + rest);
    FirstReadingWins(c, e, f, rest, s, id);
    RunIsBatch(c, es, s);
    RunIsBatch(c, fs, s);
    BatchSeparates(Readings(c, es, s), Readings(c, fs, s), id);
  }

  /**
   * The tracks of a run survive every rearrangement of its evidence exactly
   * when evidence with one observation id carries one reading. Verification
   * does not establish this: it never relates the observation id to the payload.
   */
  lemma OrderIrrelevantIffConsistent(c: Crypto, es: seq<Evidence>)
    ensures (forall fs :: multiset(fs) == multiset(es) ==> Run(c, fs).tracks == Run(c, es).tracks)
       <==> Consistent(c, Elements(es))
  {
    if Consistent(c, Elements(es)) {
      forall fs | multiset(fs) == multiset(es) ensures Run(c, fs).tracks == Run(c, es).tracks {
        RearrangementConverges(c, es, fs);
      }
    } else {
      var fs, gs := InconsistencyShows(c, es);
    }
  }

  lemma RearrangementConverges(c: Crypto, es: seq<Evidence>, fs: seq<Evidence>)
    requires Consistent(c, Elements(es)) && multiset(fs) == multiset(es)
    ensures Run(c, fs).tracks == Run(c, es).tracks
  {
    forall e ensures e in fs <==> e in es {
      assert (e in fs <==> e in multiset(fs)) && (e in es <==> e in multiset(es));
    }
    assert Elements(fs) == Elements(es) == Elements(fs) + Elements(es);
    EnginesConverge(c, fs, es);
  }

  lemma InconsistencyShows(c: Crypto, es: seq<Evidence>) returns (fs: seq<Evidence>, gs: seq<Evidence>)
    requires !Consistent(c, Elements(es))
    ensures multiset(fs) == multiset(gs) == multiset(es)
    ensures Run(c, fs).tracks != Run(c, gs).tracks
  {
    var e, f :| e in Elements(es) && f in Elements(es) && !Agree(c, e, f);
    var others := PullFront(es, e);
    assert f in multiset([e] + others);
    var rest := PullFront(others, f);
    RearrangedPairs(es, e, f, others, rest);
    DisagreementShows(c, e, f, rest);
    fs, gs := [e, f] + rest, [f, e] + rest;
  }

  lemma RearrangedPairs(es: seq<Evidence>, e: Evidence, f: Evidence, others: seq<Evidence>, rest: seq<Evidence>)
    requires multiset([e] + others) == multiset(es) && multiset([f] + rest) == multiset(others)
    ensures multiset([e, f] + rest) == multiset(es) && multiset([f, e] + rest) == multiset(es)
  {
    assert [e, f] + rest == [e] + ([f] + rest);
    assert multiset([e] + ([f] + rest)) == multiset{e} + multiset([f] + rest);
    assert multiset([f, e] + rest) == multiset{f, e} + multiset(rest);
  }

  /**
   * A second observation of the state space that shares the id of a first one
   * but not its reading makes the order matter.
   */
  lemma SharedIdMakesOrderMatter(c: Crypto, a: Origin, b: Origin)
    requires SoundSigning(c) && a.subject == b.subject
    requires Measurements(a.state) != Measurements(b.state)
    ensures var (e, f) := (Originate(c, a), Originate(c, b).(observationId := Originate(c, a).observationId));
            && Verify(c, e).Ok? && Verify(c, f).Ok?
            && Run(c, [e, f]).tracks != Run(c, [f, e]).tracks
  {
    var (e, f) := (Originate(c, a), Originate(c, b).(observationId := Originate(c, a).observationId));
    MintVerifies(c, Shipment(a, []));
    MintVerifies(c, Shipment(b, []));
    DisagreementShows(c, e, f, []);
    assert [e, f] + [] == [e, f] && [f, e] + [] == [f, e];
  }
}
