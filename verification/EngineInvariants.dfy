/** seven-belief: what every engine state satisfies, after any run with any errors in it. */
module EngineInvariants {
  import opened Basics
  import opened Core
  import opened Evidence
  import opened Belief
  import opened Convergence

  /** How many elements of the run were accepted, over all subjects. */
  function AcceptedTotal(c: Crypto, es: seq<Evidence>): nat {
    if es == [] then 0
    else
      var (before, e) := (es[..|es| - 1], es[|es| - 1]);
      AcceptedTotal(c, before) + if Accepts(c, Readings(c, before, e.subject), e, e.subject) then 1 else 0
  }

  /** `a` and `b` are neighbours in the list. */
  ghost predicate Consecutive(list: seq<Evidence>, a: Evidence, b: Evidence) {
    exists i :: 0 <= i < |list| - 1 && list[i] == a && list[i + 1] == b
  }

  lemma ConsecutiveAppend(list: seq<Evidence>, e: Evidence, a: Evidence, b: Evidence)
    ensures Consecutive(list, a, b) ==> Consecutive(list + [e], a, b)
    ensures list != [] ==> Consecutive(list + [e], list[|list| - 1], e)
  {
    if i :| 0 <= i < |list| - 1 && list[i] == a && list[i + 1] == b {
      assert (list + [e])[i] == a && (list + [e])[i + 1] == b;
    }
    if list != [] {
      var i := |list| - 1;
      assert (list + [e])[i] == list[i] && (list + [e])[i + 1] == e;
    }
  }

  /** Every conflict pairs two consecutive accepted evidences of its subject. */
  lemma {:induction false} ConflictsAreConsecutive(c: Crypto, es: seq<Evidence>)
    ensures forall k :: k in Run(c, es).conflicts ==>
              Consecutive(Accepted(c, es, k.subject), k.previous, k.current)
    decreases |es|
  {
    RunHasConflicts(c, es);
    if es != [] {
      var (before, e) := (es[..|es| - 1], es[|es| - 1]);
      ConflictsAreConsecutive(c, before);
      RunHasConflicts(c, before);
      forall k | k in Run(c, es).conflicts
        ensures Consecutive(Accepted(c, es, k.subject), k.previous, k.current)
      {
        ConsecutiveAppend(Accepted(c, before, k.subject), e, k.previous, k.current);
      }
    }
  }

  /** Conflicts are fewer than the accepted evidences that were not the first of their subject. */
  lemma {:induction false} ConflictsAreBounded(c: Crypto, es: seq<Evidence>)
    ensures |Run(c, es).conflicts| + |Run(c, es).tracks| <= AcceptedTotal(c, es)
    decreases |es|
  {
    if es != [] {
      var (before, e) := (es[..|es| - 1], es[|es| - 1]);
      ConflictsAreBounded(c, before);
      RunDescribesSubject(c, before, e.subject);
      RunDescribesSubject(c, es, e.subject);
      var (t, u) := (Run(c, before).tracks, Run(c, es).tracks);
      if e.subject !in t && e.subject in u {
        assert u.Keys == t.Keys + {e.subject};
        assert |u| == |u.Keys| && |t| == |t.Keys|;
      } else {
        assert u.Keys == t.Keys;
        assert |u| == |u.Keys| && |t| == |t.Keys|;
      }
    }
  }

  /** The recorded ids of a subject whose payload did not decode. */
  function Undecoded(m: ReadingMap): set<Id32> {
    set id | id in m && m[id].None?
  }

  /**
   * The invariant of every run. Tracked subjects are the ones with a last
   * evidence, and all of them have recorded ids; the accepted evidences of a
   * subject are as many as its recorded ids less those that did not decode, and
   * the track counts six updates for each of them.
   */
  lemma RunInvariant(c: Crypto, es: seq<Evidence>)
    ensures var st := Run(c, es);
            && st.tracks.Keys == st.last.Keys <= st.incorporated.Keys
            && forall s ::
                 && |Accepted(c, es, s)| == |Seen(st, s)| - |Undecoded(Readings(c, es, s))|
                 && (s in st.tracks ==> st.tracks[s].updates == 6 * |Accepted(c, es, s)|)
  {
    var st := Run(c, es);
    forall s: string
      ensures s in st.tracks <==> s in st.last
      ensures s in st.tracks ==> s in st.incorporated
      ensures |Accepted(c, es, s)| == |Seen(st, s)| - |Undecoded(Readings(c, es, s))|
      ensures s in st.tracks ==> st.tracks[s].updates == 6 * |Accepted(c, es, s)|
    {
      RunCounts(c, es, s);
    }
  }

  /** The part of the invariant that concerns one subject. */
  ghost predicate SubjectCounts(c: Crypto, es: seq<Evidence>, st: EngineState, s: string) {
    && (s in st.tracks <==> s in st.last) && (s in st.tracks ==> s in st.incorporated)
    && |Accepted(c, es, s)| == |Seen(st, s)| - |Undecoded(Readings(c, es, s))|
    && (s in st.tracks ==> st.tracks[s].updates == 6 * |Accepted(c, es, s)|)
  }

  lemma RunCounts(c: Crypto, es: seq<Evidence>, s: string)
    ensures SubjectCounts(c, es, Run(c, es), s)
  {
    RunDescribesSubject(c, es, s);
    AcceptedAreDecoded(c, es, s, 0);
    var m := Readings(c, es, s);
    assert m.Keys == Decoded(m) + Undecoded(m) && Decoded(m) !! Undecoded(m);
  }

  /**
   * Evidence that does not verify, and verified evidence whose id is recorded,
   * change nothing at all. Evidence that does not decode only records its id.
   */
  lemma FailuresChangeNothing(c: Crypto, st: EngineState, e: Evidence)
    ensures var (next, r) := Step(c, st, e);
            && (Verify(c, e).Err? || e.observationId in Seen(st, e.subject) ==> next == st && r != Ok(true))
            && (r == Err(NonFinite) ==>
                  && next.tracks == st.tracks && next.conflicts == st.conflicts && next.last == st.last
                  && Seen(next, e.subject) == Seen(st, e.subject) + {e.observationId})
            && (forall s :: s != e.subject ==> Seen(next, s) == Seen(st, s))
    ensures var r := Step(c, st, e).1;
            && (Verify(c, e).Err? ==> r == Err(UnverifiedEvidence(Verify(c, e).error)))
            && (r.Err? && r.error.UnverifiedEvidence? ==> Verify(c, e).Err?)
            && (r == Err(NonFinite)
                <==> Verify(c, e).Ok? && e.observationId !in Seen(st, e.subject) && FromCanonicalBytes(e.payload).Err?)
            && (r == Ok(false) <==> Verify(c, e).Ok? && e.observationId in Seen(st, e.subject))
            && (r == Ok(true)
                <==> Verify(c, e).Ok? && e.observationId !in Seen(st, e.subject) && FromCanonicalBytes(e.payload).Ok?)
  {
    if Verify(c, e).Ok? && e.observationId in Seen(st, e.subject) {
      var seen := Seen(st, e.subject);
      assert seen + {e.observationId} == seen;
      assert st.incorporated[e.subject := seen] == st.incorporated;
    }
  }

  /**
   * Once evidence that verifies has been given to the engine, whether or not
   * its payload decoded, every later evidence of the same observation is a
   * duplicate that changes nothing; an observation that was never given is not.
   */
  lemma ObservationCountsOnce(c: Crypto, es: seq<Evidence>, f: Evidence)
    requires Verify(c, f).Ok?
    ensures Step(c, Run(c, es), f) == (Run(c, es), Ok(false))
       <==> exists e :: e in es && Records(c, e, f.subject, f.observationId)
  {
    ReadingsComeFromEvidence(c, es, f.subject, f.observationId);
    RunDescribesSubject(c, es, f.subject);
    FailuresChangeNothing(c, Run(c, es), f);
  }
}
