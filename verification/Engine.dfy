/** seven-belief: the engine itself, updating its tracks in place, and its proof against `Belief.Step`. */
module Engine {
  import opened Basics
  import opened Core
  import opened Evidence
  import opened Gaussian
  import opened Belief

  /** One dimension of a track after a scalar measurement. */
  function UpdatedIn(t: Track, d: nat, z: real, r: real): Track
    requires d < 6 && r > 0.0
  {
    UpdatedVarIsPositive(t.variance[d], r);
    t.(mean := t.mean[d := UpdatedMean(t.mean[d], t.variance[d], z, r)],
       variance := t.variance[d := UpdatedVar(t.variance[d], r)],
       updates := t.updates + 1)
  }

  /** The arrays of a track live inside it, so they are sequence fields that `UpdateDim` reassigns. */
  class GaussianBelief {
    var mean: Vec6
    var variance: Vec6
    var independentUpdates: nat

    ghost predicate Valid()
      reads this
    {
      forall d :: 0 <= d < 6 ==> variance[d] > 0.0
    }

    function Value(): Track
      requires Valid()
      reads this
    {
      RawTrack.Track(mean, variance, independentUpdates)
    }

    constructor Uninformative()
      ensures Valid() && Value() == Belief.Uninformative()
    {
      mean := seq(6, _ => 0.0);
      variance := seq(6, _ => PRIOR_VAR);
      independentUpdates := 0;
    }

    /** Conjugate update of one dimension. */
    method UpdateDim(d: nat, measurement: real, measurementVar: real)
      requires Valid() && d < 6 && measurementVar > 0.0
      modifies this
      ensures Valid()
      ensures Value() == UpdatedIn(old(Value()), d, measurement, measurementVar)
    {
      ghost var target := UpdatedIn(Value(), d, measurement, measurementVar);
      UpdatedVarIsPositive(variance[d], measurementVar);
      var k := variance[d] / (variance[d] + measurementVar);
      mean := mean[d := mean[d] + k * (measurement - mean[d])];
      variance := variance[d := variance[d] * (1.0 - k)];
      independentUpdates := independentUpdates + 1;
      assert mean[d] == target.mean[d] && variance[d] == target.variance[d];
    }

    /** Updates all six dimensions with one reading. */
    method UpdateAll(z: Vec6)
      requires Valid()
      modifies this
      ensures Valid()
      ensures Value() == Absorb(old(Value()), z)
    {
      ghost var start := Value();
      ghost var target := Absorb(start, z);
      for d := 0 to 6
        invariant Valid()
        invariant independentUpdates == start.updates + d
        invariant forall i :: 0 <= i < d ==> mean[i] == target.mean[i] && variance[i] == target.variance[i]
        invariant forall i :: d <= i < 6 ==> mean[i] == start.mean[i] && variance[i] == start.variance[i]
      {
        UpdateDim(d, z[d], Noise(d));
      }
      assert mean == target.mean && variance == target.variance;
    }
  }

  lemma UpdatedTwice(tracks: map<string, Track>, subject: string, first: Track, second: Track)
    ensures tracks[subject := first][subject] == first
    ensures tracks[subject := first][subject := second] == tracks[subject := second]
  {
  }

  lemma Replaced(before: map<string, Track>, after: map<string, Track>, subject: string, track: Track)
    requires after.Keys == before.Keys && subject in after && after[subject] == track
    requires forall s :: s in before && s != subject ==> after[s] == before[s]
    ensures after == before[subject := track]
  {
  }

  /** The values of some tracks. */
  function ValuesOf(tracks: map<string, GaussianBelief>): map<string, Track>
    requires forall s :: s in tracks ==> tracks[s].Valid()
    reads tracks.Values
  {
    map s | s in tracks :: tracks[s].Value()
  }

  lemma ValuesOfMore(tracks: map<string, GaussianBelief>, subject: string, track: GaussianBelief)
    requires (forall s :: s in tracks ==> tracks[s].Valid()) && track.Valid()
    ensures ValuesOf(tracks[subject := track]) == ValuesOf(tracks)[subject := track.Value()]
  {
  }

  class BeliefEngine {
    const crypto: Crypto
    var tracks: map<string, GaussianBelief>
    var incorporated: map<string, set<Id32>>
    var conflicts: seq<Conflict>
    var last: map<string, Evidence>

    ghost var Repr: set<object>

    /** Every track is valid, and no two subjects share one. */
    ghost predicate Valid()
      reads this, Repr
      ensures Valid() ==> this in Repr
    {
      && this in Repr
      && (forall s :: s in tracks ==> tracks[s] in Repr && tracks[s].Valid())
      && (forall s, t :: s in tracks && t in tracks && s != t ==> tracks[s] != tracks[t])
    }

    function TrackValues(): map<string, Track>
      requires Valid()
      reads this, Repr
    {
      ValuesOf(tracks)
    }

    function View(): EngineState
      requires Valid()
      reads this, Repr
    {
      EngineState(TrackValues(), incorporated, conflicts, last)
    }

    constructor (c: Crypto)
      ensures Valid() && fresh(Repr)
      ensures crypto == c && View() == EMPTY
    {
      crypto := c;
      tracks, incorporated, conflicts, last := map[], map[], [], map[];
      Repr := {this};
    }

    /** Creates the track of a subject from the prior if there is none. */
    method EnsureTrack(subject: string)
      requires Valid()
      modifies this`tracks, this`Repr
      ensures Valid() && fresh(Repr - old(Repr)) && subject in tracks
      ensures TrackValues() == old(TrackValues())[subject := TrackOf(old(View()), subject)]
    {
      if subject !in tracks {
        var track := new GaussianBelief.Uninformative();
        AddTrack(subject, track);
      } else {
        assert TrackValues() == TrackValues()[subject := TrackValues()[subject]];
      }
    }

    /** Adds a track that shares no memory with the engine. */
    method AddTrack(subject: string, track: GaussianBelief)
      requires Valid() && track.Valid() && track !in Repr && subject !in tracks
      modifies this`tracks, this`Repr
      ensures Valid() && Repr == old(Repr) + {track} && subject in tracks
      ensures TrackValues() == old(TrackValues())[subject := track.Value()]
    {
      ValuesOfMore(tracks, subject, track);
      tracks := tracks[subject := track];
      Repr := Repr + {track};
    }

    /** Updates an existing track in place; the other tracks share no memory with it. */
    method UpdateTrack(subject: string, z: Vec6)
      requires Valid() && subject in tracks
      modifies tracks[subject]
      ensures Valid() && tracks == old(tracks) && Repr == old(Repr)
      ensures TrackValues() == old(TrackValues())[subject := Absorb(old(TrackValues()[subject]), z)]
    {
      ghost var before: map<string, Track> := TrackValues();
      var track := tracks[subject];
      assert forall s :: s in tracks && s != subject ==> tracks[s] != track;
      track.UpdateAll(z);
      assert forall s :: s in tracks && s != subject ==> tracks[s].Valid() && tracks[s].Value() == before[s];
      Replaced(before, TrackValues(), subject, Absorb(before[subject], z));
    }

    /** Updates the track of a subject, creating it first if there is none. */
    method AbsorbReading(subject: string, z: Vec6)
      requires Valid()
      modifies Repr
      ensures Valid() && fresh(Repr - old(Repr))
      ensures TrackValues() == old(TrackValues())[subject := Absorb(TrackOf(old(View()), subject), z)]
      ensures conflicts == old(conflicts) && last == old(last) && incorporated == old(incorporated)
    {
      ghost var before: map<string, Track> := TrackValues();
      ghost var start: Track := TrackOf(View(), subject);
      EnsureTrack(subject);
      UpdateTrack(subject, z);
      UpdatedTwice(before, subject, start, Absorb(start, z));
    }

    /** Records the observation id of verified evidence; tells whether it was new. */
    method RecordId(e: Evidence) returns (isNew: bool)
      requires Valid()
      modifies this`incorporated
      ensures Valid() && isNew == (e.observationId !in Seen(old(View()), e.subject))
      ensures View() == old(View()).(
                incorporated := old(incorporated)[e.subject := Seen(old(View()), e.subject) + {e.observationId}])
    {
      var seen := if e.subject in incorporated then incorporated[e.subject] else {};
      isNew := e.observationId !in seen;
      incorporated := incorporated[e.subject := seen + {e.observationId}];
    }

    /** Flags a conflict against the posterior before the update, and remembers the evidence. */
    method FlagConflict(e: Evidence, z: Vec6)
      requires Valid()
      modifies this`conflicts, this`last
      ensures Valid()
      ensures View() == old(View()).(
                conflicts := old(conflicts) + Flagged(old(View()), e, z), last := old(last)[e.subject := e])
    {
      assert e.subject in tracks ==> TrackValues()[e.subject] == tracks[e.subject].Value();
      var conflict := e.subject in tracks && Disagrees(tracks[e.subject].Value(), z);
      if conflict && e.subject in last {
        conflicts := conflicts + [Conflict(e.subject, last[e.subject], e)];
      }
      last := last[e.subject := e];
    }

    /**
     * Incorporates evidence: rejects what does not verify, ignores an id it has
     * recorded, flags a conflict against the posterior before the update, and
     * updates the track.
     */
    method Incorporate(e: Evidence) returns (r: Result<bool, BeliefError>)
      requires Valid()
      modifies Repr
      ensures Valid() && fresh(Repr - old(Repr))
      ensures (View(), r) == Step(crypto, old(View()), e)
    {
      var verdict := Verify(crypto, e);
      if verdict.Err? {
        return Err(UnverifiedEvidence(verdict.error));
      }
      var isNew := RecordId(e);
      if !isNew {
        return Ok(false);
      }
      var state := FromCanonicalBytes(e.payload);
      if state.Err? {
        return Err(NonFinite);
      }
      FlagConflict(e, Measurements(state.value));
      AbsorbReading(e.subject, Measurements(state.value));
      r := Ok(true);
    }
  }
}
