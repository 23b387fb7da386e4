/**
 * seven-replay and seven-sim together: the log of a lossy transfer, replayed,
 * ends with exactly the messages that arrived.
 */
module ReplayedChannel {
  import opened Evidence
  import opened Rng
  import opened Events
  import opened Sim
  import opened Channel
  import opened Replay

  /** The log of sending these messages. */
  function Sends(ms: seq<SevenMessage>): (events: seq<SevenEvent>)
    ensures |events| == |ms|
  {
    seq(|ms|, i requires 0 <= i < |ms| => MessageSent(ms[i]))
  }

  /** What the channel appends are losses, duplications and swaps. */
  lemma {:induction false} FaultsAreFaults(ms: seq<SevenMessage>, fates: seq<Fate>)
    requires |ms| == |fates|
    ensures forall e :: e in Logged(ms, fates) ==> e.TransportLoss? || e.TransportDuplicate?
    decreases |ms|
  {
    if ms != [] {
      FaultsAreFaults(ms[1..], fates[1..]);
    }
  }

  lemma AppendedAreFaults(ms: seq<SevenMessage>, fates: seq<Fate>, shuffled: bool, draws: seq<nat>)
    requires |ms| == |fates| && Choices(Top(|Arriving(ms, fates)|), draws)
    ensures var events := Appended(ms, fates, shuffled, draws);
            && (forall e :: e in events ==> e.TransportLoss? || e.TransportDuplicate? || e.TransportReorder?)
            && (forall id :: TransportLoss(id) in events <==> TransportLoss(id) in Logged(ms, fates))
  {
    FaultsAreFaults(ms, fates);
    SwapsAreOrdered(Top(|Arriving(ms, fates)|), draws);
  }

  /** A message arrives exactly when it was sent and not lost. */
  lemma {:induction false} ArrivingAreUnlost(ms: seq<SevenMessage>, fates: seq<Fate>, m: SevenMessage)
    requires |ms| == |fates|
    ensures m in Arriving(ms, fates) <==> exists i :: 0 <= i < |ms| && ms[i] == m && !fates[i].Lost?
    decreases |ms|
  {
    if ms != [] {
      ArrivingAreUnlost(ms[1..], fates[1..], m);
      assert forall i :: 0 < i < |ms| ==> ms[i] == ms[1..][i - 1] && fates[i] == fates[1..][i - 1];
      assert forall i :: 0 <= i < |ms[1..]| ==> ms[1..][i] == ms[i + 1] && fates[1..][i] == fates[i + 1];
    }
  }

  lemma ReturnedAreUnlost(ms: seq<SevenMessage>, fates: seq<Fate>, shuffled: bool, draws: seq<nat>, m: SevenMessage)
    requires |ms| == |fates| && Choices(Top(|Arriving(ms, fates)|), draws)
    ensures m in Returned(ms, fates, shuffled, draws)
       <==> exists i :: 0 <= i < |ms| && ms[i] == m && !fates[i].Lost?
  {
    var arrived := Arriving(ms, fates);
    ShufflePermutes(arrived, Top(|arrived|), draws);
    ArrivingAreUnlost(ms, fates, m);
    var returned := Returned(ms, fates, shuffled, draws);
    assert m in returned <==> m in multiset(returned);
    assert m in arrived <==> m in multiset(arrived);
  }

  /** Messages with distinct ids are followed by events that send nothing and lose what the fates say. */
  ghost predicate Settles(ms: seq<SevenMessage>, fates: seq<Fate>, tail: seq<SevenEvent>)
    requires |ms| == |fates|
  {
    && DistinctIds(ms)
    && (forall e :: e in tail ==> !e.MessageSent?)
    && (forall id :: TransportLoss(id) in tail <==> TransportLoss(id) in Logged(ms, fates))
  }

  lemma LostIsNotLastSend(ms: seq<SevenMessage>, fates: seq<Fate>, tail: seq<SevenEvent>, i: nat)
    requires |ms| == |fates| && Settles(ms, fates, tail) && i < |ms| && fates[i].Lost?
    ensures !LastSend(Sends(ms) + tail, i, ms[i].id)
  {
    var (log, id) := (Sends(ms) + tail, ms[i].id);
    LoggedMeansFaulty(ms, fates, id);
    LaterLossHides(Sends(ms), tail, i, id);
  }

  lemma LaterLossHides(sends: seq<SevenEvent>, tail: seq<SevenEvent>, i: nat, id: string)
    requires i < |sends| && TransportLoss(id) in tail
    ensures !LastSend(sends + tail, i, id)
  {
    var k :| 0 <= k < |tail| && tail[k] == TransportLoss(id);
    assert (sends + tail)[|sends| + k] == TransportLoss(id);
    assert ConcernsMessage((sends + tail)[|sends| + k], id);
  }

  lemma UnlostIsLastSend(ms: seq<SevenMessage>, fates: seq<Fate>, tail: seq<SevenEvent>, i: nat)
    requires |ms| == |fates| && Settles(ms, fates, tail) && i < |ms| && !fates[i].Lost?
    ensures LastSend(Sends(ms) + tail, i, ms[i].id)
  {
    var (log, id) := (Sends(ms) + tail, ms[i].id);
    assert log[i] == MessageSent(ms[i]);
    assert TransportLoss(id) !in tail by {
      LoggedMeansFaulty(ms, fates, id);
    }
    forall l | i < l < |log| ensures !ConcernsMessage(log[l], id) {
      if l < |ms| {
        assert log[l] == MessageSent(ms[l]);
      } else {
        assert log[l] == tail[l - |ms|] && log[l] in tail;
      }
    }
  }

  /** The message that a last send in the log keeps was sent and not lost. */
  lemma LastSendIsASend(
      ms: seq<SevenMessage>, fates: seq<Fate>, tail: seq<SevenEvent>, k: int, id: string)
    requires |ms| == |fates| && Settles(ms, fates, tail)
    requires LastSend(Sends(ms) + tail, k, id)
    ensures k < |ms| && ms[k].id == id && !fates[k].Lost?
  {
    var log := Sends(ms) + tail;
    assert forall l :: |ms| <= l < |log| ==> log[l] in tail;
    assert log[k] == MessageSent(ms[k]);
    if fates[k].Lost? {
      LostIsNotLastSend(ms, fates, tail, k);
    }
  }

  lemma NothingFails(c: Crypto, log: seq<SevenEvent>)
    requires forall e :: e in log ==> !e.DbRead? && !e.Observation?
    ensures Pass(c, log).Ok?
  {
    PassFailsAtFirstFailure(c, log);
    assert forall i :: 0 <= i < |log| ==> log[i] in log;
  }

  /**
   * Replaying the sends of messages with distinct ids and then what the channel
   * logged succeeds, and the messages seen at the end are exactly those that
   * arrived, each under its own id.
   */
  lemma ReplayedTransfer(
      c: Crypto, ms: seq<SevenMessage>, fates: seq<Fate>, shuffled: bool, draws: seq<nat>, m: SevenMessage)
    requires |ms| == |fates| && DistinctIds(ms) && Choices(Top(|Arriving(ms, fates)|), draws)
    ensures var log := Sends(ms) + Appended(ms, fates, shuffled, draws);
            && Pass(c, log).Ok?
            && var seen := Pass(c, log).value.maps.seen;
               && (m in Returned(ms, fates, shuffled, draws) <==> m.id in seen && seen[m.id] == m)
               && (m.id in seen ==> seen[m.id].id == m.id)
  {
    var tail := Appended(ms, fates, shuffled, draws);
    var log := Sends(ms) + tail;
    AppendedAreFaults(ms, fates, shuffled, draws);
    NothingFails(c, log);
    PassComputes(c, log);
    SeenIsLastSend(log, m.id);
    ReturnedAreUnlost(ms, fates, shuffled, draws, m);
    if m.id in MapsOf(log).seen {
      var k :| LastSend(log, k, m.id);
      LastSendIsASend(ms, fates, tail, k, m.id);
      assert log[k] == MessageSent(ms[k]);
    }
    forall i | 0 <= i < |ms| && ms[i] == m && !fates[i].Lost? ensures LastSend(log, i, m.id) {
      UnlostIsLastSend(ms, fates, tail, i);
    }
  }
}
