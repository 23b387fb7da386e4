/** seven-replay: messages, events and the append-only event log. */
module Events {
  import opened Basics
  import opened Evidence

  datatype SevenMessage = SevenMessage(
    id: string,
    from: string,
    to: string,
    canonicalPayload: Bytes,
    sentAtNanos: i64)

  datatype BeliefSnapshot = BeliefSnapshot(mean: seq<real>, variance: seq<real>, independentUpdates: nat)

  datatype SevenEvent =
    | Observation(evidence: Evidence)
    | MessageSent(envelope: SevenMessage)
    | MessageReceived(envelope: SevenMessage)
    | TransportLoss(messageId: string)
    | TransportDuplicate(messageId: string)
    | TransportReorder(fromIndex: nat, toIndex: nat)
    | NodeOnline(nodeId: string)
    | NodeOffline(nodeId: string)
    | DbWrite(key: string, valueHash: Id32)
    | DbRead(key: string, valueHash: Id32)
    | BeliefUpdate(subject: string, posterior: BeliefSnapshot)

  class EventLog {
    var events: seq<SevenEvent>

    constructor ()
      ensures events == []
    {
      events := [];
    }

    method Push(e: SevenEvent)
      modifies this
      ensures events == old(events) + [e]
    {
      events := events + [e];
    }
  }
}
