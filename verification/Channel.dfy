/** seven-sim: the lossy channel, and the fault log as a complete account of what it did. */
module Channel {
  import opened Basics
  import opened Rng
  import opened Events
  import opened Sim

  /** The constant mixed into the seed of the draw that decides whether to shuffle. */
  const REORDER_TAG: Seed := 0x0052_454f_5244_4552

  function FaultEvents(fate: Fate, id: string): seq<SevenEvent> {
    match fate
    case Lost => [TransportLoss(id)]
    case Duplicated => [TransportDuplicate(id)]
    case Single => []
  }

  /** What arrives of a stream when each message meets its fate. */
  function Arriving(ms: seq<SevenMessage>, fates: seq<Fate>): seq<SevenMessage>
    requires |ms| == |fates|
  {
    if ms == [] then [] else Copies(fates[0], ms[0]) + Arriving(ms[1..], fates[1..])
  }

  /** The events logged when each message meets its fate. */
  function Logged(ms: seq<SevenMessage>, fates: seq<Fate>): seq<SevenEvent>
    requires |ms| == |fates|
  {
    if ms == [] then [] else FaultEvents(fates[0], ms[0].id) + Logged(ms[1..], fates[1..])
  }

  /** The events that a sent stream appends to the log. */
  function Appended(ms: seq<SevenMessage>, fates: seq<Fate>, shuffled: bool, draws: seq<nat>): seq<SevenEvent>
    requires |ms| == |fates| && |draws| == Top(|Arriving(ms, fates)|)
  {
    Logged(ms, fates) + (if shuffled then SwapEvents(Top(|Arriving(ms, fates)|), draws) else [])
  }

  /** What a sent stream returns. */
  function Returned(ms: seq<SevenMessage>, fates: seq<Fate>, shuffled: bool, draws: seq<nat>): seq<SevenMessage>
    requires |ms| == |fates| && |draws| == Top(|Arriving(ms, fates)|)
    requires forall k :: 0 <= k < |draws| ==> draws[k] <= |draws| - k
  {
    if shuffled then Shuffle(Arriving(ms, fates), Top(|Arriving(ms, fates)|), draws) else Arriving(ms, fates)
  }

  lemma ArrivingOfNext(ms: seq<SevenMessage>, fates: seq<Fate>, i: nat)
    requires |ms| == |fates| && i < |ms|
    ensures Arriving(ms[..i + 1], fates[..i + 1]) == Arriving(ms[..i], fates[..i]) + Copies(fates[i], ms[i])
    ensures Logged(ms[..i + 1], fates[..i + 1]) == Logged(ms[..i], fates[..i]) + FaultEvents(fates[i], ms[i].id)
  {
    ArrivingAppend(ms[..i], fates[..i], ms[i], fates[i]);
    assert ms[..i + 1] == ms[..i] + [ms[i]] && fates[..i + 1] == fates[..i] + [fates[i]];
  }

  lemma AppendedTwice(before: seq<SevenEvent>, ms: seq<SevenMessage>, fates: seq<Fate>, shuffled: bool, draws: seq<nat>)
    requires |ms| == |fates| && |draws| == Top(|Arriving(ms, fates)|)
    ensures before + Appended(ms, fates, shuffled, draws)
         == before + Logged(ms, fates) + (if shuffled then SwapEvents(Top(|Arriving(ms, fates)|), draws) else [])
  {
  }

  datatype LossyChannel = LossyChannel(seed: Seed, lossP: real, dupP: real, reorderP: real) {

    /** The fate of the message with this sequence number. */
    function Fate(rng: Oracle, sequence: Seed): Fate {
      FateOf(rng, Xor(seed, sequence), lossP, dupP)
    }

    function Fates(rng: Oracle, base: Seed, count: nat): (fates: seq<Fate>)
      ensures |fates| == count
    {
      seq(count, i requires 0 <= i < count => Fate(rng, WrappingAdd(base, i)))
    }

    /** The stream is shuffled when it has two messages or more and the reorder draw says so. */
    predicate Reorders(rng: Oracle, base: Seed, count: nat) {
      count > 1 && rng.unit(Xor(Xor(seed, base), REORDER_TAG), 0) < reorderP
    }

    /** Sends one message: nothing, one copy or two arrive, and a fault is logged. */
    method Send(rng: Oracle, m: SevenMessage, log: EventLog, sequence: Seed) returns (arrivals: seq<SevenMessage>)
      modifies log
      ensures arrivals == Copies(Fate(rng, sequence), m)
      ensures log.events == old(log.events) + FaultEvents(Fate(rng, sequence), m.id)
      ensures var (loss, dup) := (rng.unit(Xor(seed, sequence), 0), rng.unit(Xor(seed, sequence), 1));
              if loss < lossP then arrivals == [] && log.events == old(log.events) + [TransportLoss(m.id)]
              else if dup < dupP then arrivals == [m, m] && log.events == old(log.events) + [TransportDuplicate(m.id)]
              else arrivals == [m] && log.events == old(log.events)
    {
      if rng.unit(Xor(seed, sequence), 0) < lossP {
        log.Push(TransportLoss(m.id));
        return [];
      }
      if rng.unit(Xor(seed, sequence), 1) < dupP {
        log.Push(TransportDuplicate(m.id));
        return [m, m];
      }
      assert log.events + [] == log.events;
      return [m];
    }

    /** Sends the messages one by one, numbering them from `base`. */
    method SendEach(rng: Oracle, ms: seq<SevenMessage>, log: EventLog, base: Seed) returns (arrivals: seq<SevenMessage>)
      modifies log
      ensures arrivals == Arriving(ms, Fates(rng, base, |ms|))
      ensures log.events == old(log.events) + Logged(ms, Fates(rng, base, |ms|))
    {
      arrivals := [];
      ghost var fates := Fates(rng, base, |ms|);
      for i := 0 to |ms|
        invariant arrivals == Arriving(ms[..i], fates[..i])
        invariant log.events == old(log.events) + Logged(ms[..i], fates[..i])
      {
        var copies := Send(rng, ms[i], log, WrappingAdd(base, i));
        ArrivingOfNext(ms, fates, i);
        arrivals := arrivals + copies;
      }
      assert ms[..|ms|] == ms && fates[..|ms|] == fates;
    }

    /** The draws of the shuffle of `count` arrivals. */
    function ShuffleDraws(rng: Oracle, base: Seed, count: nat): (draws: seq<nat>)
      ensures |draws| == Top(count)
    {
      Draws(rng, Xor(seed, base), [], Top(count))
    }

    /** Shuffles the arrivals of a stream if the reorder draw says so. */
    method MaybeReorder(
        rng: Oracle, arrived: seq<SevenMessage>, log: EventLog, base: Seed) returns (arrivals: seq<SevenMessage>)
      requires Bounded(rng)
      modifies log
      ensures Choices(Top(|arrived|), ShuffleDraws(rng, base, |arrived|))
      ensures arrivals == if Reorders(rng, base, |arrived|)
                          then Shuffle(arrived, Top(|arrived|), ShuffleDraws(rng, base, |arrived|)) else arrived
      ensures log.events == old(log.events)
                            + if Reorders(rng, base, |arrived|)
                              then SwapEvents(Top(|arrived|), ShuffleDraws(rng, base, |arrived|)) else []
    {
      arrivals := arrived;
      DrawsAreChoices(rng, Xor(seed, base), [], Top(|arrived|));
      if |arrived| > 1 {
        if rng.unit(Xor(Xor(seed, base), REORDER_TAG), 0) < reorderP {
          var stream := new SevenMessage[|arrived|](i requires 0 <= i < |arrived| => arrived[i]);
          assert stream[..] == arrived;
          ReorderInPlace(rng, Xor(seed, base), log, stream);
          return stream[..];
        }
      }
      assert log.events + [] == log.events;
    }

    /** Sends a whole stream, then possibly shuffles what arrived. */
    method SendStream(
        rng: Oracle, ms: seq<SevenMessage>, log: EventLog, base: Seed) returns (arrivals: seq<SevenMessage>)
      requires Bounded(rng)
      modifies log
      ensures var fates := Fates(rng, base, |ms|);
              var count := |Arriving(ms, fates)|;
              var shuffled := Reorders(rng, base, count);
              && Choices(Top(count), ShuffleDraws(rng, base, count))
              && arrivals == Returned(ms, fates, shuffled, ShuffleDraws(rng, base, count))
              && log.events == old(log.events) + Appended(ms, fates, shuffled, ShuffleDraws(rng, base, count))
    {
      ghost var before := log.events;
      var arrived := SendEach(rng, ms, log, base);
      arrivals := MaybeReorder(rng, arrived, log, base);
      AppendedTwice(before, ms, Fates(rng, base, |ms|),
                    Reorders(rng, base, |arrived|), ShuffleDraws(rng, base, |arrived|));
    }
  }

  // ------------------------------------------------------------------
  // What the probabilities decide for whole streams
  // ------------------------------------------------------------------

  /** A stream that is sent in two parts, the second numbered on, meets the same fates. */
  lemma FatesSplit(ch: LossyChannel, rng: Oracle, base: Seed, m: nat, n: nat)
    ensures ch.Fates(rng, base, m + n) == ch.Fates(rng, base, m) + ch.Fates(rng, WrappingAdd(base, m), n)
  {
    forall i | 0 <= i < n ensures WrappingAdd(base, m + i) == WrappingAdd(WrappingAdd(base, m), i) {
      WrappingTwice(base, m, i);
    }
  }

  lemma WrappingTwice(base: Seed, m: nat, i: nat)
    ensures WrappingAdd(base, m + i) == WrappingAdd(WrappingAdd(base, m), i)
  {
    var (q, r) := ((base + m) / U64_LIMIT, (base + m) % U64_LIMIT);
    assert base + m + i == (r + i) + q * U64_LIMIT;
    WrapShift(r + i, q);
  }

  /** Whole turns do not show. */
  lemma {:induction false} WrapShift(x: nat, q: nat)
    ensures (x + q * U64_LIMIT) % U64_LIMIT == x % U64_LIMIT
    decreases q
  {
    if q > 0 {
      WrapShift(x, q - 1);
      WrapOnce(x + (q - 1) * U64_LIMIT);
      assert x + q * U64_LIMIT == x + (q - 1) * U64_LIMIT + U64_LIMIT;
    }
  }

  lemma WrapOnce(x: nat)
    ensures (x + U64_LIMIT) % U64_LIMIT == x % U64_LIMIT
  {
  }

  /** The fate of message `i` is lost, duplicated or single as the draws seeded with its own number decide. */
  lemma FatesByDraws(ch: LossyChannel, rng: Oracle, base: Seed, count: nat, i: nat)
    requires i < count
    ensures var seed := Xor(ch.seed, WrappingAdd(base, i)); var fate := ch.Fates(rng, base, count)[i];
            && (fate.Lost? <==> rng.unit(seed, 0) < ch.lossP)
            && (fate.Duplicated? <==> rng.unit(seed, 0) >= ch.lossP && rng.unit(seed, 1) < ch.dupP)
  {
  }

  lemma {:induction false} SingleFates(ms: seq<SevenMessage>, fates: seq<Fate>)
    requires |ms| == |fates| && forall i :: 0 <= i < |fates| ==> fates[i].Single?
    ensures Arriving(ms, fates) == ms && Logged(ms, fates) == []
    decreases |ms|
  {
    if ms != [] {
      SingleFates(ms[1..], fates[1..]);
      assert [ms[0]] + ms[1..] == ms;
    }
  }

  /** With all probabilities zero, a stream arrives as it was sent and nothing is logged. */
  lemma PerfectChannel(ch: LossyChannel, rng: Oracle, ms: seq<SevenMessage>, base: Seed)
    requires UnitDraws(rng) && ch.lossP == 0.0 && ch.dupP == 0.0 && ch.reorderP == 0.0
    ensures var fates := ch.Fates(rng, base, |ms|);
            && Arriving(ms, fates) == ms && Logged(ms, fates) == [] && !ch.Reorders(rng, base, |ms|)
            && forall draws :: |draws| == Top(|ms|) && Choices(Top(|ms|), draws) ==>
                 && Returned(ms, fates, ch.Reorders(rng, base, |ms|), draws) == ms
                 && Appended(ms, fates, ch.Reorders(rng, base, |ms|), draws) == []
  {
    var fates := ch.Fates(rng, base, |ms|);
    forall i | 0 <= i < |fates| ensures fates[i].Single? {
      FatesByDraws(ch, rng, base, |ms|, i);
    }
    SingleFates(ms, fates);
  }

  /** With certain loss nothing arrives and every message is logged as lost. */
  lemma {:induction false} LostFates(ms: seq<SevenMessage>, fates: seq<Fate>)
    requires |ms| == |fates| && forall i :: 0 <= i < |fates| ==> fates[i].Lost?
    ensures Arriving(ms, fates) == []
    ensures |Logged(ms, fates)| == |ms| && forall i :: 0 <= i < |ms| ==> Logged(ms, fates)[i] == TransportLoss(ms[i].id)
    decreases |ms|
  {
    if ms != [] {
      LostFates(ms[1..], fates[1..]);
    }
  }

  lemma DeadChannel(ch: LossyChannel, rng: Oracle, ms: seq<SevenMessage>, base: Seed)
    requires UnitDraws(rng) && ch.lossP == 1.0
    ensures var fates := ch.Fates(rng, base, |ms|);
            && Arriving(ms, fates) == [] && |Logged(ms, fates)| == |ms|
            && forall i :: 0 <= i < |ms| ==> Logged(ms, fates)[i] == TransportLoss(ms[i].id)
  {
    forall i | 0 <= i < |ms| ensures ch.Fates(rng, base, |ms|)[i].Lost? {
      FatesByDraws(ch, rng, base, |ms|, i);
    }
    LostFates(ms, ch.Fates(rng, base, |ms|));
  }

  /** Two or more arrivals are shuffled exactly when their own draw is below the reorder probability. */
  lemma ReordersByDraw(ch: LossyChannel, rng: Oracle, base: Seed, count: nat)
    ensures ch.Reorders(rng, base, count)
       <==> count >= 2 && rng.unit(Xor(Xor(ch.seed, base), 0x0052_454f_5244_4552), 0) < ch.reorderP
    ensures UnitDraws(rng) && ch.reorderP == 0.0 ==> !ch.Reorders(rng, base, count)
    ensures UnitDraws(rng) && ch.reorderP == 1.0 ==> (ch.Reorders(rng, base, count) <==> count >= 2)
  {
  }

  lemma {:induction false} ArrivingAppend(ms: seq<SevenMessage>, fates: seq<Fate>, m: SevenMessage, fate: Fate)
    requires |ms| == |fates|
    ensures Arriving(ms + [m], fates + [fate]) == Arriving(ms, fates) + Copies(fate, m)
    ensures Logged(ms + [m], fates + [fate]) == Logged(ms, fates) + FaultEvents(fate, m.id)
    decreases |ms|
  {
    if ms == [] {
      assert ms + [m] == [m] && fates + [fate] == [fate];
      assert Arriving([m], [fate]) == Copies(fate, m) + [];
      assert Logged([m], [fate]) == FaultEvents(fate, m.id) + [];
    } else {
      ArrivingAppend(ms[1..], fates[1..], m, fate);
      assert (ms + [m])[1..] == ms[1..] + [m] && (fates + [fate])[1..] == fates[1..] + [fate];
      assert Copies(fates[0], ms[0]) + (Arriving(ms[1..], fates[1..]) + Copies(fate, m))
          == Copies(fates[0], ms[0]) + Arriving(ms[1..], fates[1..]) + Copies(fate, m);
      assert FaultEvents(fates[0], ms[0].id) + (Logged(ms[1..], fates[1..]) + FaultEvents(fate, m.id))
          == FaultEvents(fates[0], ms[0].id) + Logged(ms[1..], fates[1..]) + FaultEvents(fate, m.id);
    }
  }

  // ------------------------------------------------------------------
  // Reading the log
  // ------------------------------------------------------------------

  function LossCount(events: seq<SevenEvent>): nat {
    if events == [] then 0 else (if events[0].TransportLoss? then 1 else 0) + LossCount(events[1..])
  }

  function DuplicateCount(events: seq<SevenEvent>): nat {
    if events == [] then 0 else (if events[0].TransportDuplicate? then 1 else 0) + DuplicateCount(events[1..])
  }

  /** The arrivals before shuffling, read off the log: lost ids dropped, duplicated ids doubled. */
  function Expanded(ms: seq<SevenMessage>, events: seq<SevenEvent>): seq<SevenMessage> {
    if ms == [] then []
    else
      (if TransportLoss(ms[0].id) in events then []
       else if TransportDuplicate(ms[0].id) in events then [ms[0], ms[0]]
       else [ms[0]])
      + Expanded(ms[1..], events)
  }

  /** Applies one logged swap. */
  function ApplySwap(s: seq<SevenMessage>, e: SevenEvent): seq<SevenMessage> {
    if e.TransportReorder? && e.fromIndex < |s| && e.toIndex < |s| then Swap(s, e.fromIndex, e.toIndex) else s
  }

  /** Applies the logged swaps in log order. */
  function ApplySwaps(s: seq<SevenMessage>, events: seq<SevenEvent>): seq<SevenMessage>
    decreases events
  {
    if events == [] then s else ApplySwaps(ApplySwap(s, events[0]), events[1..])
  }

  /** Applies the logged swaps in reverse order. */
  function UndoSwaps(s: seq<SevenMessage>, events: seq<SevenEvent>): seq<SevenMessage> {
    if events == [] then s else ApplySwap(UndoSwaps(s, events[1..]), events[0])
  }

  /** The swaps come after all other faults, with strictly decreasing sources, each moving to a lower position. */
  ghost predicate OrderedSwaps(events: seq<SevenEvent>) {
    && (forall k :: 0 <= k < |events| && events[k].TransportReorder? ==> events[k].toIndex < events[k].fromIndex)
    && (forall k, l :: 0 <= k < l < |events| && events[k].TransportReorder? ==>
          events[l].TransportReorder? && events[l].fromIndex < events[k].fromIndex)
  }

  ghost predicate DistinctIds(ms: seq<SevenMessage>) {
    forall i, j :: 0 <= i < j < |ms| ==> ms[i].id != ms[j].id
  }

  predicate NoSwaps(events: seq<SevenEvent>) {
    forall e :: e in events ==> !e.TransportReorder?
  }

  predicate OnlySwaps(events: seq<SevenEvent>) {
    forall e :: e in events ==> e.TransportReorder?
  }

  // ------------------------------------------------------------------
  // The log is a complete account
  // ------------------------------------------------------------------

  lemma {:induction false} LoggedMeansFaulty(ms: seq<SevenMessage>, fates: seq<Fate>, id: string)
    requires |ms| == |fates|
    ensures NoSwaps(Logged(ms, fates))
    ensures TransportLoss(id) in Logged(ms, fates) <==> exists i :: 0 <= i < |ms| && ms[i].id == id && fates[i].Lost?
    ensures TransportDuplicate(id) in Logged(ms, fates)
       <==> exists i :: 0 <= i < |ms| && ms[i].id == id && fates[i].Duplicated?
    decreases |ms|
  {
    if ms != [] {
      LoggedMeansFaulty(ms[1..], fates[1..], id);
      assert forall i :: 0 < i < |ms| ==> ms[i] == ms[1..][i - 1] && fates[i] == fates[1..][i - 1];
      assert forall i :: 0 <= i < |ms[1..]| ==> ms[1..][i] == ms[i + 1] && fates[1..][i] == fates[i + 1];
    }
  }

  lemma {:induction false} LoggedOfSuffix(ms: seq<SevenMessage>, fates: seq<Fate>, events: seq<SevenEvent>)
    requires |ms| == |fates|
    requires forall i :: 0 <= i < |ms| ==> (TransportLoss(ms[i].id) in events <==> fates[i].Lost?)
    requires forall i :: 0 <= i < |ms| ==> (TransportDuplicate(ms[i].id) in events <==> fates[i].Duplicated?)
    ensures Expanded(ms, events) == Arriving(ms, fates)
    decreases |ms|
  {
    if ms != [] {
      LoggedOfSuffix(ms[1..], fates[1..], events);
    }
  }

  /** With distinct ids, the fault events determine what arrived. */
  lemma ArrivalsFromLog(ms: seq<SevenMessage>, fates: seq<Fate>, swaps: seq<SevenEvent>)
    requires |ms| == |fates| && DistinctIds(ms) && OnlySwaps(swaps)
    ensures Expanded(ms, Logged(ms, fates) + swaps) == Arriving(ms, fates)
  {
    forall i | 0 <= i < |ms|
      ensures TransportLoss(ms[i].id) in Logged(ms, fates) <==> fates[i].Lost?
      ensures TransportDuplicate(ms[i].id) in Logged(ms, fates) <==> fates[i].Duplicated?
    {
      LoggedMeansFaulty(ms, fates, ms[i].id);
    }
    LoggedOfSuffix(ms, fates, Logged(ms, fates) + swaps);
  }

  lemma {:induction false} Conservation(ms: seq<SevenMessage>, fates: seq<Fate>)
    requires |ms| == |fates|
    ensures |Arriving(ms, fates)| + LossCount(Logged(ms, fates)) == |ms| + DuplicateCount(Logged(ms, fates))
    decreases |ms|
  {
    if ms != [] {
      Conservation(ms[1..], fates[1..]);
      CountsAppend(FaultEvents(fates[0], ms[0].id), Logged(ms[1..], fates[1..]));
    }
  }

  lemma {:induction false} CountsAppend(a: seq<SevenEvent>, b: seq<SevenEvent>)
    ensures LossCount(a + b) == LossCount(a) + LossCount(b)
    ensures DuplicateCount(a + b) == DuplicateCount(a) + DuplicateCount(b)
    decreases |a|
  {
    if a == [] {
      assert a + b == b;
    } else {
      CountsAppend(a[1..], b);
      assert (a + b)[1..] == a[1..] + b;
    }
  }

  lemma {:induction false} SwapsDoNotCount(events: seq<SevenEvent>)
    requires OnlySwaps(events)
    ensures LossCount(events) == DuplicateCount(events) == 0
    decreases |events|
  {
    if events != [] {
      assert events[0] in events;
      SwapsDoNotCount(events[1..]);
    }
  }

  lemma {:induction false} ApplySwapsAppend(s: seq<SevenMessage>, a: seq<SevenEvent>, b: seq<SevenEvent>)
    requires NoSwaps(a)
    ensures ApplySwaps(s, a + b) == ApplySwaps(s, b)
    ensures UndoSwaps(s, a + b) == UndoSwaps(s, b)
    decreases a
  {
    if a == [] {
      assert a + b == b;
    } else {
      assert (a + b)[1..] == a[1..] + b && a[0] in a;
      ApplySwapsAppend(s, a[1..], b);
    }
  }

  lemma SwapTwice<T>(s: seq<T>, i: nat, j: nat)
    requires i < |s| && j < |s|
    ensures Swap(Swap(s, i, j), i, j) == s
    ensures Swap(s, i, i) == s
  {
  }

  /** The logged swaps are the shuffle, and undoing them in reverse undoes it. */
  lemma {:induction false} SwapsReplayShuffle(s: seq<SevenMessage>, i: nat, draws: seq<nat>)
    requires (i == 0 || i < |s|) && Choices(i, draws)
    ensures ApplySwaps(s, SwapEvents(i, draws)) == Shuffle(s, i, draws)
    ensures UndoSwaps(Shuffle(s, i, draws), SwapEvents(i, draws)) == s
    decreases i
  {
    if i > 0 {
      var next := Swap(s, i, draws[0]);
      SwapsReplayShuffle(next, i - 1, draws[1..]);
      SwapTwice(s, i, draws[0]);
      var rest := SwapEvents(i - 1, draws[1..]);
      if draws[0] == i {
        assert [] + rest == rest;
      } else {
        OneSwap(s, TransportReorder(i, draws[0]), rest, Shuffle(next, i - 1, draws[1..]));
      }
    }
  }

  lemma OneSwap(s: seq<SevenMessage>, e: SevenEvent, rest: seq<SevenEvent>, t: seq<SevenMessage>)
    ensures ApplySwaps(s, [e] + rest) == ApplySwaps(ApplySwap(s, e), rest)
    ensures UndoSwaps(t, [e] + rest) == ApplySwap(UndoSwaps(t, rest), e)
  {
    assert ([e] + rest)[1..] == rest;
  }

  lemma {:induction false} SwapsAreOrdered(i: nat, draws: seq<nat>)
    requires Choices(i, draws)
    ensures OnlySwaps(SwapEvents(i, draws)) && OrderedSwaps(SwapEvents(i, draws))
    ensures forall e :: e in SwapEvents(i, draws) ==> e.fromIndex <= i
    decreases i
  {
    if i > 0 {
      SwapsAreOrdered(i - 1, draws[1..]);
      var rest := SwapEvents(i - 1, draws[1..]);
      if draws[0] == i {
        assert [] + rest == rest;
      } else {
        PrependSwap(TransportReorder(i, draws[0]), rest);
      }
    }
  }

  lemma PrependSwap(e: SevenEvent, rest: seq<SevenEvent>)
    requires OnlySwaps(rest) && OrderedSwaps(rest)
    requires e.TransportReorder? && e.toIndex < e.fromIndex
    requires forall f :: f in rest ==> f.fromIndex < e.fromIndex
    ensures OnlySwaps([e] + rest) && OrderedSwaps([e] + rest)
  {
    var events := [e] + rest;
    forall k | 1 <= k < |events| ensures events[k] == rest[k - 1] && events[k] in rest {
    }
  }

  /**
   * Whatever the fates and draws, the appended events are a complete account of
   * the transfer. Arrivals, losses and duplicates balance, the swaps are in
   * order, undoing them gives the stream before shuffling, and with distinct
   * ids the arrivals are recomputed from the input and the events alone.
   */
  lemma LogIsCompleteAccount(ms: seq<SevenMessage>, fates: seq<Fate>, shuffled: bool, draws: seq<nat>)
    requires |ms| == |fates| && Choices(Top(|Arriving(ms, fates)|), draws)
    ensures var events := Appended(ms, fates, shuffled, draws);
            var arrivals := Returned(ms, fates, shuffled, draws);
            && |arrivals| + LossCount(events) == |ms| + DuplicateCount(events)
            && OrderedSwaps(events)
            && UndoSwaps(arrivals, events) == Arriving(ms, fates)
            && multiset(arrivals) == multiset(Arriving(ms, fates))
            && (DistinctIds(ms) ==> ApplySwaps(Expanded(ms, events), events) == arrivals)
  {
    var (arrived, faults) := (Arriving(ms, fates), Logged(ms, fates));
    var swaps := if shuffled then SwapEvents(Top(|arrived|), draws) else [];
    SwapsReplayShuffle(arrived, Top(|arrived|), draws);
    SwapsAreOrdered(Top(|arrived|), draws);
    ShufflePermutes(arrived, Top(|arrived|), draws);
    var arrivals := Returned(ms, fates, shuffled, draws);
    LoggedMeansFaulty(ms, fates, "");
    Conservation(ms, fates);
    CountsAppend(faults, swaps);
    SwapsDoNotCount(swaps);
    ApplySwapsAppend(arrived, faults, swaps);
    ApplySwapsAppend(arrivals, faults, swaps);
    OrderedAfterFaults(faults, swaps);
    if DistinctIds(ms) {
      ArrivalsFromLog(ms, fates, swaps);
    }
  }

  lemma OrderedAfterFaults(faults: seq<SevenEvent>, swaps: seq<SevenEvent>)
    requires NoSwaps(faults) && OrderedSwaps(swaps)
    ensures OrderedSwaps(faults + swaps)
  {
    var events := faults + swaps;
    assert forall k :: 0 <= k < |faults| ==> events[k] in faults;
  }
}
