/** seven-sim: the fault-injecting channel and its logged Fisher-Yates shuffle. */
module Sim {
  import opened Basics
  import opened Rng
  import opened Events

  // ------------------------------------------------------------------
  // The shuffle
  // ------------------------------------------------------------------

  function Swap<T>(s: seq<T>, i: nat, j: nat): (r: seq<T>)
    requires i < |s| && j < |s|
    ensures |r| == |s|
  {
    s[i := s[j]][j := s[i]]
  }

  /** The index that the shuffle of `n` elements starts from; its first draw is for this index. */
  function Top(n: nat): nat {
    if n == 0 then 0 else n - 1
  }

  /** One draw for each index from `i` down to 1, none above its index. */
  ghost predicate Choices(i: nat, draws: seq<nat>) {
    |draws| == i && forall k :: 0 <= k < i ==> draws[k] <= i - k
  }

  /** Fisher-Yates from index `i` downwards, with the given draws. */
  function Shuffle<T>(s: seq<T>, i: nat, draws: seq<nat>): (r: seq<T>)
    requires (i == 0 || i < |s|) && |draws| == i
    requires forall k :: 0 <= k < i ==> draws[k] <= i - k
    ensures |r| == |s|
    decreases i
  {
    if i == 0 then s else Shuffle(Swap(s, i, draws[0]), i - 1, draws[1..])
  }

  /** The events logged by the shuffle: one for every swap that moves something. */
  function SwapEvents(i: nat, draws: seq<nat>): seq<SevenEvent>
    requires |draws| == i
  {
    if i == 0 then []
    else (if draws[0] != i then [TransportReorder(i, draws[0])] else []) + SwapEvents(i - 1, draws[1..])
  }

  /** The draws of a generator that has already drawn with the bounds `history`, for the indices from `i` down to 1. */
  function Draws(rng: Oracle, seed: Seed, history: seq<nat>, i: nat): (draws: seq<nat>)
    ensures |draws| == i
    decreases i
  {
    if i == 0 then []
    else [rng.below(seed, history + [i])] + Draws(rng, seed, history + [i], i - 1)
  }

  lemma {:induction false} DrawsAreChoices(rng: Oracle, seed: Seed, history: seq<nat>, i: nat)
    requires Bounded(rng)
    ensures Choices(i, Draws(rng, seed, history, i))
    decreases i
  {
    if i > 0 {
      DrawsAreChoices(rng, seed, history + [i], i - 1);
      assert rng.below(seed, history + [i]) <= (history + [i])[|history|];
    }
  }

  /** The position of the last draw in a history of bounds that count down. */
  function Replayed(draws: seq<nat>, bounds: seq<nat>): nat {
    if bounds != [] && |bounds| <= |draws| && draws[|bounds| - 1] <= bounds[|bounds| - 1]
    then draws[|bounds| - 1] else 0
  }

  /** Whatever the choices, some generator with bounded draws makes them: no permutation is out of reach of the loop. */
  lemma EveryChoiceIsDrawn(seed: Seed, i: nat, draws: seq<nat>)
    requires Choices(i, draws)
    ensures exists rng: Oracle :: Bounded(rng) && UnitDraws(rng) && Draws(rng, seed, [], i) == draws
  {
    var rng := Oracle((_, _) => 0.0, (_, bounds) => Replayed(draws, bounds));
    assert Bounded(rng) && UnitDraws(rng);
    ReplayedDraws(rng, seed, draws, [], i);
    assert draws[0..] == draws;
  }

  lemma {:induction false} ReplayedDraws(rng: Oracle, seed: Seed, draws: seq<nat>, history: seq<nat>, i: nat)
    requires forall bounds: seq<nat> :: rng.below(seed, bounds) == Replayed(draws, bounds)
    requires |history| + i == |draws| && Choices(|draws|, draws)
    ensures Draws(rng, seed, history, i) == draws[|history|..]
    decreases i
  {
    if i > 0 {
      ReplayedDraws(rng, seed, draws, history + [i], i - 1);
      assert draws[|history|..] == [draws[|history|]] + draws[|history| + 1..];
    }
  }

  /** Shuffles the stream in place and logs every swap. */
  method ReorderInPlace(rng: Oracle, seed: Seed, log: EventLog, stream: array<SevenMessage>)
    requires Bounded(rng)
    modifies log, stream
    ensures var draws := Draws(rng, seed, [], Top(stream.Length));
            && Choices(Top(stream.Length), draws)
            && stream[..] == Shuffle(old(stream[..]), Top(stream.Length), draws)
            && log.events == old(log.events) + SwapEvents(Top(stream.Length), draws)
  {
    var history: seq<nat> := [];
    var i: nat := Top(stream.Length);
    DrawsAreChoices(rng, seed, [], i);
    ghost var draws := Draws(rng, seed, [], i);
    ghost var (target, events) := (Shuffle(stream[..], i, draws), log.events + SwapEvents(i, draws));
    while i > 0
      invariant i == 0 || i < stream.Length
      invariant draws == Draws(rng, seed, history, i) && Choices(i, draws)
      invariant Shuffle(stream[..], i, draws) == target
      invariant log.events + SwapEvents(i, draws) == events
    {
      history := history + [i];
      var j := rng.below(seed, history);
      assert j == draws[0];
      DrawsAreChoices(rng, seed, history, i - 1);
      ghost var (before, logged) := (stream[..], log.events);
      if i != j {
        stream[i], stream[j] := stream[j], stream[i];
        log.Push(TransportReorder(i, j));
      }
      assert stream[..] == Swap(before, i, j);
      FirstSwapEvent(logged, i, draws);
      draws := draws[1..];
      i := i - 1;
    }
    assert log.events + [] == log.events;
  }

  lemma FirstSwapEvent(logged: seq<SevenEvent>, i: nat, draws: seq<nat>)
    requires i > 0 && |draws| == i
    ensures var now := if draws[0] != i then logged + [TransportReorder(i, draws[0])] else logged;
            logged + SwapEvents(i, draws) == now + SwapEvents(i - 1, draws[1..])
  {
  }

  // ------------------------------------------------------------------
  // The shuffle is a bijection between choices and permutations
  // ------------------------------------------------------------------

  lemma SwapKeepsMultiset<T>(s: seq<T>, i: nat, j: nat)
    requires i < |s| && j < |s|
    ensures multiset(Swap(s, i, j)) == multiset(s)
  {
  }

  lemma SwapKeepsDistinct<T>(s: seq<T>, i: nat, j: nat)
    requires i < |s| && j < |s| && Distinct(s)
    ensures Distinct(Swap(s, i, j))
  {
  }

  /** The shuffle from `i` is a permutation that leaves every position above `i` alone. */
  lemma {:induction false} ShufflePermutes<T>(s: seq<T>, i: nat, draws: seq<nat>)
    requires (i == 0 || i < |s|) && Choices(i, draws)
    ensures multiset(Shuffle(s, i, draws)) == multiset(s)
    ensures forall k :: i < k < |s| ==> Shuffle(s, i, draws)[k] == s[k]
    decreases i
  {
    if i > 0 {
      SwapKeepsMultiset(s, i, draws[0]);
      ShufflePermutes(Swap(s, i, draws[0]), i - 1, draws[1..]);
    }
  }

  /** The first draw decides the element at the top index for good. */
  lemma FirstDrawIsVisible<T>(s: seq<T>, i: nat, draws: seq<nat>)
    requires 0 < i < |s| && Choices(i, draws)
    ensures Shuffle(s, i, draws)[i] == s[draws[0]]
  {
    ShufflePermutes(Swap(s, i, draws[0]), i - 1, draws[1..]);
  }

  /** On distinct elements, different choices give different results. */
  lemma {:induction false} ShuffleIsInjective<T>(s: seq<T>, i: nat, a: seq<nat>, b: seq<nat>)
    requires (i == 0 || i < |s|) && Choices(i, a) && Choices(i, b) && Distinct(s)
    requires Shuffle(s, i, a) == Shuffle(s, i, b)
    ensures a == b
    decreases i
  {
    if i > 0 {
      FirstDrawIsVisible(s, i, a);
      FirstDrawIsVisible(s, i, b);
      assert a[0] == b[0];
      SwapKeepsDistinct(s, i, a[0]);
      ShuffleIsInjective(Swap(s, i, a[0]), i - 1, a[1..], b[1..]);
      assert a == [a[0]] + a[1..] && b == [b[0]] + b[1..];
    }
  }

  /** Every rearrangement of the first `i + 1` elements is reached by some choices. */
  lemma {:induction false} ShuffleReaches<T>(s: seq<T>, t: seq<T>, i: nat) returns (draws: seq<nat>)
    requires (i == 0 || i < |s|) && multiset(s) == multiset(t) && |s| == |t|
    requires forall k :: i < k < |s| ==> s[k] == t[k]
    ensures Choices(i, draws) && Shuffle(s, i, draws) == t
    decreases i
  {
    if i == 0 {
      draws := [];
      if s != [] {
        assert s[1..] == t[1..] && s == [s[0]] + s[1..] && t == [t[0]] + t[1..];
        assert multiset(s) == multiset{s[0]} + multiset(s[1..]);
        assert multiset(t) == multiset{t[0]} + multiset(s[1..]);
        Cancel(multiset{s[0]}, multiset{t[0]}, multiset(s[1..]));
        assert s[0] in multiset{t[0]};
      }
      assert s == t;
    } else {
      var j := FindInPrefix(s, t, i);
      SwapKeepsMultiset(s, i, j);
      var rest := ShuffleReaches(Swap(s, i, j), t, i - 1);
      draws := [j] + rest;
      assert draws[1..] == rest;
    }
  }

  lemma Cancel<T>(a: multiset<T>, b: multiset<T>, common: multiset<T>)
    requires a + common == b + common
    ensures a == b
  {
    forall x ensures a[x] == b[x] {
      assert (a + common)[x] == (b + common)[x];
    }
  }

  /** Sequences that agree above `i` and are rearrangements of each other are rearrangements of each other up to `i`. */
  lemma FindInPrefix<T>(s: seq<T>, t: seq<T>, i: nat) returns (j: nat)
    requires i < |s| == |t| && multiset(s) == multiset(t)
    requires forall k :: i < k < |s| ==> s[k] == t[k]
    ensures j <= i && s[j] == t[i]
  {
    assert s == s[..i + 1] + s[i + 1..] && t == t[..i + 1] + t[i + 1..] && s[i + 1..] == t[i + 1..];
    Cancel(multiset(s[..i + 1]), multiset(t[..i + 1]), multiset(s[i + 1..]));
    assert t[i] in multiset(t[..i + 1]) by {
      assert t[..i + 1][i] == t[i];
    }
    assert t[i] in s[..i + 1];
    j :| 0 <= j < |s[..i + 1]| && s[..i + 1][j] == t[i];
  }

  /**
   * On a stream of distinct elements the choices are in bijection with the
   * permutations: exactly the rearrangements of the stream are reached, each
   * by one vector of choices.
   */
  lemma ShuffleIsBijection<T>(s: seq<T>, t: seq<T>)
    requires Distinct(s)
    ensures multiset(t) == multiset(s)
       <==> exists draws :: Choices(Top(|s|), draws) && Shuffle(s, Top(|s|), draws) == t
    ensures forall a, b | Choices(Top(|s|), a) && Choices(Top(|s|), b) ::
              Shuffle(s, Top(|s|), a) == t && Shuffle(s, Top(|s|), b) == t ==> a == b
  {
    if multiset(t) == multiset(s) {
      assert |multiset(t)| == |t| && |multiset(s)| == |s|;
      var draws := ShuffleReaches(s, t, Top(|s|));
    }
    forall draws | Choices(Top(|s|), draws) && Shuffle(s, Top(|s|), draws) == t ensures multiset(t) == multiset(s) {
      ShufflePermutes(s, Top(|s|), draws);
    }
    forall a, b | Choices(Top(|s|), a) && Choices(Top(|s|), b)
               && Shuffle(s, Top(|s|), a) == t && Shuffle(s, Top(|s|), b) == t ensures a == b {
      ShuffleIsInjective(s, Top(|s|), a, b);
    }
  }

  /** Every permutation of a stream is what the loop makes of it for some generator with bounded draws. */
  lemma EveryPermutationIsDrawn<T>(seed: Seed, s: seq<T>, t: seq<T>)
    requires multiset(t) == multiset(s)
    ensures exists rng: Oracle ::
              && Bounded(rng) && Choices(Top(|s|), Draws(rng, seed, [], Top(|s|)))
              && Shuffle(s, Top(|s|), Draws(rng, seed, [], Top(|s|))) == t
  {
    assert |multiset(t)| == |t| && |multiset(s)| == |s|;
    var draws := ShuffleReaches(s, t, Top(|s|));
    EveryChoiceIsDrawn(seed, Top(|s|), draws);
  }
}
