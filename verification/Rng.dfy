/** Seeded random draws as an oracle: the same seed and history give the same draw. */
module Rng {
  import opened Basics

  /** A `u64` word. */
  type Seed = x: nat | x < U64_LIMIT

  /** Bitwise exclusive or on words of `bits` bits. */
  function XorBits(a: nat, b: nat, bits: nat): (x: nat) {
    if bits == 0 then 0
    else (a % 2 + b % 2) % 2 + 2 * XorBits(a / 2, b / 2, bits - 1)
  }

  function Xor(a: Seed, b: Seed): Seed {
    XorBits(a, b, 64) % U64_LIMIT
  }

  /** Bit `k` of a word, counted from the lowest. */
  function Bit(a: nat, k: nat): nat {
    if k == 0 then a % 2 else Bit(a / 2, k - 1)
  }

  lemma {:induction false} XorBitsFit(a: nat, b: nat, bits: nat, limit: nat)
    requires limit == Limit(bits)
    ensures XorBits(a, b, bits) < limit
    decreases bits
  {
    if bits > 0 {
      XorBitsFit(a / 2, b / 2, bits - 1, Limit(bits - 1));
    }
  }

  /** The number of words of `bits` bits. */
  function Limit(bits: nat): nat {
    if bits == 0 then 1 else 2 * Limit(bits - 1)
  }

  lemma LimitOf64()
    ensures Limit(64) == U64_LIMIT
  {
    assert Limit(2) == 4 && Limit(4) == 16;
    LimitOfTwice(4, 16);
    LimitOfTwice(8, 0x100);
    LimitOfTwice(16, 0x1_0000);
    LimitOfTwice(32, 0x1_0000_0000);
  }

  lemma LimitOfTwice(bits: nat, limit: nat)
    requires Limit(bits) == limit
    ensures Limit(2 * bits) == limit * limit
  {
    LimitOfSum(bits, bits);
  }

  lemma {:induction false} LimitOfSum(a: nat, b: nat)
    ensures Limit(a + b) == Limit(a) * Limit(b)
    decreases a
  {
    if a > 0 {
      LimitOfSum(a - 1, b);
      assert Limit(a + b) == 2 * (Limit(a - 1) * Limit(b));
    }
  }

  lemma {:induction false} XorBitsAreBitwise(a: nat, b: nat, bits: nat, k: nat)
    requires k < bits
    ensures Bit(XorBits(a, b, bits), k) == (Bit(a, k) + Bit(b, k)) % 2
    decreases bits
  {
    if k > 0 {
      XorBitsAreBitwise(a / 2, b / 2, bits - 1, k - 1);
    }
  }

  /** Every bit of an exclusive or is one exactly when the two bits differ. */
  lemma XorIsBitwise(a: Seed, b: Seed, k: nat)
    requires k < 64
    ensures Bit(Xor(a, b), k) == if Bit(a, k) == Bit(b, k) then 0 else 1
  {
    LimitOf64();
    XorBitsFit(a, b, 64, U64_LIMIT);
    XorBitsAreBitwise(a, b, 64, k);
    BitIsBit(a, k);
    BitIsBit(b, k);
    SumOfBits(Bit(a, k), Bit(b, k));
  }

  lemma SumOfBits(x: nat, y: nat)
    requires x < 2 && y < 2
    ensures (x + y) % 2 == if x == y then 0 else 1
  {
  }

  lemma BitIsBit(a: nat, k: nat)
    ensures Bit(a, k) < 2
    decreases k
  {
    if k > 0 {
      BitIsBit(a / 2, k - 1);
    }
  }

  /** Addition wraps around, as it does in a release build. */
  function WrappingAdd(a: Seed, i: nat): Seed {
    (a + i) % U64_LIMIT
  }

  /**
   * `unit(seed, k)` is the `k`-th draw from [0, 1) of a generator seeded with
   * `seed`. `below(seed, bounds)` is the last of the integer draws whose
   * inclusive upper bounds were `bounds`, in that order.
   */
  datatype Oracle = Oracle(unit: (Seed, nat) -> real, below: (Seed, seq<nat>) -> nat)

  /** Integer draws stay within their bound. */
  ghost predicate Bounded(rng: Oracle) {
    forall seed: Seed, bounds: seq<nat> :: bounds != [] ==> rng.below(seed, bounds) <= bounds[|bounds| - 1]
  }

  /** Unit draws are in [0, 1). */
  ghost predicate UnitDraws(rng: Oracle) {
    forall seed: Seed, k: nat :: 0.0 <= rng.unit(seed, k) < 1.0
  }

  /** What a lossy link does to one message. */
  datatype Fate = Lost | Duplicated | Single

  /** The loss draw comes first; the duplication draw is made only for a message that is not lost. */
  function FateOf(rng: Oracle, seed: Seed, lossP: real, dupP: real): Fate {
    if rng.unit(seed, 0) < lossP then Lost
    else if rng.unit(seed, 1) < dupP then Duplicated
    else Single
  }

  /**
   * Nothing arrives exactly when draw 0 is below the loss probability; two
   * copies arrive exactly when it is not and draw 1 is below the duplication
   * probability; otherwise the message arrives once.
   */
  lemma CopiesByDraws<M>(rng: Oracle, seed: Seed, lossP: real, dupP: real, m: M)
    ensures var copies := Copies(FateOf(rng, seed, lossP, dupP), m);
            && (copies == [] <==> rng.unit(seed, 0) < lossP)
            && (copies == [m, m] <==> rng.unit(seed, 0) >= lossP && rng.unit(seed, 1) < dupP)
            && (copies == [m] <==> rng.unit(seed, 0) >= lossP && rng.unit(seed, 1) >= dupP)
  {
    assert |[m, m]| == 2 && |[m]| == 1;
  }

  /** Certain and impossible faults. */
  lemma ExtremeProbabilities<M>(rng: Oracle, seed: Seed, lossP: real, dupP: real, m: M)
    requires UnitDraws(rng)
    ensures var copies := Copies(FateOf(rng, seed, lossP, dupP), m);
            && (lossP == 1.0 ==> copies == [])
            && (lossP == 0.0 ==> copies != [])
            && (dupP == 0.0 ==> copies != [m, m])
            && (lossP == 0.0 && dupP == 0.0 ==> copies == [m])
            && (lossP == 0.0 && dupP == 1.0 ==> copies == [m, m])
  {
    CopiesByDraws(rng, seed, lossP, dupP, m);
  }

  function Copies<M>(fate: Fate, m: M): seq<M> {
    match fate
    case Lost => []
    case Duplicated => [m, m]
    case Single => [m]
  }
}
