/** Powers of two by repeated doubling and halving, so that no proof needs a product of variables. */
module Powers {

  /** `x * 2^n`. */
  function Doubled(x: real, n: nat): real {
    if n == 0 then x else 2.0 * Doubled(x, n - 1)
  }

  /** `x / 2^n`. */
  function Halved(x: real, n: nat): real
    decreases n
  {
    if n == 0 then x else Halved(x / 2.0, n - 1)
  }

  lemma DoubledMonotone(x: real, y: real, n: nat)
    requires x <= y
    ensures Doubled(x, n) <= Doubled(y, n)
    decreases n
  {
    if n > 0 {
      DoubledMonotone(x, y, n - 1);
    }
  }

  lemma DoubledStrict(x: real, y: real, n: nat)
    requires x < y
    ensures Doubled(x, n) < Doubled(y, n)
    decreases n
  {
    if n > 0 {
      DoubledStrict(x, y, n - 1);
    }
  }

  lemma DoubledCancels(x: real, y: real, n: nat)
    requires Doubled(x, n) < Doubled(y, n)
    ensures x < y
    decreases n
  {
    if n > 0 {
      DoubledCancels(x, y, n - 1);
    }
  }

  lemma HalvedMonotone(x: real, y: real, n: nat)
    requires x <= y
    ensures Halved(x, n) <= Halved(y, n)
    decreases n
  {
    if n > 0 {
      HalvedMonotone(x / 2.0, y / 2.0, n - 1);
    }
  }

  lemma {:induction false} DoubledSum(x: real, a: nat, b: nat)
    ensures Doubled(Doubled(x, a), b) == Doubled(x, a + b)
    decreases b
  {
    if b > 0 {
      DoubledSum(x, a, b - 1);
    }
  }

  lemma {:induction false} HalvedSum(x: real, a: nat, b: nat)
    ensures Halved(Halved(x, a), b) == Halved(x, a + b)
    decreases a
  {
    if a > 0 {
      HalvedSum(x / 2.0, a - 1, b);
    }
  }

  /** Halving undoes doubling. */
  lemma {:induction false} HalvedOfDoubled(x: real, n: nat, k: nat)
    ensures Halved(Doubled(x, n), n + k) == Halved(x, k)
    decreases n
  {
    if n > 0 {
      HalvedOfDoubled(x, n - 1, k);
      assert Doubled(x, n) / 2.0 == Doubled(x, n - 1);
    }
  }

  /** Doubling undoes halving. */
  lemma {:induction false} DoubledOfHalved(x: real, n: nat)
    ensures Doubled(Halved(x, n), n) == x
    decreases n
  {
    if n > 0 {
      DoubledOfHalved(x / 2.0, n - 1);
    }
  }

  lemma HalvedPositive(x: real, n: nat)
    requires x > 0.0
    ensures 0.0 < Halved(x, n) <= x
    decreases n
  {
    if n > 0 {
      HalvedPositive(x / 2.0, n - 1);
    }
  }

  lemma DoubledPositive(x: real, n: nat)
    requires x > 0.0
    ensures Doubled(x, n) >= x
    decreases n
  {
    if n > 0 {
      DoubledPositive(x, n - 1);
    }
  }

  /** Thirteen doublings, four times over. */
  lemma DoubledBy52(x: real)
    ensures Doubled(x, 52) == 4_503_599_627_370_496.0 * x
  {
    DoubledBy26(x);
    DoubledBy26(67_108_864.0 * x);
    DoubledSum(x, 26, 26);
  }

  lemma DoubledBy26(x: real)
    ensures Doubled(x, 26) == 67_108_864.0 * x
  {
    DoubledBy13(x);
    DoubledBy13(8_192.0 * x);
    DoubledSum(x, 13, 13);
  }

  lemma DoubledBy13(x: real)
    ensures Doubled(x, 13) == 8_192.0 * x
  {
    DoubledBy4(x);
    DoubledBy4(16.0 * x);
    DoubledSum(x, 4, 4);
    DoubledBy4(256.0 * x);
    DoubledSum(x, 8, 4);
    DoubledOnce(x, 13);
  }

  lemma DoubledOnce(x: real, n: nat)
    requires n > 0
    ensures Doubled(x, n) == 2.0 * Doubled(x, n - 1)
    ensures Doubled(x, 0) == x
  {
  }

  lemma DoubledBy4(x: real)
    ensures Doubled(x, 4) == 16.0 * x
  {
    DoubledOnce(x, 4);
    DoubledOnce(x, 3);
    DoubledOnce(x, 2);
    DoubledOnce(x, 1);
  }

  lemma HalvedBy52(x: real)
    ensures 4_503_599_627_370_496.0 * Halved(x, 52) == x
  {
    DoubledOfHalved(x, 52);
    DoubledBy52(Halved(x, 52));
  }

  // ------------------------------------------------------------------
  // Binary exponents
  // ------------------------------------------------------------------

  /** The number of halvings, up to `limit`, that bring `y` below 2: the exponent of `y` when it is at least 1. */
  function Exponent(y: real, limit: nat): (e: nat)
    ensures e <= limit
    decreases limit
  {
    if limit == 0 || y < 2.0 then 0 else 1 + Exponent(y / 2.0, limit - 1)
  }

  lemma {:induction false} ExponentBelow(y: real, limit: nat)
    requires 1.0 <= y
    ensures Doubled(1.0, Exponent(y, limit)) <= y
    decreases limit
  {
    if limit > 0 && y >= 2.0 {
      ExponentBelow(y / 2.0, limit - 1);
    }
  }

  /** The exponent is the largest: the next power of two is above. */
  lemma {:induction false} ExponentAbove(y: real, limit: nat)
    requires y < Doubled(1.0, limit + 1)
    ensures y < Doubled(1.0, Exponent(y, limit) + 1)
    decreases limit
  {
    if limit > 0 && y >= 2.0 {
      assert Doubled(1.0, limit + 1) == 2.0 * Doubled(1.0, limit);
      ExponentAbove(y / 2.0, limit - 1);
    }
  }
}
