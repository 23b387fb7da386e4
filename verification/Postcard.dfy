/**
 * The part of the Postcard wire format that a canonical state uses: varints
 * ("Varint Encoded Integers") and zigzag integers ("Signed Integer Encoding").
 */
module Postcard {
  import opened Basics

  /** A `u64` takes at most ten groups of seven bits. */
  const MAX_GROUPS: nat := 10

  /** One more than the largest value that `MAX_GROUPS - i` groups of a `u64` can hold. */
  function Capacity(i: nat): (c: nat)
    requires i < MAX_GROUPS
    ensures c >= 2
    decreases MAX_GROUPS - i
  {
    if i == MAX_GROUPS - 1 then 2 else 128 * Capacity(i + 1)
  }

  lemma CapacityOfAllGroups()
    ensures Capacity(0) == U64_LIMIT
  {
    assert Capacity(8) == 0x100;
    assert Capacity(6) == 0x40_0000;
    assert Capacity(4) == 0x10_0000_0000;
    assert Capacity(2) == 0x4_0000_0000_0000;
  }

  // ------------------------------------------------------------------
  // Varints
  // ------------------------------------------------------------------

  function EncodeVarint(n: nat): (b: Bytes)
    ensures b != []
  {
    if n < 128 then [n] else [n % 128 + 128] + EncodeVarint(n / 128)
  }

  /** Reads a `u64`, of which `i` groups have been read; yields the value and the rest of the input. */
  function DecodeVarint(b: Bytes, i: nat): (r: Option<(nat, Bytes)>)
    requires i <= MAX_GROUPS
    ensures r.Some? ==> i < MAX_GROUPS && r.value.0 < Capacity(i) && |r.value.1| < |b|
    decreases MAX_GROUPS - i
  {
    if i == MAX_GROUPS || b == [] then None
    else if b[0] < 128 then
      if i == MAX_GROUPS - 1 && b[0] > 1 then None else Some((b[0], b[1..]))
    else
      match DecodeVarint(b[1..], i + 1)
      case None => None
      case Some((high, rest)) => Some((b[0] - 128 + 128 * high, rest))
  }

  lemma {:induction false} VarintRoundTrip(n: nat, i: nat, rest: Bytes)
    requires i < MAX_GROUPS && n < Capacity(i)
    ensures DecodeVarint(EncodeVarint(n) + rest, i) == Some((n, rest))
    ensures |EncodeVarint(n)| <= MAX_GROUPS - i
    decreases MAX_GROUPS - i
  {
    var b := EncodeVarint(n) + rest;
    if n < 128 {
      assert b[1..] == rest;
    } else {
      var low: byte := n % 128 + 128;
      assert b == [low] + (EncodeVarint(n / 128) + rest);
      assert b[1..] == EncodeVarint(n / 128) + rest;
      VarintRoundTrip(n / 128, i + 1, rest);
    }
  }

  /** The bytes of the first varint of `b` are the ones `EncodeVarint` writes: the last group is not a padding zero. */
  predicate MinimalVarint(b: Bytes)
  {
    b != [] && (b[0] < 128 || (b[1..] != [] && b[1] != 0 && MinimalVarint(b[1..])))
  }

  /** Writing `n` and then `rest` gives `b` exactly when `b` starts with a minimal varint. */
  ghost predicate Reencodes(b: Bytes, n: nat, rest: Bytes) {
    && b != []
    && (EncodeVarint(n) + rest == b <==> MinimalVarint(b))
    && (n == 0 && MinimalVarint(b) ==> b[0] == 0)
  }

  lemma VarintReencodes(b: Bytes, i: nat)
    requires i < MAX_GROUPS && DecodeVarint(b, i).Some?
    ensures var (n, rest) := DecodeVarint(b, i).value;
            EncodeVarint(n) + rest == b <==> MinimalVarint(b)
    ensures DecodeVarint(b, i).value.0 == 0 && MinimalVarint(b) ==> b[0] == 0
  {
    GroupsReencode(b, i);
  }

  lemma {:induction false} GroupsReencode(b: Bytes, i: nat)
    requires i < MAX_GROUPS && DecodeVarint(b, i).Some?
    ensures Reencodes(b, DecodeVarint(b, i).value.0, DecodeVarint(b, i).value.1)
    decreases MAX_GROUPS - i
  {
    if b[0] >= 128 {
      DecodeMoreGroups(b, i);
      var (high, rest) := DecodeVarint(b[1..], i + 1).value;
      GroupsReencode(b[1..], i + 1);
      FirstGroupReencodes(b, DecodeVarint(b, i).value.0, high, rest);
    } else {
      LastGroupReencodes(b, i);
    }
  }

  lemma LastGroupReencodes(b: Bytes, i: nat)
    requires i < MAX_GROUPS && DecodeVarint(b, i).Some? && b[0] < 128
    ensures Reencodes(b, DecodeVarint(b, i).value.0, DecodeVarint(b, i).value.1)
  {
    assert b == [b[0]] + b[1..];
  }

  lemma DecodeMoreGroups(b: Bytes, i: nat)
    requires i < MAX_GROUPS && DecodeVarint(b, i).Some? && b[0] >= 128
    ensures |b| > 1 && i + 1 < MAX_GROUPS && DecodeVarint(b[1..], i + 1).Some?
    ensures var (high, rest) := DecodeVarint(b[1..], i + 1).value;
            DecodeVarint(b, i) == Some((b[0] - 128 + 128 * high, rest)) && (high > 0 ==> b[1] != 0)
  {
  }

  /** How the groups after the first decide whether the whole re-encodes. */
  lemma FirstGroupReencodes(b: Bytes, n: nat, high: nat, rest: Bytes)
    requires |b| > 1 && b[0] >= 128 && n == b[0] - 128 + 128 * high && (high > 0 ==> b[1] != 0)
    requires Reencodes(b[1..], high, rest)
    ensures Reencodes(b, n, rest)
  {
    if high > 0 {
      MoreGroupsReencode(b, high, rest);
    } else {
      PaddingDoesNotReencode(b, rest);
    }
  }

  /** A first group followed by groups that are not all zero re-encodes when they do. */
  lemma MoreGroupsReencode(b: Bytes, high: nat, rest: Bytes)
    requires |b| > 1 && b[0] >= 128 && high > 0 && b[1] != 0
    requires EncodeVarint(high) + rest == b[1..] <==> MinimalVarint(b[1..])
    ensures EncodeVarint(b[0] - 128 + 128 * high) + rest == b <==> MinimalVarint(b)
  {
    MoreGroups(b[0], high, rest);
    SameHead(b[0], EncodeVarint(high) + rest, b[1..]);
    assert b == [b[0]] + b[1..];
  }

  /** A first group followed by padding does not re-encode: the encoder would have stopped at it. */
  lemma PaddingDoesNotReencode(b: Bytes, rest: Bytes)
    requires |b| > 1 && b[0] >= 128
    ensures EncodeVarint(b[0] - 128) + rest != b
  {
    assert (EncodeVarint(b[0] - 128) + rest)[0] == b[0] - 128;
  }

  lemma SameHead(head: byte, s: Bytes, t: Bytes)
    ensures [head] + s == [head] + t <==> s == t
  {
    assert ([head] + s)[1..] == s && ([head] + t)[1..] == t;
  }

  lemma MoreGroups(low: byte, high: nat, rest: Bytes)
    requires low >= 128 && high > 0
    ensures EncodeVarint(low - 128 + 128 * high) + rest == [low] + (EncodeVarint(high) + rest)
  {
    var n: nat := low - 128 + 128 * high;
    assert n % 128 == low - 128 && n / 128 == high;
    Associative([low], EncodeVarint(high), rest);
  }

  /** The number that seven-bit groups spell, the least significant first, when all but the last carry the high bit. */
  function Spelled(b: Bytes): nat {
    if b == [] then 0 else b[0] % 128 + 128 * Spelled(b[1..])
  }

  /** The encoder spells the number, and marks exactly the groups that others follow. */
  lemma {:induction false} EncodeSpells(n: nat)
    ensures Spelled(EncodeVarint(n)) == n
    ensures forall i :: 0 <= i < |EncodeVarint(n)| ==> (EncodeVarint(n)[i] >= 128 <==> i < |EncodeVarint(n)| - 1)
    decreases n
  {
    if n >= 128 {
      EncodeSpells(n / 128);
      var tail := EncodeVarint(n / 128);
      assert EncodeVarint(n) == [n % 128 + 128] + tail;
      assert EncodeVarint(n)[1..] == tail;
      assert forall i :: 0 < i < |EncodeVarint(n)| ==> EncodeVarint(n)[i] == tail[i - 1];
    }
  }

  // ------------------------------------------------------------------
  // Zigzag
  // ------------------------------------------------------------------

  function Zigzag(k: i64): (n: nat)
    ensures n < U64_LIMIT
  {
    if k >= 0 then 2 * k else -2 * k - 1
  }

  function Unzigzag(n: nat): (k: i64)
    requires n < U64_LIMIT
  {
    if n % 2 == 0 then n / 2 else -(n / 2) - 1
  }

  lemma ZigzagRoundTrip(k: i64)
    ensures Unzigzag(Zigzag(k)) == k
  {
  }

  /** Zero and the positive numbers take the even codes, the negative ones the odd codes, in order of magnitude. */
  lemma ZigzagInterleaves(k: i64)
    requires k >= 0
    ensures Zigzag(k) == 2 * k && Zigzag(-k - 1) == 2 * k + 1
  {
  }

  lemma UnzigzagRoundTrip(n: nat)
    requires n < U64_LIMIT
    ensures Zigzag(Unzigzag(n)) == n
  {
  }
}
