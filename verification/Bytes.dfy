/**
  Bytes, little-endian integers, and the bitwise operators the two codecs use.
  Machine words are represented by their bit pattern, a natural number below 2^32 (or 2^64):
  `Or` is the bitwise operator itself, `Shl32` is JavaScript's `<<` followed by the
  reinterpretation `>>> 0`. Masks of low bits and right shifts are written `%` and `/`.
 */
module Bytes {
  type Byte = b: nat | b < 256

  type Bytes32 = s: seq<Byte> | |s| == 32 witness seq(32, _ => 0)

  const U32_LIMIT: nat := 0x1_0000_0000

  type U16 = x: nat | x < 0x1_0000

  type U32 = x: nat | x < 0x1_0000_0000

  /** A character string of 7-bit characters as its bytes. */
  function Ascii(s: string): (bs: seq<Byte>)
    requires forall i | 0 <= i < |s| :: s[i] as int < 128
    ensures |bs| == |s|
  {
    seq(|s|, i requires 0 <= i < |s| => s[i] as int)
  }

  // ---- Little-endian integers ----

  function LeValue(bs: seq<Byte>): nat {
    if bs == [] then 0 else bs[0] + 256 * LeValue(bs[1..])
  }

  /** The `n` low bytes of `v`, least significant first. */
  function LeBytes(v: nat, n: nat): (bs: seq<Byte>)
    ensures |bs| == n
  {
    if n == 0 then [] else [v % 256] + LeBytes(v / 256, n - 1)
  }

  /** 256 to the power `n`. */
  function Pow256(n: nat): nat {
    if n == 0 then 1 else 256 * Pow256(n - 1)
  }

  lemma {:induction false} LeValueOfBytes(v: nat, n: nat)
    requires v < Pow256(n)
    ensures LeValue(LeBytes(v, n)) == v
  {
    if n > 0 {
      LeValueOfBytes(v / 256, n - 1);
      assert LeBytes(v, n)[1..] == LeBytes(v / 256, n - 1);
    }
  }

  lemma {:induction false} LeBytesOfValue(bs: seq<Byte>)
    ensures LeValue(bs) < Pow256(|bs|)
    ensures LeBytes(LeValue(bs), |bs|) == bs
  {
    if bs != [] {
      LeBytesOfValue(bs[1..]);
      var v := LeValue(bs);
      assert v % 256 == bs[0] && v / 256 == LeValue(bs[1..]);
      assert bs == [bs[0]] + bs[1..];
    }
  }

  /** A 2-byte (4-byte) field holds exactly the values below 2^16 (2^32). */
  lemma LeFields(v: nat)
    ensures v < 0x1_0000 ==> LeValue(LeBytes(v, 2)) == v
    ensures v < U32_LIMIT ==> LeValue(LeBytes(v, 4)) == v
  {
    assert Pow256(2) == 0x1_0000 && Pow256(4) == U32_LIMIT;
    if v < U32_LIMIT {
      LeValueOfBytes(v, 4);
    }
    if v < 0x1_0000 {
      LeValueOfBytes(v, 2);
    }
  }

  lemma LeFieldBounds(bs: seq<Byte>)
    ensures |bs| == 2 ==> LeValue(bs) < 0x1_0000
    ensures |bs| == 4 ==> LeValue(bs) < U32_LIMIT
  {
    assert Pow256(2) == 0x1_0000 && Pow256(4) == U32_LIMIT;
    LeBytesOfValue(bs);
  }

  // ---- Bitwise operators on bit patterns ----

  /** Bitwise or. */
  function Or(a: nat, b: nat): nat
    decreases a + b
  {
    if a == 0 && b == 0 then 0
    else 2 * Or(a / 2, b / 2) + (if a % 2 == 1 || b % 2 == 1 then 1 else 0)
  }

  /** Left shift, without a word size. */
  function Shl(x: nat, s: nat): nat {
    if s == 0 then x else 2 * Shl(x, s - 1)
  }

  /** `(x << s) >>> 0` on 32-bit words. */
  function Shl32(x: nat, s: nat): nat {
    Shl(x, s) % U32_LIMIT
  }

  lemma {:induction false} OrZero(a: nat)
    ensures Or(a, 0) == a && Or(0, a) == a
  {
    if a > 0 {
      OrZero(a / 2);
    }
  }

  /** Or-ing a field in above all the bits already set adds it. */
  lemma {:induction false} OrAbove(a: nat, x: nat, s: nat)
    requires a < Shl(1, s)
    ensures Or(a, Shl(x, s)) == a + Shl(x, s)
  {
    if s == 0 {
      OrZero(x);
    } else {
      OrAbove(a / 2, x, s - 1);
      var y := Shl(x, s - 1);
      if a > 0 || y > 0 {
        assert 2 * y / 2 == y && 2 * y % 2 == 0;
      }
    }
  }

  /** Shifts by whole varint digits or bytes are multiplications by constants. */
  lemma ShlSeven(x: nat, s: nat)
    ensures Shl(x, s + 7) == 128 * Shl(x, s)
    ensures Shl(x, s + 8) == 256 * Shl(x, s)
  {
    assert Shl(x, s + 8) == 2 * Shl(x, s + 7);
    assert Shl(x, s + 7) == 2 * Shl(x, s + 6);
    assert Shl(x, s + 6) == 2 * Shl(x, s + 5);
    assert Shl(x, s + 5) == 2 * Shl(x, s + 4);
    assert Shl(x, s + 4) == 2 * Shl(x, s + 3);
    assert Shl(x, s + 3) == 2 * Shl(x, s + 2);
    assert Shl(x, s + 2) == 2 * Shl(x, s + 1);
  }
}
