/**
  The group and the primitives. edwards25519 is cyclic of order 8 * ELL (section 5.1 of
  RFC 8032), so a point is its discrete logarithm modulo 8 * ELL, and the base point, of order
  ELL, is 8. Hashes and byte encodings of points are left uninterpreted.
 */
module StealthGroup {
  import opened Bytes

  /** The prime order of the base point. */
  const ELL: nat := 0x1000000000000000000000000000000014def9dea2f79cd65812631a5cf5d3ed

  const ORDER: nat := 8 * ELL

  type Scalar = k: nat | k < ELL

  type Point = p: nat | p < ORDER

  const IDENTITY: Point := 0
  const BASEPOINT: Point := 8

  function PointAdd(p: Point, q: Point): Point {
    (p + q) % ORDER
  }

  function PointNeg(p: Point): Point {
    (ORDER - p) % ORDER
  }

  /** `k * p`, for any integer multiplier. */
  function PointMul(k: nat, p: Point): Point {
    k * p % ORDER
  }

  function ScalarAdd(a: Scalar, b: Scalar): Scalar {
    (a + b) % ELL
  }

  function ScalarMul(a: Scalar, b: Scalar): Scalar {
    a * b % ELL
  }

  /** SC25519_reduce: a little-endian integer modulo ELL. */
  function ScReduce(bs: seq<Byte>): Scalar {
    LeValue(bs) % ELL
  }

  function ScalarBytes(k: Scalar): Bytes32 {
    LeBytes(k, 32)
  }

  /** `is_small_order`: eight times the point is the identity. */
  predicate IsSmallOrder(p: Point) {
    PointMul(8, p) == IDENTITY
  }

  /** `is_torsion_free`: ELL times the point is the identity. */
  predicate IsTorsionFree(p: Point) {
    PointMul(ELL, p) == IDENTITY
  }

  // ---- Arithmetic ----

  /** Multiples of the base point add as scalars do. */
  lemma BaseMul(k: Scalar)
    ensures PointMul(k, BASEPOINT) == 8 * k
  {
  }

  lemma BaseHomomorphism(a: Scalar, b: Scalar)
    ensures PointAdd(PointMul(a, BASEPOINT), PointMul(b, BASEPOINT)) == PointMul(ScalarAdd(a, b), BASEPOINT)
  {
    BaseMul(a);
    BaseMul(b);
    BaseMul(ScalarAdd(a, b));
  }

  /** `8x` modulo `8 * ELL` is eight times `x` modulo ELL. */
  lemma EightMod(x: nat)
    ensures 8 * x % ORDER == 8 * (x % ELL)
  {
  }

  lemma BaseMulMul(k: Scalar, a: Scalar)
    ensures PointMul(k, PointMul(a, BASEPOINT)) == PointMul(ScalarMul(k, a), BASEPOINT)
  {
    BaseMul(a);
    BaseMul(ScalarMul(k, a));
    assert k * (8 * a) == 8 * (k * a);
    EightMod(k * a);
  }

  lemma ScalarRoundTrip(k: Scalar)
    ensures LeValue(ScalarBytes(k)) == k
  {
    PointRoundTrip(k);
  }

  /** Thirty-two bytes hold any point's number. */
  lemma PointRoundTrip(p: Point)
    ensures LeValue(LeBytes(p, 32)) == p
  {
    assert Pow256(32) > ORDER by {
      assert Pow256(8) == 0x1_0000_0000_0000_0000;
      PowSplit(8, 8);
      PowSplit(16, 8);
      PowSplit(24, 8);
    }
    LeValueOfBytes(p, 32);
  }

  lemma {:induction false} PowSplit(a: nat, b: nat)
    ensures Pow256(a + b) == Pow256(a) * Pow256(b)
  {
    if a > 0 {
      PowSplit(a - 1, b);
    }
  }

  // ---- The subgroup test ----

  /**
    The two checks accept exactly the non-identity points of the prime-order subgroup: the
    multiples k * G with k not divisible by ELL.
   */
  lemma SubgroupCheckExact(p: Point)
    ensures !IsSmallOrder(p) && IsTorsionFree(p) <==> exists k: nat :: k % ELL != 0 && p == PointMul(k, BASEPOINT)
  {
    TorsionFreeIffMultipleOfEight(p);
    SmallOrderIffMultipleOfEll(p);
    if !IsSmallOrder(p) && IsTorsionFree(p) {
      var k := p / 8;
      assert k % ELL != 0 && p == PointMul(k, BASEPOINT);
    }
    forall k: nat | k % ELL != 0 && p == PointMul(k, BASEPOINT)
      ensures !IsSmallOrder(p) && IsTorsionFree(p)
    {
      EightMod(k);
      NoCommonMultiple(k % ELL);
    }
  }

  lemma TorsionFreeIffMultipleOfEight(p: Point)
    ensures IsTorsionFree(p) <==> p % 8 == 0
  {
    assert ELL * p % (8 * ELL) == ELL * (p % 8);
  }

  lemma SmallOrderIffMultipleOfEll(p: Point)
    ensures IsSmallOrder(p) <==> p % ELL == 0
  {
    EightMod(p);
  }

  /** Eight and ELL share no factor: 8k is a multiple of ELL only for k = 0. */
  lemma NoCommonMultiple(k: Scalar)
    ensures 8 * k % ELL == 0 ==> k == 0
  {
    var j := 8 * k / ELL;
    if 8 * k % ELL == 0 {
      assert 8 * k == ELL * j && j < 8;
    }
  }
}
