/**
  What keys, labelled addresses, payments and candidates are, for any input and stated in terms of
  the primitives alone (sections 5.2 to 5.4 of sRFC-0042), with the protocol's tags as bytes.
 */
module StealthSpec {
  import opened Results
  import opened Bytes
  import opened StealthGroup
  import opened Leb128
  import opened MetaAddressCodec
  import opened Stealth

  /** `slnt-v1-tweak`, after its length. */
  const TWEAK_TAG: seq<Byte> :=
    [13, 0x73, 0x6c, 0x6e, 0x74, 0x2d, 0x76, 0x31, 0x2d, 0x74, 0x77, 0x65, 0x61, 0x6b]

  /** `slnt-v1-label`. */
  const LABEL_SALT: seq<Byte> :=
    [0x73, 0x6c, 0x6e, 0x74, 0x2d, 0x76, 0x31, 0x2d, 0x6c, 0x61, 0x62, 0x65, 0x6c]

  /** `label-`. */
  const LABEL_INFO: seq<Byte> := [0x6c, 0x61, 0x62, 0x65, 0x6c, 0x2d]

  lemma TagBytes()
    ensures TweakPrefix() == TWEAK_TAG
    ensures Ascii("slnt-v1-label") == LABEL_SALT && Ascii("label-") == LABEL_INFO
  {
    assert "slnt-v1-tweak" ==
           ['s', 'l', 'n', 't', '-', 'v', '1', '-', 't', 'w', 'e', 'a', 'k'];
    assert "slnt-v1-label" ==
           ['s', 'l', 'n', 't', '-', 'v', '1', '-', 'l', 'a', 'b', 'e', 'l'];
    assert "label-" == ['l', 'a', 'b', 'e', 'l', '-'];
  }

  // ---- Keys ----

  /** A label's tweak: a function of the raw scan material and of the label's minimal varint only. */
  function Tweak(c: Suite, scanRaw: Bytes32, labelIndex: U32): nat {
    LeValue(c.hkdf(LABEL_SALT, scanRaw, LABEL_INFO + Encode(labelIndex))) % ELL
  }

  /** The address published under a label has the spend secret plus the label's tweak as its secret. */
  lemma LabelledAddressIs(c: Suite, spendRaw: Bytes32, scanRaw: Bytes32, labelIndex: U32)
    requires LeValue(spendRaw) % ELL != 0
    ensures KeysFromSecrets(c, spendRaw, scanRaw).Ok?
    ensures var (spend, scan) := KeysFromSecrets(c, spendRaw, scanRaw).value;
            var m := ForLabel(c, spend, scan, labelIndex);
            var k := LeValue(spendRaw) + if labelIndex == 0 then 0 else Tweak(c, scanRaw, labelIndex);
            && m.version == 1 && m.flags == 0 && m.labelIndex == labelIndex
            && m.bSpend == c.compress(PointMul(k, BASEPOINT))
            && m.bScan == c.x25519(scanRaw, [9] + seq(31, _ => 0))
            && spend.scalar == LeValue(spendRaw) % ELL && scan.raw == scanRaw
  {
    hide PointMul, ScalarAdd;
    TagBytes();
    var (spend, scan) := KeysFromSecrets(c, spendRaw, scanRaw).value;
    PublishedKey(c, spend, scan, labelIndex);
    var m := LabelScalar(c, scan, labelIndex);
    SumOfScalars(LeValue(spendRaw), m);
  }

  // ---- Sums ----

  lemma SumModulo(x: nat, m: Scalar)
    ensures ScalarAdd(x % ELL, m) == (x + m) % ELL
  {
  }

  lemma SmallModulo(m: Scalar)
    ensures m % ELL == m
  {
  }

  /** Multiplying the base point reduces the multiplier modulo ELL. */
  lemma BaseMulReduced(x: nat)
    ensures PointMul(x % ELL, BASEPOINT) == PointMul(x, BASEPOINT)
  {
    BaseMul(x % ELL);
    EightMod(x);
  }

  lemma SumOfScalars(x: nat, m: Scalar)
    ensures PointMul(ScalarAdd(x % ELL, m), BASEPOINT) == PointMul(x + m, BASEPOINT)
  {
    hide PointMul, ScalarAdd;
    SumModulo(x, m);
    BaseMulReduced(x + m);
  }

  lemma SumOfPoints(k: nat, t: Scalar)
    ensures PointAdd(PointMul(k, BASEPOINT), PointMul(t, BASEPOINT)) == PointMul(k + t, BASEPOINT)
  {
    hide PointMul, ScalarAdd, PointAdd;
    BaseMulReduced(k);
    BaseHomomorphism(k % ELL, t);
    SumOfScalars(k, t);
  }

  lemma ThreeScalars(b: Scalar, m: Scalar, t: Scalar)
    ensures ScalarAdd(ScalarAdd(b, m), t) == (b + m + t) % ELL
    ensures PointMul(ScalarAdd(ScalarAdd(b, m), t), BASEPOINT) == PointMul(b + m + t, BASEPOINT)
  {
    hide PointMul, ScalarAdd;
    SmallModulo(b);
    SumModulo(b, m);
    SumModulo(b + m, t);
    SumOfScalars(b + m, t);
  }

  /**
    Two labels of one recipient share an address exactly when the hash gives them the same tweak,
    and it is asked about different inputs whenever the labels differ.
   */
  lemma LabelsCollideExactly(c: Suite, spend: SpendKey, scan: ScanKey, i: U32, j: U32)
    requires Lawful(c) && KeyPair(c, spend, scan) && i != 0 && j != 0
    ensures ForLabel(c, spend, scan, i).bSpend == ForLabel(c, spend, scan, j).bSpend <==>
            Tweak(c, scan.raw, i) == Tweak(c, scan.raw, j)
    ensures LABEL_INFO + Encode(i) == LABEL_INFO + Encode(j) <==> i == j
    ensures ForLabel(c, spend, scan, i).bSpend == ForLabel(c, spend, scan, 0).bSpend <==> Tweak(c, scan.raw, i) == 0
  {
    hide PointMul;
    TagBytes();
    PublishedKey(c, spend, scan, i);
    PublishedKey(c, spend, scan, j);
    PublishedKey(c, spend, scan, 0);
    SameAddress(c, EffectiveScalar(c, spend, scan, i), EffectiveScalar(c, spend, scan, j));
    SameAddress(c, EffectiveScalar(c, spend, scan, i), EffectiveScalar(c, spend, scan, 0));
    SameSum(spend.scalar, LabelScalar(c, scan, i), LabelScalar(c, scan, j));
    SameSum(spend.scalar, LabelScalar(c, scan, i), 0);
    VarintRoundTrip(i, []);
    VarintRoundTrip(j, []);
    assert (LABEL_INFO + Encode(i))[6..] == Encode(i) && (LABEL_INFO + Encode(j))[6..] == Encode(j);
  }

  lemma SameSum(b: Scalar, m: Scalar, n: Scalar)
    ensures ScalarAdd(b, m) == ScalarAdd(b, n) <==> m == n
  {
    assert ScalarAdd(b, m) == if b + m < ELL then b + m else b + m - ELL;
    assert ScalarAdd(b, n) == if b + n < ELL then b + n else b + n - ELL;
  }

  lemma SameAddress(c: Suite, a: Scalar, b: Scalar)
    requires Lawful(c)
    ensures AddressForScalar(c, a) == AddressForScalar(c, b) <==> a == b
  {
    BaseMul(a);
    BaseMul(b);
    var p, q := PointMul(a, BASEPOINT), PointMul(b, BASEPOINT);
    assert c.decompress(c.compress(p)) == Some(p) && c.decompress(c.compress(q)) == Some(q);
  }

  // ---- Payments ----

  /** The bytes are the encoding of a multiple k * G of the base point with k not divisible by ELL. */
  ghost predicate EncodesSubgroupPoint(c: Suite, bytes: Bytes32) {
    exists p: Point, k: nat :: c.decompress(bytes) == Some(p) && k % ELL != 0 && p == PointMul(k, BASEPOINT)
  }

  ghost predicate HasNonZero(bytes: Bytes32) {
    exists i :: 0 <= i < 32 && bytes[i] != 0
  }

  /**
    Whom a sender pays, for any address whatever, also one that is malformed or that nobody holds
    the keys of, and which error it gives otherwise.
   */
  lemma SendsExactly(c: Suite, meta: MetaAddress, r: Bytes32)
    ensures DerivePayment(c, meta, r).Ok? <==>
            && meta.version == 1 && meta.flags == 0
            && EncodesSubgroupPoint(c, meta.bSpend)
            && HasNonZero(c.x25519(r, meta.bScan))
    ensures DerivePayment(c, meta, r).Err? ==>
              DerivePayment(c, meta, r).error ==
              if meta.version != 1 then BadVersion(meta.version)
              else if meta.flags != 0 then BadFlags(meta.flags)
              else if !EncodesSubgroupPoint(c, meta.bSpend) then InvalidPoint
              else InvalidSharedSecret
  {
    hide PointMul, PointAdd, IsSmallOrder, IsTorsionFree, ComputeViewTag, ComputeTweak;
    var point := c.decompress(meta.bSpend);
    if point.Some? {
      SubgroupCheckExact(point.value);
    }
  }

  /** A torsion component is enough to be refused, whatever the rest of the key is. */
  lemma TorsionRefused(c: Suite, meta: MetaAddress, r: Bytes32, p: Point)
    requires c.decompress(meta.bSpend) == Some(p) && p % 8 != 0
    ensures DerivePayment(c, meta, r).Err?
  {
    TorsionFreeIffMultipleOfEight(p);
  }

  /** What is paid: with S the shared secret, the view tag and the tweak are hashes of it. */
  lemma PaysExactly(c: Suite, meta: MetaAddress, r: Bytes32, k: nat)
    requires DerivePayment(c, meta, r).Ok? && c.decompress(meta.bSpend) == Some(PointMul(k, BASEPOINT))
    ensures var payment := DerivePayment(c, meta, r).value;
            var s := c.x25519(r, meta.bScan);
            var t := LeValue(c.sha256(TWEAK_TAG + s + [payment.viewTag])) % ELL;
            && payment.ephemeralPub == c.x25519(r, [9] + seq(31, _ => 0))
            && payment.viewTag == c.sha256(TWEAK_TAG + s)[0]
            && payment.stealthAddress == c.compress(PointMul(k + t, BASEPOINT))
  {
    hide IsSmallOrder, IsTorsionFree;
    TagBytes();
    var s := c.x25519(r, meta.bScan);
    var t := ComputeTweak(c, s, ComputeViewTag(c, s));
    SumOfPoints(k, t);
  }

  // ---- Scanning ----

  /** The filter, for any note: the shared secret is not all zero and its hash starts with the tag. */
  lemma MatchesExactly(c: Suite, scan: ScanKey, ephemeralPub: Bytes32, viewTag: Byte)
    ensures var s := c.x25519(scan.secret, ephemeralPub);
            ViewTagMatches(c, scan, ephemeralPub, viewTag) <==>
            HasNonZero(s) && c.sha256(TWEAK_TAG + s)[0] == viewTag
  {
    TagBytes();
  }

  /** The scalars of a note's candidates, for any note that passes. */
  lemma CandidateScalarIs(
      c: Suite, spend: SpendKey, scan: ScanKey, ephemeralPub: Bytes32, viewTag: Byte, knownLabels: seq<U32>, i: nat)
    requires i < |Candidates(c, spend, scan, ephemeralPub, viewTag, knownLabels)|
    ensures var s := c.x25519(scan.secret, ephemeralPub);
            var t := LeValue(c.sha256(TWEAK_TAG + s + [viewTag])) % ELL;
            var found := Candidates(c, spend, scan, ephemeralPub, viewTag, knownLabels)[i];
            var m := if found.labelIndex == 0 then 0 else Tweak(c, scan.raw, found.labelIndex);
            && found.stealthScalar == (spend.scalar + m + t) % ELL
            && found.stealthAddress == c.compress(PointMul(spend.scalar + m + t, BASEPOINT))
  {
    hide ViewTagMatches, NonZero;
    TagBytes();
    var t := ComputeTweak(c, c.x25519(scan.secret, ephemeralPub), viewTag);
    var labelIndex := ([0] + NonZero(knownLabels))[i];
    var m := LabelScalar(c, scan, labelIndex);
    ThreeScalars(spend.scalar, m, t);
  }
}
