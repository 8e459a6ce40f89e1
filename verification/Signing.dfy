/** Ed25519 signing with a scalar private key (section 5.9 of sRFC-0042), in both SDKs. */
module Signing {
  import opened Results
  import opened Bytes
  import opened StealthGroup
  import opened Stealth
  import opened StealthSpec
  import opened StealthTypescript

  /** `StealthSigningKey`, set once by `new`. */
  datatype SigningKey = SigningKey(scalar: Scalar, publicPoint: Point, hashPrefix: Bytes32)

  /** `StealthSigningKey::new`. */
  function NewKey(c: Suite, scalar: Scalar): SigningKey {
    var hash := c.sha512(Ascii("slnt-v1-nonce") + ScalarBytes(scalar));
    SigningKey(scalar, PointMul(scalar, BASEPOINT), hash[32..64])
  }

  function PublicBytes(c: Suite, key: SigningKey): Bytes32 {
    c.compress(key.publicPoint)
  }

  /** The challenge, which the verifier recomputes from the signature's first half. */
  function Challenge(c: Suite, rBytes: Bytes32, publicBytes: Bytes32, message: seq<Byte>): Scalar {
    ScReduce(c.sha512(rBytes + publicBytes + message))
  }

  function Nonce(c: Suite, key: SigningKey, message: seq<Byte>): Scalar {
    ScReduce(c.sha512(key.hashPrefix + message))
  }

  /** `sign`: the point R and the scalar s, each in 32 bytes. */
  function Sign(c: Suite, key: SigningKey, message: seq<Byte>): Bytes64 {
    var r := Nonce(c, key, message);
    var rPoint := c.compress(PointMul(r, BASEPOINT));
    var k := Challenge(c, rPoint, PublicBytes(c, key), message);
    var s := ScalarAdd(r, ScalarMul(k, key.scalar));
    rPoint + ScalarBytes(s)
  }

  /** The TypeScript key and signature; `None` where the library throws. */
  function TsSign(c: Suite, scalar: Scalar, message: seq<Byte>): Option<Bytes64> {
    var hashPrefix := c.sha512(Ascii("slnt-v1-nonce") + ScalarBytes(scalar))[32..64];
    match TsMultiplyBase(scalar)
    case None => None
    case Some(publicPoint) =>
      var r := LeValue(c.sha512(hashPrefix + message)) % ELL;
      match TsMultiplyBase(r)
      case None => None
      case Some(rPoint) =>
        var rBytes := c.compress(rPoint);
        var k := LeValue(c.sha512(rBytes + c.compress(publicPoint) + message)) % ELL;
        var s := (r + k * scalar % ELL) % ELL;
        Some(rBytes + LeBytes(s, 32))
  }

  /** Verification without cofactor (section 5.1.7 of RFC 8032): s < ELL and R = s * G - k * A. */
  predicate Verify(c: Suite, publicBytes: Bytes32, message: seq<Byte>, signature: Bytes64) {
    var rBytes, s := signature[..32], LeValue(signature[32..]);
    match c.decompress(publicBytes)
    case None => false
    case Some(a) =>
      var k := Challenge(c, rBytes, publicBytes, message);
      s < ELL && c.compress(PointAdd(PointMul(s, BASEPOINT), PointNeg(PointMul(k, a)))) == rBytes
  }

  /** s * G - k * a * G is r * G for exactly one scalar s. */
  lemma EquationHasOneSolution(r: Scalar, k: Scalar, a: Scalar, s: Scalar)
    ensures PointAdd(PointMul(s, BASEPOINT), PointNeg(PointMul(k, PointMul(a, BASEPOINT)))) == PointMul(r, BASEPOINT)
            <==> s == ScalarAdd(r, ScalarMul(k, a))
  {
    hide ScalarMul, PointMul;
    BaseMulMul(k, a);
    var m := ScalarMul(k, a);
    BaseMul(m);
    BaseMul(s);
    BaseMul(r);
    Difference(s, m, r);
  }

  lemma Difference(s: Scalar, m: Scalar, r: Scalar)
    ensures PointAdd(8 * s, PointNeg(8 * m)) == 8 * r <==> s == ScalarAdd(r, m)
  {
    assert PointAdd(8 * s, PointNeg(8 * m)) == if s >= m then 8 * (s - m) else 8 * (s + ELL - m);
    assert ScalarAdd(r, m) == if r + m < ELL then r + m else r + m - ELL;
  }

  /**
    For every private scalar, message and nonce r: the signature made of r * G and s verifies
    exactly when s is r + k * a modulo ELL.
   */
  lemma VerifiesExactly(c: Suite, a: Scalar, message: seq<Byte>, r: Scalar, s: Scalar)
    requires Lawful(c)
    ensures var rBytes := AddressForScalar(c, r);
            var k := LeValue(c.sha512(rBytes + AddressForScalar(c, a) + message)) % ELL;
            Verify(c, AddressForScalar(c, a), message, rBytes + ScalarBytes(s)) <==> s == ScalarAdd(r, ScalarMul(k, a))
  {
    hide PointAdd, PointMul, PointNeg, ScalarMul, ScalarAdd, ScalarBytes;
    var rBytes, publicBytes := AddressForScalar(c, r), AddressForScalar(c, a);
    var k := Challenge(c, rBytes, publicBytes, message);
    var point := PointMul(a, BASEPOINT);
    var left := PointAdd(PointMul(s, BASEPOINT), PointNeg(PointMul(k, point)));
    assert c.decompress(c.compress(point)) == Some(point);
    var signature := rBytes + ScalarBytes(s);
    assert signature[..32] == rBytes && signature[32..] == ScalarBytes(s);
    ScalarRoundTrip(s);
    EquationHasOneSolution(r, k, a, s);
    assert c.decompress(c.compress(left)) == Some(left);
    assert c.decompress(c.compress(PointMul(r, BASEPOINT))) == Some(PointMul(r, BASEPOINT));
  }

  /** Every signature verifies, and s * G = R + k * A for the k the verifier recomputes. */
  lemma SignaturesVerify(c: Suite, scalar: Scalar, message: seq<Byte>)
    requires Lawful(c)
    ensures var key := NewKey(c, scalar);
            var signature := Sign(c, key, message);
            var s := LeValue(signature[32..]);
            var k := LeValue(c.sha512(signature[..32] + PublicBytes(c, key) + message)) % ELL;
            && Verify(c, PublicBytes(c, key), message, signature)
            && s < ELL
            && c.decompress(signature[..32]).Some?
            && PointMul(s, BASEPOINT) == PointAdd(c.decompress(signature[..32]).value, PointMul(k, key.publicPoint))
  {
    hide PointAdd, PointMul, PointNeg, ScalarMul, ScalarAdd, ScalarBytes;
    var key := NewKey(c, scalar);
    var r := Nonce(c, key, message);
    var rBytes := AddressForScalar(c, r);
    var k := Challenge(c, rBytes, PublicBytes(c, key), message);
    var s := ScalarAdd(r, ScalarMul(k, scalar));
    var signature := Sign(c, key, message);
    assert signature == rBytes + ScalarBytes(s);
    assert signature[..32] == rBytes && signature[32..] == ScalarBytes(s);
    VerifiesExactly(c, scalar, message, r, s);
    ScalarRoundTrip(s);
    assert c.decompress(c.compress(PointMul(r, BASEPOINT))) == Some(PointMul(r, BASEPOINT));
    BaseMulMul(k, scalar);
    BaseHomomorphism(r, ScalarMul(k, scalar));
  }

  // ---- Where the nonce comes from ----

  /** `slnt-v1-nonce`. */
  const NONCE_TAG: seq<Byte> :=
    [0x73, 0x6c, 0x6e, 0x74, 0x2d, 0x76, 0x31, 0x2d, 0x6e, 0x6f, 0x6e, 0x63, 0x65]

  /** The key's prefix is the second half of the hash of the tag and the scalar. */
  lemma PrefixIs(c: Suite, scalar: Scalar)
    ensures NewKey(c, scalar).hashPrefix == c.sha512(NONCE_TAG + LeBytes(scalar, 32))[32..64]
    ensures NewKey(c, scalar).scalar == scalar
    ensures PublicBytes(c, NewKey(c, scalar)) == c.compress(PointMul(scalar, BASEPOINT))
  {
    assert "slnt-v1-nonce" == ['s', 'l', 'n', 't', '-', 'v', '1', '-', 'n', 'o', 'n', 'c', 'e'];
    assert Ascii("slnt-v1-nonce") == NONCE_TAG;
  }

  /** The first half of a signature is r * G, with r the hash of the prefix and the whole message. */
  lemma NonceIs(c: Suite, scalar: Scalar, message: seq<Byte>)
    ensures var key := NewKey(c, scalar);
            Sign(c, key, message)[..32] ==
            c.compress(PointMul(LeValue(c.sha512(key.hashPrefix + message)) % ELL, BASEPOINT))
  {
    hide PointMul, ScalarMul, ScalarAdd;
  }

  /**
    Two signatures by one key share their nonce exactly when the hash of the prefix and the
    message does, and it is asked about different inputs whenever the messages differ.
   */
  lemma NoncesRepeatExactly(c: Suite, scalar: Scalar, m1: seq<Byte>, m2: seq<Byte>)
    requires Lawful(c)
    ensures var key := NewKey(c, scalar);
            && (Sign(c, key, m1)[..32] == Sign(c, key, m2)[..32] <==>
                LeValue(c.sha512(key.hashPrefix + m1)) % ELL == LeValue(c.sha512(key.hashPrefix + m2)) % ELL)
            && (key.hashPrefix + m1 == key.hashPrefix + m2 <==> m1 == m2)
  {
    hide PointMul, Sign;
    var key := NewKey(c, scalar);
    NonceIs(c, scalar, m1);
    NonceIs(c, scalar, m2);
    SameAddress(c, LeValue(c.sha512(key.hashPrefix + m1)) % ELL, LeValue(c.sha512(key.hashPrefix + m2)) % ELL);
    assert (key.hashPrefix + m1)[32..] == m1 && (key.hashPrefix + m2)[32..] == m2;
  }

  /** The TypeScript SDK produces the same 64 bytes, except that it throws on a zero scalar or nonce. */
  lemma TsSignsTheSame(c: Suite, scalar: Scalar, message: seq<Byte>)
    ensures var key := NewKey(c, scalar);
            TsSign(c, scalar, message) ==
            if scalar == 0 || Nonce(c, key, message) == 0 then None else Some(Sign(c, key, message))
  {
  }

  /** A zero nonce does occur under some lawful primitives; then Rust signs and TypeScript throws. */
  lemma ZeroNonceThrows(scalar: Scalar, message: seq<Byte>)
    ensures Lawful(CANCELLING) && Nonce(CANCELLING, NewKey(CANCELLING, scalar), message) == 0
    ensures TsSign(CANCELLING, scalar, message) == None
  {
    hide Lawful;
    CancellingIsLawful();
    ZeroValue(CANCELLING.sha512(NewKey(CANCELLING, scalar).hashPrefix + message));
    TsSignsTheSame(CANCELLING, scalar, message);
  }

  /** Labels come in order, and each candidate's scalar signs for its address. */
  lemma CandidatesSpendable(
      c: Suite, spend: SpendKey, scan: ScanKey, ephemeralPub: Bytes32, viewTag: Byte, knownLabels: seq<U32>, i: nat,
      message: seq<Byte>)
    requires Lawful(c) && i < |Candidates(c, spend, scan, ephemeralPub, viewTag, knownLabels)|
    ensures var out := Candidates(c, spend, scan, ephemeralPub, viewTag, knownLabels);
            && |out| == 1 + |NonZero(knownLabels)|
            && out[i].labelIndex == ([0] + NonZero(knownLabels))[i]
            && Verify(c, out[i].stealthAddress, message, Sign(c, NewKey(c, out[i].stealthScalar), message))
  {
    hide Verify, Sign, PointMul, ViewTagMatches, NonZero, LabelScalar, ComputeTweak;
    SignaturesVerify(c, Candidates(c, spend, scan, ephemeralPub, viewTag, knownLabels)[i].stealthScalar, message);
  }

  /**
    Spendability: the key a recipient reads off the matching candidate signs for the very
    address the sender paid.
   */
  lemma RecoveredKeySigns(
      c: Suite, spend: SpendKey, scan: ScanKey, labelIndex: U32, r: Bytes32, knownLabels: seq<U32>, message: seq<Byte>)
    requires Lawful(c) && KeyPair(c, spend, scan)
    requires DerivePayment(c, ForLabel(c, spend, scan, labelIndex), r).Ok?
    requires labelIndex == 0 || labelIndex in knownLabels
    ensures var p := DerivePayment(c, ForLabel(c, spend, scan, labelIndex), r).value;
            exists m :: m in Candidates(c, spend, scan, p.ephemeralPub, p.viewTag, knownLabels) &&
              m.labelIndex == labelIndex && m.stealthAddress == p.stealthAddress &&
              Verify(c, p.stealthAddress, message, Sign(c, NewKey(c, m.stealthScalar), message))
  {
    hide Verify, Sign, Candidates, ForLabel, DerivePayment, PointMul;
    LabelledAgreement(c, spend, scan, labelIndex, r, knownLabels);
    var p := DerivePayment(c, ForLabel(c, spend, scan, labelIndex), r).value;
    var m :| m in Candidates(c, spend, scan, p.ephemeralPub, p.viewTag, knownLabels) &&
             m.labelIndex == labelIndex && m.stealthAddress == p.stealthAddress &&
             AddressForScalar(c, m.stealthScalar) == p.stealthAddress;
    SignaturesVerify(c, m.stealthScalar, message);
  }
}
