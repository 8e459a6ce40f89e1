/**
  The TypeScript SDK's keys, sender and scanner. They compute what the Rust SDK computes, except
  that @noble/curves throws where a point is multiplied by zero.
 */
module StealthTypescript {
  import opened Results
  import opened Bytes
  import opened StealthGroup
  import opened Leb128
  import opened MetaAddressCodec
  import opened Stealth

  /** An `SlntError` of the SDK's own, or an error of the curve library it does not catch. */
  datatype TsError = Thrown(error: SlntError) | LibraryError

  /** `StealthKeys`. */
  datatype StealthKeys = StealthKeys(scalar: Scalar, bSpend: Bytes32, bScanRaw: Bytes32, bScan: Bytes32)

  /** @noble/curves refuses to multiply the base point by zero. */
  function TsMultiplyBase(k: Scalar): Option<Point> {
    if k == 0 then None else Some(PointMul(k, BASEPOINT))
  }

  /** `keysFromSecrets`. */
  function TsKeysFromSecrets(c: Suite, spendRaw: Bytes32, scanRaw: Bytes32): Result<StealthKeys, TsError> {
    var b := ScReduce(spendRaw);
    if b == 0 then Err(Thrown(Derivation))
    else
      match TsMultiplyBase(b)
      case None => Err(LibraryError)
      case Some(point) => Ok(StealthKeys(b, c.compress(point), scanRaw, c.x25519(scanRaw, X25519_BASE)))
  }

  /** `labelTweakScalar`. */
  function TsLabelTweak(c: Suite, bScanRaw: Bytes32, labelIndex: U32): Scalar {
    ScReduce(c.hkdf(Ascii("slnt-v1-label"), bScanRaw, Ascii("label-") + Encode(labelIndex)))
  }

  /** `metaForLabel`. */
  function TsMetaForLabel(c: Suite, keys: StealthKeys, labelIndex: U32): Result<MetaAddress, TsError> {
    if labelIndex == 0 then Ok(MetaAddress(META_ADDRESS_VERSION_V1, keys.bSpend, keys.bScan, 0, 0))
    else
      match (c.decompress(keys.bSpend), TsMultiplyBase(TsLabelTweak(c, keys.bScanRaw, labelIndex)))
      case (Some(base), Some(tweak)) =>
        Ok(MetaAddress(META_ADDRESS_VERSION_V1, c.compress(PointAdd(base, tweak)), keys.bScan, labelIndex, 0))
      case (_, _) => Err(LibraryError)
  }

  /** `derivePayment`. */
  function TsDerivePayment(c: Suite, meta: MetaAddress, r: Bytes32): Result<StealthPayment, TsError> {
    if meta.version != META_ADDRESS_VERSION_V1 then Err(Thrown(BadVersion(meta.version)))
    else if meta.flags != 0 then Err(Thrown(BadFlags(meta.flags)))
    else
      match c.decompress(meta.bSpend)
      case None => Err(Thrown(InvalidPoint))
      case Some(bSpend) =>
        if PointMul(8, bSpend) == IDENTITY then Err(Thrown(InvalidPoint))
        else if !IsTorsionFree(bSpend) then Err(Thrown(InvalidPoint))
        else
          var s := c.x25519(r, meta.bScan);
          if SharedSecretIsZero(s) then Err(Thrown(InvalidSharedSecret))
          else
            var viewTag := ComputeViewTag(c, s);
            match TsMultiplyBase(ComputeTweak(c, s, viewTag))
            case None => Err(LibraryError)
            case Some(tweak) =>
              Ok(StealthPayment(c.compress(PointAdd(bSpend, tweak)), c.x25519(r, X25519_BASE), viewTag))
  }

  /** The scan throws, and with it every candidate is lost, if any candidate's scalar is zero. */
  function Unthrown(found: seq<NoteMatch>): Option<seq<NoteMatch>> {
    if exists i :: 0 <= i < |found| && found[i].stealthScalar == 0 then None else Some(found)
  }

  /** `addrMatch`. */
  function TsMatch(c: Suite, scalar: Scalar, labelIndex: U32): Option<NoteMatch> {
    match TsMultiplyBase(scalar)
    case None => None
    case Some(point) => Some(NoteMatch(c.compress(point), scalar, labelIndex))
  }

  /** `scanNoteCandidates`; `None` where the library throws. */
  method TsScanNoteCandidates(
      c: Suite, keys: StealthKeys, ephemeralPub: Bytes32, viewTag: Byte, knownLabels: seq<U32>,
      ghost spend: SpendKey, ghost scan: ScanKey)
      returns (r: Option<seq<NoteMatch>>)
    requires keys == KeysOf(c, spend, scan) && KeyPair(c, spend, scan)
    ensures r == Unthrown(Candidates(c, spend, scan, ephemeralPub, viewTag, knownLabels))
  {
    hide ComputeTweak, ComputeViewTag, PointMul, TsLabelTweak, TsMatch, Candidate, SharedSecretIsZero;
    var s := c.x25519(keys.bScanRaw, ephemeralPub);
    if SharedSecretIsZero(s) {
      return Some([]);
    }
    if ComputeViewTag(c, s) != viewTag {
      return Some([]);
    }
    var t := ComputeTweak(c, s, viewTag);
    ghost var labels := [0] + NonZero(knownLabels);
    ghost var found := Candidates(c, spend, scan, ephemeralPub, viewTag, knownLabels);
    assert |found| == |labels|;
    assert forall i | 0 <= i < |labels| :: found[i] == Candidate(c, spend, scan, labels[i], t);
    hide Candidates;
    MatchIsCandidate(c, spend, scan, 0, t);
    var first := TsMatch(c, (keys.scalar + t) % ELL, 0);
    if first.None? {
      assert found[0].stealthScalar == 0;
      return None;
    }
    var out := [first.value];
    for n := 0 to |knownLabels|
      invariant |out| == 1 + |NonZero(knownLabels[..n])| <= |found|
      invariant forall i | 0 <= i < |out| :: out[i] == found[i] && out[i].stealthScalar != 0
    {
      var i := knownLabels[n];
      NextLabel(knownLabels, n);
      if i == 0 {
        continue;
      }
      MatchIsCandidate(c, spend, scan, i, t);
      var m := TsLabelTweak(c, keys.bScanRaw, i);
      var next := TsMatch(c, (keys.scalar + m + t) % ELL, i);
      assert found[|out|] == Candidate(c, spend, scan, i, t);
      if next.None? {
        return None;
      }
      out := out + [next.value];
    }
    assert knownLabels[..|knownLabels|] == knownLabels;
    assert out == found;
    return Some(out);
  }

  /** The sum taken modulo ELL at once is the one taken step by step. */
  lemma MatchIsCandidate(c: Suite, spend: SpendKey, scan: ScanKey, labelIndex: U32, t: Scalar)
    ensures var m := if labelIndex == 0 then 0 else TsLabelTweak(c, scan.raw, labelIndex);
            var found := Candidate(c, spend, scan, labelIndex, t);
            TsMatch(c, (spend.scalar + m + t) % ELL, labelIndex) ==
            if found.stealthScalar == 0 then None else Some(found)
  {
    hide PointMul, ScReduce, ScalarAdd;
    FlatSum(spend.scalar, LabelScalar(c, scan, labelIndex), t);
  }

  lemma FlatSum(b: Scalar, m: Scalar, t: Scalar)
    ensures (b + m + t) % ELL == ScalarAdd(ScalarAdd(b, m), t)
  {
  }

  /** Where the next known label stands among the non-zero ones. */
  lemma {:induction false} NextLabel(labels: seq<U32>, n: nat)
    requires n < |labels|
    ensures var k := |NonZero(labels[..n])|;
            if labels[n] == 0 then |NonZero(labels[..n + 1])| == k
            else |NonZero(labels[..n + 1])| == k + 1 <= |NonZero(labels)| && NonZero(labels)[k] == labels[n]
  {
    assert labels[..n + 1][..n] == labels[..n];
    if n + 1 < |labels| {
      var before := labels[..|labels| - 1];
      NextLabel(before, n);
      assert before[..n] == labels[..n] && before[..n + 1] == labels[..n + 1];
    } else {
      assert labels[..n + 1] == labels;
    }
  }

  // ---- Agreement with the Rust SDK ----

  /** The same keys, as the TypeScript SDK holds them. */
  function KeysOf(c: Suite, spend: SpendKey, scan: ScanKey): StealthKeys {
    StealthKeys(spend.scalar, c.compress(spend.point), scan.raw, scan.public)
  }

  /** Key derivation always agrees. */
  lemma TsDerivesTheSameKeys(c: Suite, spendRaw: Bytes32, scanRaw: Bytes32)
    ensures TsKeysFromSecrets(c, spendRaw, scanRaw) ==
            match KeysFromSecrets(c, spendRaw, scanRaw)
            case Err(e) => Err(Thrown(e))
            case Ok((spend, scan)) => Ok(KeysOf(c, spend, scan))
  {
  }

  /** The published address agrees unless the label's tweak is zero. */
  lemma TsPublishesTheSame(c: Suite, spend: SpendKey, scan: ScanKey, labelIndex: U32)
    requires Lawful(c)
    ensures TsMetaForLabel(c, KeysOf(c, spend, scan), labelIndex) ==
            if labelIndex != 0 && LabelTweakScalar(c, scan, labelIndex) == 0 then Err(LibraryError)
            else Ok(ForLabel(c, spend, scan, labelIndex))
  {
    hide ScReduce, PointMul, PointAdd;
    assert c.decompress(c.compress(spend.point)) == Some(spend.point);
  }

  /** For any address at all, sending agrees unless the payment's tweak is zero. */
  lemma TsPaysTheSame(c: Suite, meta: MetaAddress, r: Bytes32)
    ensures TsDerivePayment(c, meta, r) ==
            match DerivePayment(c, meta, r)
            case Err(e) => Err(Thrown(e))
            case Ok(p) => if ComputeTweak(c, c.x25519(r, meta.bScan), p.viewTag) == 0 then Err(LibraryError) else Ok(p)
  {
    hide ComputeTweak, ComputeViewTag;
  }

  /**
    Both conditions can fail: lawful primitives under which a payment that Rust sends makes
    TypeScript throw, and under which one zero candidate hides the unlabelled one.
   */
  lemma ZeroScalarThrows(scanRaw: Bytes32, ephemeralPub: Bytes32, labelIndex: U32, r: Bytes32)
    requires labelIndex != 0
    ensures var (c, spend, scan) := (CANCELLING, SpendKey(1, BASEPOINT), FromRaw(CANCELLING, scanRaw));
            var meta := ForLabel(c, spend, scan, 0);
            var found := Candidates(c, spend, scan, ephemeralPub, 0, [labelIndex]);
            && Lawful(c) && KeyPair(c, spend, scan)
            && DerivePayment(c, meta, r).Ok? && TsDerivePayment(c, meta, r) == Err(LibraryError)
            && |found| == 2 && found[0].stealthScalar == 1 && found[1].stealthScalar == 0
            && Unthrown(found) == None
  {
    hide Lawful, PointMul, LabelTweakScalar, DerivePayment, TsDerivePayment, ForLabel;
    var (c, spend, scan) := (CANCELLING, SpendKey(1, BASEPOINT), FromRaw(CANCELLING, scanRaw));
    LabelCanCancel(scanRaw, labelIndex, r);
    TsPaysTheSame(c, ForLabel(c, spend, scan, 0), r);
    forall s: Bytes32, viewTag: Byte
      ensures ComputeViewTag(c, s) == 0 && ComputeTweak(c, s, viewTag) == 0
    {
      ZeroHash(s, viewTag);
    }
    TweakCancels(scan, labelIndex);
    assert c.x25519(scan.secret, ephemeralPub)[0] == 1;
    assert [labelIndex][..0] == [];
    assert NonZero([]) == [] && NonZero([labelIndex]) == [labelIndex];
  }

  lemma ZeroHash(s: Bytes32, viewTag: Byte)
    ensures ComputeViewTag(CANCELLING, s) == 0
    ensures ComputeTweak(CANCELLING, s, viewTag) == 0
  {
    ZeroValue(CANCELLING.sha256(TweakPrefix() + s + [viewTag]));
    assert CANCELLING.sha256(TweakPrefix() + s)[0] == 0;
  }

  lemma {:induction false} ZeroValue(bs: seq<Byte>)
    requires forall i | 0 <= i < |bs| :: bs[i] == 0
    ensures LeValue(bs) == 0
  {
    if bs != [] {
      ZeroValue(bs[1..]);
    }
  }
}
