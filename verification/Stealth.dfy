/** Stealth keys, sender derivation and recipient scanning (sections 5.2 to 5.4 of sRFC-0042). */
module Stealth {
  import opened Results
  import opened Bytes
  import opened Wire
  import opened StealthGroup
  import opened Leb128
  import opened MetaAddressCodec

  type Bytes64 = s: seq<Byte> | |s| == 64 witness seq(64, _ => 0)

  /** The primitives the protocol is built on; `x25519` clamps its first argument itself. */
  datatype Suite = Suite(
    compress: Point -> Bytes32,
    decompress: Bytes32 -> Option<Point>,
    x25519: (Bytes32, Bytes32) -> Bytes32,
    sha256: seq<Byte> -> Bytes32,
    sha512: seq<Byte> -> Bytes64,
    hkdf: (seq<Byte>, seq<Byte>, seq<Byte>) -> Bytes32)

  /** The X25519 base point, u = 9. */
  const X25519_BASE: Bytes32 := [9] + seq(31, _ => 0)

  /** All that is assumed: points survive their encoding, and X25519 commutes (section 6.1 of RFC 7748). */
  ghost predicate Lawful(c: Suite) {
    && (forall p: Point :: c.decompress(c.compress(p)) == Some(p))
    && (forall a: Bytes32, b: Bytes32 :: c.x25519(a, c.x25519(b, X25519_BASE)) == c.x25519(b, c.x25519(a, X25519_BASE)))
  }

  datatype SpendKey = SpendKey(scalar: Scalar, point: Point)

  datatype ScanKey = ScanKey(raw: Bytes32, secret: Bytes32, public: Bytes32)

  datatype SlntError =
    | Derivation
    | InvalidPoint
    | InvalidSharedSecret
    | BadVersion(version: Byte)
    | BadFlags(flags: Byte)

  datatype StealthPayment = StealthPayment(stealthAddress: Bytes32, ephemeralPub: Bytes32, viewTag: Byte)

  datatype NoteMatch = NoteMatch(stealthAddress: Bytes32, stealthScalar: Scalar, labelIndex: U32)

  // ---- Keys (keys.rs) ----

  /** `ScanKey::from_raw`. */
  function FromRaw(c: Suite, raw: Bytes32): ScanKey {
    ScanKey(raw, raw, c.x25519(raw, X25519_BASE))
  }

  /** `keys_from_secrets`. */
  function KeysFromSecrets(c: Suite, spendRaw: Bytes32, scanRaw: Bytes32): Result<(SpendKey, ScanKey), SlntError> {
    var b := ScReduce(spendRaw);
    if b == 0 then Err(Derivation)
    else Ok((SpendKey(b, PointMul(b, BASEPOINT)), ScanKey(scanRaw, scanRaw, c.x25519(scanRaw, X25519_BASE))))
  }

  /** `label_tweak_scalar`: the label is appended to the HKDF info as its minimal varint. */
  function LabelTweakScalar(c: Suite, scan: ScanKey, labelIndex: U32): Scalar {
    ScReduce(c.hkdf(Ascii("slnt-v1-label"), scan.raw, Ascii("label-") + Encode(labelIndex)))
  }

  /** `from_keys`. */
  function FromKeys(c: Suite, spend: SpendKey, scan: ScanKey): MetaAddress {
    MetaAddress(META_ADDRESS_VERSION_V1, c.compress(spend.point), scan.public, 0, 0)
  }

  /** `for_label`. */
  function ForLabel(c: Suite, spend: SpendKey, scan: ScanKey, labelIndex: U32): MetaAddress {
    if labelIndex == 0 then FromKeys(c, spend, scan)
    else
      var m := LabelTweakScalar(c, scan, labelIndex);
      var labelled := PointAdd(spend.point, PointMul(m, BASEPOINT));
      MetaAddress(META_ADDRESS_VERSION_V1, c.compress(labelled), scan.public, labelIndex, 0)
  }

  // ---- Sender (sender.rs) ----

  predicate SharedSecretIsZero(s: Bytes32) {
    forall i | 0 <= i < 32 :: s[i] == 0
  }

  /** The tag with its one-byte length prefix. */
  function TweakPrefix(): seq<Byte> {
    [|"slnt-v1-tweak"|] + Ascii("slnt-v1-tweak")
  }

  function ComputeViewTag(c: Suite, s: Bytes32): Byte {
    c.sha256(TweakPrefix() + s)[0]
  }

  function ComputeTweak(c: Suite, s: Bytes32, viewTag: Byte): Scalar {
    ScReduce(c.sha256(TweakPrefix() + s + [viewTag]))
  }

  /** `derive_payment`, with the random bytes it draws as a parameter. */
  function DerivePayment(c: Suite, meta: MetaAddress, r: Bytes32): Result<StealthPayment, SlntError> {
    if meta.version != META_ADDRESS_VERSION_V1 then Err(BadVersion(meta.version))
    else if meta.flags != 0 then Err(BadFlags(meta.flags))
    else
      match c.decompress(meta.bSpend)
      case None => Err(InvalidPoint)
      case Some(bSpend) =>
        if IsSmallOrder(bSpend) || !IsTorsionFree(bSpend) then Err(InvalidPoint)
        else
          var rPublic := c.x25519(r, X25519_BASE);
          var s := c.x25519(r, meta.bScan);
          if SharedSecretIsZero(s) then Err(InvalidSharedSecret)
          else
            var viewTag := ComputeViewTag(c, s);
            var t := ComputeTweak(c, s, viewTag);
            Ok(StealthPayment(c.compress(PointAdd(bSpend, PointMul(t, BASEPOINT))), rPublic, viewTag))
  }

  // ---- Recipient (recipient.rs) ----

  /** `address_for_scalar`. */
  function AddressForScalar(c: Suite, k: Scalar): Bytes32 {
    c.compress(PointMul(k, BASEPOINT))
  }

  /** `scan_note`: the address comes from the spend point, the scalar from the spend scalar. */
  function ScanNote(c: Suite, spend: SpendKey, scan: ScanKey, ephemeralPub: Bytes32, viewTag: Byte): Option<NoteMatch> {
    var s := c.x25519(scan.secret, ephemeralPub);
    if SharedSecretIsZero(s) then None
    else if ComputeViewTag(c, s) != viewTag then None
    else
      var t := ComputeTweak(c, s, viewTag);
      var point := PointAdd(spend.point, PointMul(t, BASEPOINT));
      Some(NoteMatch(c.compress(point), ScalarAdd(spend.scalar, t), 0))
  }

  /** `view_tag_matches`. */
  predicate ViewTagMatches(c: Suite, scan: ScanKey, ephemeralPub: Bytes32, viewTag: Byte) {
    var s := c.x25519(scan.secret, ephemeralPub);
    !SharedSecretIsZero(s) && ComputeViewTag(c, s) == viewTag
  }

  /** The label's contribution to the spend scalar; the unlabelled address has none. */
  function LabelScalar(c: Suite, scan: ScanKey, labelIndex: U32): Scalar {
    if labelIndex == 0 then 0 else LabelTweakScalar(c, scan, labelIndex)
  }

  /** The candidate under one label, for tweak `t`. */
  function Candidate(c: Suite, spend: SpendKey, scan: ScanKey, labelIndex: U32, t: Scalar): NoteMatch {
    var k := ScalarAdd(ScalarAdd(spend.scalar, LabelScalar(c, scan, labelIndex)), t);
    NoteMatch(AddressForScalar(c, k), k, labelIndex)
  }

  function NonZero(labels: seq<U32>): seq<U32> {
    if labels == [] then []
    else NonZero(labels[..|labels| - 1]) + if labels[|labels| - 1] == 0 then [] else [labels[|labels| - 1]]
  }

  /** One candidate for label 0 and one per non-zero known label, in the order given. */
  function Candidates(
      c: Suite, spend: SpendKey, scan: ScanKey, ephemeralPub: Bytes32, viewTag: Byte, knownLabels: seq<U32>)
      : seq<NoteMatch> {
    if !ViewTagMatches(c, scan, ephemeralPub, viewTag) then []
    else
      var t := ComputeTweak(c, c.x25519(scan.secret, ephemeralPub), viewTag);
      var labels := [0] + NonZero(knownLabels);
      seq(|labels|, i requires 0 <= i < |labels| => Candidate(c, spend, scan, labels[i], t))
  }

  /** `scan_note_candidates`. */
  method ScanNoteCandidates(
      c: Suite, spend: SpendKey, scan: ScanKey, ephemeralPub: Bytes32, viewTag: Byte, knownLabels: seq<U32>)
      returns (out: seq<NoteMatch>)
    ensures out == Candidates(c, spend, scan, ephemeralPub, viewTag, knownLabels)
  {
    var s := c.x25519(scan.secret, ephemeralPub);
    if SharedSecretIsZero(s) {
      return [];
    }
    if ComputeViewTag(c, s) != viewTag {
      return [];
    }
    var t := ComputeTweak(c, s, viewTag);
    var unlabelled := ScalarAdd(spend.scalar, t);
    out := [NoteMatch(AddressForScalar(c, unlabelled), unlabelled, 0)];
    assert ScalarAdd(spend.scalar, 0) == spend.scalar;
    ghost var labels := [0];
    for n := 0 to |knownLabels|
      invariant labels == [0] + NonZero(knownLabels[..n])
      invariant out == seq(|labels|, i requires 0 <= i < |labels| => Candidate(c, spend, scan, labels[i], t))
    {
      assert knownLabels[..n + 1][..n] == knownLabels[..n];
      var i := knownLabels[n];
      if i == 0 {
        continue;
      }
      var m := LabelTweakScalar(c, scan, i);
      var k := ScalarAdd(ScalarAdd(spend.scalar, m), t);
      out := out + [NoteMatch(AddressForScalar(c, k), k, i)];
      labels := labels + [i];
    }
    assert knownLabels[..|knownLabels|] == knownLabels;
  }

  // ---- Agreement ----

  /** What `keys_from_secrets` establishes about a key pair. */
  predicate KeyPair(c: Suite, spend: SpendKey, scan: ScanKey) {
    && spend.scalar != 0
    && spend.point == PointMul(spend.scalar, BASEPOINT)
    && scan == FromRaw(c, scan.raw)
  }

  /** The secret behind a published spend key. */
  function EffectiveScalar(c: Suite, spend: SpendKey, scan: ScanKey, labelIndex: U32): Scalar {
    ScalarAdd(spend.scalar, LabelScalar(c, scan, labelIndex))
  }

  lemma KeysFromSecretsExactly(c: Suite, spendRaw: Bytes32, scanRaw: Bytes32)
    ensures KeysFromSecrets(c, spendRaw, scanRaw).Err? <==> LeValue(spendRaw) % ELL == 0
    ensures KeysFromSecrets(c, spendRaw, scanRaw).Ok? ==>
              var (spend, scan) := KeysFromSecrets(c, spendRaw, scanRaw).value;
              KeyPair(c, spend, scan) && scan.raw == scanRaw && spend.scalar == LeValue(spendRaw) % ELL
  {
  }

  /** The published key, labelled or not, is its effective scalar times the base point. */
  lemma PublishedKey(c: Suite, spend: SpendKey, scan: ScanKey, labelIndex: U32)
    requires KeyPair(c, spend, scan)
    ensures ForLabel(c, spend, scan, labelIndex) ==
            MetaAddress(META_ADDRESS_VERSION_V1,
                        AddressForScalar(c, EffectiveScalar(c, spend, scan, labelIndex)), scan.public, labelIndex, 0)
  {
    if labelIndex == 0 {
      assert ScalarAdd(spend.scalar, 0) == spend.scalar;
    } else {
      BaseHomomorphism(spend.scalar, LabelTweakScalar(c, scan, labelIndex));
    }
  }

  /**
    Exactly when a sender can pay a recipient's own address: the subgroup check rejects it if
    and only if its effective scalar is zero (never for label 0), and otherwise only an
    all-zero shared secret stops the payment.
   */
  lemma PayableExactly(c: Suite, spend: SpendKey, scan: ScanKey, labelIndex: U32, r: Bytes32)
    requires Lawful(c) && KeyPair(c, spend, scan)
    ensures var k := EffectiveScalar(c, spend, scan, labelIndex);
            var s := c.x25519(r, scan.public);
            DerivePayment(c, ForLabel(c, spend, scan, labelIndex), r) ==
            if k == 0 then Err(InvalidPoint)
            else if SharedSecretIsZero(s) then Err(InvalidSharedSecret)
            else
              var viewTag := ComputeViewTag(c, s);
              Ok(StealthPayment(AddressForScalar(c, ScalarAdd(k, ComputeTweak(c, s, viewTag))),
                                c.x25519(r, X25519_BASE), viewTag))
    ensures labelIndex == 0 ==> EffectiveScalar(c, spend, scan, labelIndex) != 0
  {
    hide ComputeViewTag, ComputeTweak, SharedSecretIsZero, LabelTweakScalar, ScalarAdd;
    var k := EffectiveScalar(c, spend, scan, labelIndex);
    var point := PointMul(k, BASEPOINT);
    assert labelIndex == 0 ==> k == spend.scalar by {
      AddZero(spend.scalar);
    }
    PublishedKey(c, spend, scan, labelIndex);
    assert c.decompress(c.compress(point)) == Some(point);
    SubgroupCheckOnMultiple(k);
    var s := c.x25519(r, scan.public);
    BaseHomomorphism(k, ComputeTweak(c, s, ComputeViewTag(c, s)));
  }

  lemma AddZero(a: Scalar)
    ensures ScalarAdd(a, 0) == a
  {
  }

  lemma SubgroupCheckOnMultiple(k: Scalar)
    ensures var p := PointMul(k, BASEPOINT);
            IsSmallOrder(p) || !IsTorsionFree(p) <==> k == 0
  {
    var p := PointMul(k, BASEPOINT);
    BaseMul(k);
    TorsionFreeIffMultipleOfEight(p);
    SmallOrderIffMultipleOfEll(p);
    NoCommonMultiple(k);
  }

  lemma {:induction false} NonZeroKeeps(labels: seq<U32>, i: U32)
    ensures i in NonZero(labels) <==> i != 0 && i in labels
  {
    if labels != [] {
      NonZeroKeeps(labels[..|labels| - 1], i);
      assert labels == labels[..|labels| - 1] + [labels[|labels| - 1]];
    }
  }

  /**
    Sender/recipient agreement. Whatever payment a sender derives from the address published
    under label `i`, a recipient who knows the label finds a candidate carrying it whose
    address is the payment's and whose scalar is the private key of that address.
   */
  lemma LabelledAgreement(
      c: Suite, spend: SpendKey, scan: ScanKey, labelIndex: U32, r: Bytes32, knownLabels: seq<U32>)
    requires Lawful(c) && KeyPair(c, spend, scan)
    requires DerivePayment(c, ForLabel(c, spend, scan, labelIndex), r).Ok?
    requires labelIndex == 0 || labelIndex in knownLabels
    ensures var p := DerivePayment(c, ForLabel(c, spend, scan, labelIndex), r).value;
            exists m :: m in Candidates(c, spend, scan, p.ephemeralPub, p.viewTag, knownLabels) &&
              m.labelIndex == labelIndex && m.stealthAddress == p.stealthAddress &&
              AddressForScalar(c, m.stealthScalar) == p.stealthAddress
  {
    hide ComputeViewTag, ComputeTweak, SharedSecretIsZero, LabelTweakScalar, ScalarAdd, DerivePayment, ForLabel,
         LabelScalar;
    PayableExactly(c, spend, scan, labelIndex, r);
    var p := DerivePayment(c, ForLabel(c, spend, scan, labelIndex), r).value;
    var s := c.x25519(r, scan.public);
    assert s == c.x25519(scan.secret, p.ephemeralPub);
    var t := ComputeTweak(c, s, p.viewTag);
    var labels := [0] + NonZero(knownLabels);
    NonZeroKeeps(knownLabels, labelIndex);
    assert labelIndex in labels;
    var i :| 0 <= i < |labels| && labels[i] == labelIndex;
    var out := Candidates(c, spend, scan, p.ephemeralPub, p.viewTag, knownLabels);
    assert out[i] == Candidate(c, spend, scan, labelIndex, t);
    assert out[i] in out;
  }

  /** The recipient's scan passes a note with the payment's `R` exactly if it carries the payment's view tag. */
  lemma PaymentTag(c: Suite, spend: SpendKey, scan: ScanKey, labelIndex: U32, r: Bytes32, viewTag: Byte)
    requires Lawful(c) && KeyPair(c, spend, scan)
    requires DerivePayment(c, ForLabel(c, spend, scan, labelIndex), r).Ok?
    ensures var p := DerivePayment(c, ForLabel(c, spend, scan, labelIndex), r).value;
            ViewTagMatches(c, scan, p.ephemeralPub, viewTag) <==> viewTag == p.viewTag
  {
    hide ComputeViewTag, ComputeTweak, SharedSecretIsZero, LabelTweakScalar, ScalarAdd, DerivePayment, ForLabel,
         LabelScalar;
    PayableExactly(c, spend, scan, labelIndex, r);
    var p := DerivePayment(c, ForLabel(c, spend, scan, labelIndex), r).value;
    assert c.x25519(r, scan.public) == c.x25519(scan.secret, p.ephemeralPub);
  }

  /**
    The delegated scanner's filter, run on a key rebuilt from the raw scan material alone,
    passes exactly the notes the full scan matches, and the first candidate is that match.
   */
  lemma FilterRefinesScan(
      c: Suite, spend: SpendKey, scan: ScanKey, ephemeralPub: Bytes32, viewTag: Byte, knownLabels: seq<U32>)
    requires KeyPair(c, spend, scan)
    ensures var filtered := ViewTagMatches(c, FromRaw(c, scan.raw), ephemeralPub, viewTag);
            var full := ScanNote(c, spend, scan, ephemeralPub, viewTag);
            var out := Candidates(c, spend, scan, ephemeralPub, viewTag, knownLabels);
            (filtered <==> full.Some?) && (filtered <==> out != []) && (filtered ==> out[0] == full.value)
  {
    hide ComputeViewTag, ComputeTweak, SharedSecretIsZero, LabelTweakScalar;
    if ViewTagMatches(c, scan, ephemeralPub, viewTag) {
      var t := ComputeTweak(c, c.x25519(scan.secret, ephemeralPub), viewTag);
      BaseHomomorphism(spend.scalar, t);
      AddZero(spend.scalar);
    }
  }

  /** All candidates from a log of notes. */
  function ScanLog(c: Suite, spend: SpendKey, scan: ScanKey, notes: seq<Note>, knownLabels: seq<U32>): seq<NoteMatch> {
    if notes == [] then []
    else
      Candidates(c, spend, scan, notes[0].ephemeralPub, notes[0].viewTag, knownLabels)
      + ScanLog(c, spend, scan, notes[1..], knownLabels)
  }

  /** What a delegated scanner forwards. */
  function Forwarded(c: Suite, scanRaw: Bytes32, notes: seq<Note>): seq<Note> {
    if notes == [] then []
    else
      (if ViewTagMatches(c, FromRaw(c, scanRaw), notes[0].ephemeralPub, notes[0].viewTag) then [notes[0]] else [])
      + Forwarded(c, scanRaw, notes[1..])
  }

  /** Delegating the filter to a view-only scanner loses and adds nothing. */
  lemma {:induction false} DelegationLosesNothing(
      c: Suite, spend: SpendKey, scan: ScanKey, notes: seq<Note>, knownLabels: seq<U32>)
    requires KeyPair(c, spend, scan)
    ensures ScanLog(c, spend, scan, Forwarded(c, scan.raw, notes), knownLabels) ==
            ScanLog(c, spend, scan, notes, knownLabels)
  {
    hide Candidates, ViewTagMatches, ScanNote;
    if notes != [] {
      DelegationLosesNothing(c, spend, scan, notes[1..], knownLabels);
      FilterRefinesScan(c, spend, scan, notes[0].ephemeralPub, notes[0].viewTag, knownLabels);
      var rest := Forwarded(c, scan.raw, notes[1..]);
      assert ([notes[0]] + rest)[1..] == rest;
      assert [] + rest == rest;
    }
  }

  // ---- A label nobody can pay ----

  /** A lawful suite whose label tweaks are all ELL - 1. */
  const CANCELLING: Suite := Suite(
    (p: Point) => LeBytes(p, 32),
    (bs: Bytes32) => if LeValue(bs) < ORDER then Some(LeValue(bs)) else None,
    (_: Bytes32, _: Bytes32) => [1] + seq(31, _ => 0),
    (_: seq<Byte>) => seq(32, _ => 0),
    (_: seq<Byte>) => seq(64, _ => 0),
    (_: seq<Byte>, _: seq<Byte>, _: seq<Byte>) => LeBytes(ELL - 1, 32))

  lemma CancellingIsLawful()
    ensures Lawful(CANCELLING)
  {
    forall p: Point
      ensures CANCELLING.decompress(CANCELLING.compress(p)) == Some(p)
    {
      PointRoundTrip(p);
    }
  }

  lemma TweakCancels(scan: ScanKey, labelIndex: U32)
    requires labelIndex != 0
    ensures EffectiveScalar(CANCELLING, SpendKey(1, BASEPOINT), scan, labelIndex) == 0
  {
    ScalarRoundTrip(ELL - 1);
  }

  /** Nothing in the primitives' laws keeps a label's tweak from cancelling the spend scalar. */
  lemma LabelCanCancel(scanRaw: Bytes32, labelIndex: U32, r: Bytes32)
    requires labelIndex != 0
    ensures var (c, spend, scan) := (CANCELLING, SpendKey(1, BASEPOINT), FromRaw(CANCELLING, scanRaw));
            && Lawful(c) && KeyPair(c, spend, scan)
            && DerivePayment(c, ForLabel(c, spend, scan, labelIndex), r) == Err(InvalidPoint)
            && DerivePayment(c, ForLabel(c, spend, scan, 0), r).Ok?
  {
    hide Lawful, DerivePayment, ForLabel, EffectiveScalar, ComputeViewTag, ComputeTweak;
    var (c, spend, scan) := (CANCELLING, SpendKey(1, BASEPOINT), FromRaw(CANCELLING, scanRaw));
    CancellingIsLawful();
    BaseMul(1);
    assert KeyPair(c, spend, scan);
    assert c.x25519(r, scan.public)[0] == 1;
    TweakCancels(scan, labelIndex);
    PayableExactly(c, spend, scan, labelIndex, r);
    PayableExactly(c, spend, scan, 0, r);
  }
}
