/**
  The meta-address payload (section 5.2.2 of sRFC-0042), between the bech32m layers: the Rust
  SDK's `encode_bech32m` / `decode_bech32m` and the TypeScript SDK's `encodeMetaAddress` /
  `decodeMetaAddress`.
 */
module MetaAddressCodec {
  import opened Results
  import opened Bytes
  import opened Leb128

  const META_ADDRESS_VERSION_V1: Byte := 1

  datatype MetaAddress = MetaAddress(version: Byte, bSpend: Bytes32, bScan: Bytes32, labelIndex: U32, flags: Byte)

  datatype DecodeError =
    | PayloadTooShort
    | UnsupportedVersion(version: Byte)
    | BadVarint(error: VarintError)
    | MissingFlags
    | TrailingBytes
    | UnsupportedFlags(flags: Byte)

  /** The payload layout, with the minimal varint. */
  function Payload(m: MetaAddress): seq<Byte> {
    [m.version] + m.bSpend + m.bScan + Encode(m.labelIndex) + [m.flags]
  }

  method EncodePayload(m: MetaAddress) returns (payload: seq<Byte>)
    ensures payload == Payload(m)
  {
    payload := [m.version];
    payload := payload + m.bSpend;
    payload := payload + m.bScan;
    payload := WriteLeb128U32(payload, m.labelIndex);
    payload := payload + [m.flags];
  }

  method TsEncodePayload(m: MetaAddress) returns (payload: seq<Byte>)
    ensures payload == Payload(m)
  {
    var varint := TsLeb128Encode(m.labelIndex);
    payload := [m.version] + m.bSpend + m.bScan + varint + [m.flags];
  }

  /** `decode_bech32m` after the bech32m layer and the human-readable-part check. */
  function RustParsed(data: seq<Byte>): Result<MetaAddress, DecodeError> {
    if |data| < 67 then Err(PayloadTooShort)
    else if data[0] != META_ADDRESS_VERSION_V1 then Err(UnsupportedVersion(data[0]))
    else
      match RustDecoded(data[65..])
      case Err(e) => Err(BadVarint(e))
      case Ok((index, consumed)) =>
        var flagsOffset := 65 + consumed;
        if |data| <= flagsOffset then Err(MissingFlags)
        else if |data| != flagsOffset + 1 then Err(TrailingBytes)
        else if data[flagsOffset] != 0 then Err(UnsupportedFlags(data[flagsOffset]))
        else Ok(MetaAddress(data[0], data[1..33], data[33..65], index, data[flagsOffset]))
  }

  /** `decodeMetaAddress`: one length check covers both a missing flags byte and trailing bytes. */
  function TsParsed(data: seq<Byte>): Result<MetaAddress, DecodeError> {
    if |data| < 67 then Err(PayloadTooShort)
    else if data[0] != META_ADDRESS_VERSION_V1 then Err(UnsupportedVersion(data[0]))
    else
      match TsDecoded(data[65..])
      case Err(e) => Err(BadVarint(e))
      case Ok((index, consumed)) =>
        var flagsOffset := 65 + consumed;
        if |data| != flagsOffset + 1 then Err(TrailingBytes)
        else if data[flagsOffset] != 0 then Err(UnsupportedFlags(data[flagsOffset]))
        else Ok(MetaAddress(data[0], data[1..33], data[33..65], index, data[flagsOffset]))
  }

  /** Serialized addresses have 67 to 71 bytes and parse back in both SDKs exactly when they are v1. */
  lemma PayloadRoundTrip(m: MetaAddress)
    ensures 67 <= |Payload(m)| <= 71
    ensures RustParsed(Payload(m)) ==
            if m.version != META_ADDRESS_VERSION_V1 then Err(UnsupportedVersion(m.version))
            else if m.flags != 0 then Err(UnsupportedFlags(m.flags))
            else Ok(m)
    ensures TsParsed(Payload(m)) == RustParsed(Payload(m))
  {
    var data := Payload(m);
    PayloadFields(m);
    U32EncodeLength(m.labelIndex);
    VarintRoundTrip(m.labelIndex, [m.flags]);
  }

  lemma PayloadFields(m: MetaAddress)
    ensures var data := Payload(m);
            |data| == 66 + |Encode(m.labelIndex)| && data[0] == m.version && data[1..33] == m.bSpend &&
            data[33..65] == m.bScan && data[65..] == Encode(m.labelIndex) + [m.flags] &&
            data[|data| - 1] == m.flags
  {
  }

  /** Different addresses never share a payload, whatever their version and flags. */
  lemma PayloadInjective(m: MetaAddress, n: MetaAddress)
    requires Payload(m) == Payload(n)
    ensures m == n
  {
    PayloadFields(m);
    PayloadFields(n);
    VarintRoundTrip(m.labelIndex, [m.flags]);
    VarintRoundTrip(n.labelIndex, [n.flags]);
  }

  /** `data` is a v1 payload for `m`, its label spelled by any terminated varint of at most five bytes. */
  predicate Spells(data: seq<Byte>, m: MetaAddress) {
    && 67 <= |data| <= 71
    && data[0] == m.version == META_ADDRESS_VERSION_V1
    && data[1..33] == m.bSpend
    && data[33..65] == m.bScan
    && Terminated(data[65..|data| - 1])
    && Value(data[65..|data| - 1]) == m.labelIndex
    && data[|data| - 1] == m.flags == 0
  }

  /**
    The Rust parser accepts exactly the spellings; the same bytes come back from the
    serializer exactly when the varint was minimal, which section 5.2.2 requires of every
    payload but neither parser checks.
   */
  lemma AcceptedExactly(data: seq<Byte>, m: MetaAddress)
    ensures RustParsed(data) == Ok(m) <==> Spells(data, m)
    ensures Spells(data, m) ==> (Payload(m) == data <==> Minimal(data[65..|data| - 1]))
  {
    var tail := data[if |data| < 65 then |data| else 65..];
    if RustParsed(data) == Ok(m) {
      var (index, n) := RustDecoded(tail).value;
      assert data[65..|data| - 1] == tail[..n];
    }
    if Spells(data, m) {
      var v := data[65..|data| - 1];
      assert forall i | 0 <= i < |v| :: v[i] == tail[i];
      TerminatorIs(tail, |v| - 1);
      assert tail[..|v|] == v;
      SameBytes(data, m);
      MinimalIffCanonical(v);
    }
  }

  lemma SameBytes(data: seq<Byte>, m: MetaAddress)
    requires Spells(data, m)
    ensures Payload(m) == data <==> Encode(m.labelIndex) == data[65..|data| - 1]
  {
    var v := data[65..|data| - 1];
    assert data == [data[0]] + data[1..33] + data[33..65] + v + [data[|data| - 1]];
    if Payload(m) == data {
      PayloadFields(m);
      assert Encode(m.labelIndex) == (Encode(m.labelIndex) + [m.flags])[..|v|] == v;
    }
  }

  /**
    Whatever Rust accepts, TypeScript accepts with the same result; TypeScript accepts more
    only on 71-byte payloads whose fifth varint byte is at least 16, which Rust rejects as
    exceeding 32 bits.
   */
  lemma ParsersAgreeExactly(data: seq<Byte>)
    ensures RustParsed(data).Ok? ==> TsParsed(data) == RustParsed(data)
    ensures TsParsed(data).Ok? ==>
              if |data| == 71 && data[69] >= 16 then RustParsed(data) == Err(BadVarint(ExceedsU32))
              else RustParsed(data) == TsParsed(data)
  {
    if |data| >= 67 {
      DecodersAgreeExactly(data[65..]);
    }
  }

  /** Label 0 spelled in two bytes is accepted for any pair of keys, but does not serialize back. */
  lemma PaddedLabelAccepted(bSpend: Bytes32, bScan: Bytes32)
    ensures var m := MetaAddress(META_ADDRESS_VERSION_V1, bSpend, bScan, 0, 0);
            var data := [META_ADDRESS_VERSION_V1] + bSpend + bScan + [0x80, 0x00] + [0];
            RustParsed(data) == Ok(m) && TsParsed(data) == Ok(m) && Payload(m) != data
  {
    var m := MetaAddress(META_ADDRESS_VERSION_V1, bSpend, bScan, 0, 0);
    var data := [META_ADDRESS_VERSION_V1] + bSpend + bScan + [0x80, 0x00] + [0];
    assert data[1..33] == bSpend && data[33..65] == bScan && data[65..67] == [0x80, 0x00];
    assert data[65..67][1..] == [0x00] && Value([0x80, 0x00]) == 0;
    AcceptedExactly(data, m);
    ParsersAgreeExactly(data);
  }

  /** Why a payload is refused before its label ends. */
  lemma RefusedEarlyExactly(data: seq<Byte>)
    ensures RustParsed(data) == Err(PayloadTooShort) <==> |data| < 67
    ensures |data| >= 67 && data[0] != 1 ==> RustParsed(data) == Err(UnsupportedVersion(data[0]))
    ensures |data| >= 67 && data[0] == 1 && (forall i | 65 <= i < 70 && i < |data| :: data[i] >= 128) ==>
              RustParsed(data) == Err(BadVarint(TooLong))
  {
    if |data| >= 67 && data[0] == 1 && forall i | 65 <= i < 70 && i < |data| :: data[i] >= 128 {
      NoTerminator(data[65..]);
    }
  }

  /** And why later, with the label's varint ending at `k`. */
  lemma RefusedLateExactly(data: seq<Byte>, k: nat)
    requires |data| >= 67 && data[0] == 1 && 65 <= k < 70 && k < |data|
    requires data[k] < 128 && forall i | 65 <= i < k :: data[i] >= 128
    ensures var r := RustParsed(data);
            if k == 69 && data[69] >= 16 then r == Err(BadVarint(ExceedsU32))
            else if |data| == k + 1 then r == Err(MissingFlags)
            else if |data| > k + 2 then r == Err(TrailingBytes)
            else if data[k + 1] != 0 then r == Err(UnsupportedFlags(data[k + 1]))
            else r.Ok?
  {
    TerminatorIs(data[65..], k - 65);
    DecodersAgreeExactly(data[65..]);
  }
}
