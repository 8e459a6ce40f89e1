/**
  Unsigned LEB128 (section 7.6 of DWARF Version 5), twice: the Rust SDK's
  `write_leb128_u32` / `read_leb128_u32` with a 64-bit accumulator, and the TypeScript
  SDK's `leb128Encode` / `leb128Decode` on JavaScript's 32-bit integers.
 */
module Leb128 {
  import opened Results
  import opened Bytes

  datatype VarintError = TooLong | ExceedsU32

  const MAX_VARINT_BYTES: nat := 5

  // ---- Reference definitions ----

  /** The minimal encoding of `v`. */
  function Encode(v: nat): (bs: seq<Byte>)
    ensures bs != []
  {
    if v < 128 then [v] else [v % 128 + 128] + Encode(v / 128)
  }

  /** The number whose base-128 digits are the low seven bits of each byte. */
  function Value(bs: seq<Byte>): nat {
    if bs == [] then 0 else bs[0] % 128 + 128 * Value(bs[1..])
  }

  /** Index of the first byte without a continuation bit, looking at `limit` bytes. */
  function Terminator(data: seq<Byte>, limit: nat): (k: Option<nat>)
    ensures k.Some? ==> k.value < limit && k.value < |data| && data[k.value] < 128
    ensures k.Some? ==> forall i | 0 <= i < k.value :: data[i] >= 128
    ensures k.None? ==> forall i | 0 <= i < limit && i < |data| :: data[i] >= 128
  {
    if limit == 0 || data == [] then None
    else if data[0] < 128 then Some(0)
    else
      match Terminator(data[1..], limit - 1)
      case None => None
      case Some(k) => Some(k + 1)
  }

  /** What `read_leb128_u32` accepts: a terminator in the first five bytes, a value below 2^32. */
  function RustDecoded(data: seq<Byte>): Result<(U32, nat), VarintError> {
    match Terminator(data, MAX_VARINT_BYTES)
    case None => Err(TooLong)
    case Some(k) =>
      var v := Value(data[..k + 1]);
      if v < U32_LIMIT then Ok((v, k + 1)) else Err(ExceedsU32)
  }

  /** What `leb128Decode` returns: the value modulo 2^32, with no range check. */
  function TsDecoded(data: seq<Byte>): Result<(U32, nat), VarintError> {
    match Terminator(data, MAX_VARINT_BYTES)
    case None => Err(TooLong)
    case Some(k) => Ok((Value(data[..k + 1]) % U32_LIMIT, k + 1))
  }

  /** The encoding uses no more bytes than it needs. */
  predicate Minimal(bs: seq<Byte>) {
    |bs| == 1 || (|bs| > 1 && bs[|bs| - 1] != 0)
  }

  /** All bytes but the last carry the continuation bit. */
  predicate Terminated(bs: seq<Byte>) {
    |bs| > 0 && bs[|bs| - 1] < 128 && forall i | 0 <= i < |bs| - 1 :: bs[i] >= 128
  }

  // ---- The four codec loops ----

  /** `write_leb128_u32`: appends to `out`. */
  method WriteLeb128U32(out: seq<Byte>, val: U32) returns (res: seq<Byte>)
    ensures res == out + Encode(val)
  {
    hide Or;
    res := out;
    var v := val;
    while true
      invariant res + Encode(v) == out + Encode(val)
      decreases v
    {
      var byte := v % 128;
      var rest := v / 128;
      if rest != 0 {
        OrContinuation(byte);
        byte := Or(byte, 0x80);
      }
      ghost var before := res;
      res := res + [byte];
      if rest == 0 {
        return;
      }
      assert before + Encode(v) == res + Encode(rest);
      v := rest;
    }
  }

  /** `leb128Encode`: a JavaScript number is first coerced to 32 bits. */
  method TsLeb128Encode(value: int) returns (out: seq<Byte>)
    ensures out == Encode(value % U32_LIMIT)
  {
    hide Or;
    out := [];
    var v: nat := value % U32_LIMIT;
    while true
      invariant out + Encode(v) == Encode(value % U32_LIMIT)
      decreases v
    {
      var byte := v % 128;
      ghost var prev, before := v, out;
      v := v / 128;
      if v != 0 {
        OrContinuation(byte);
        byte := Or(byte, 0x80);
      }
      out := out + [byte];
      if v == 0 {
        return;
      }
      assert before + Encode(prev) == out + Encode(v);
    }
  }

  /** `read_leb128_u32`: five bytes at most reach the 64-bit accumulator. */
  method ReadLeb128U32(data: seq<Byte>) returns (r: Result<(U32, nat), VarintError>)
    ensures r == RustDecoded(data)
  {
    var val, shift := 0, 0;
    for i := 0 to if |data| < MAX_VARINT_BYTES then |data| else MAX_VARINT_BYTES
      invariant shift == 7 * i
      invariant forall j | 0 <= j < i :: data[j] >= 128
      invariant val == Value(data[..i])
    {
      NextDigit(data, i);
      val := Or(val, Shl(data[i] % 128, shift));
      if data[i] < 128 {
        TerminatorIs(data, i);
        r := if val < U32_LIMIT then Ok((val, i + 1)) else Err(ExceedsU32);
        return;
      }
      shift := shift + 7;
    }
    NoTerminator(data);
    return Err(TooLong);
  }

  /** `leb128Decode`: the accumulator is a 32-bit word, so the fifth byte loses its high bits. */
  method TsLeb128Decode(data: seq<Byte>) returns (r: Result<(U32, nat), VarintError>)
    ensures r == TsDecoded(data)
  {
    var result, shift := 0, 0;
    for i := 0 to if |data| < MAX_VARINT_BYTES then |data| else MAX_VARINT_BYTES
      invariant shift == 7 * i
      invariant forall j | 0 <= j < i :: data[j] >= 128
      invariant result == Value(data[..i]) % U32_LIMIT
    {
      NextWordDigit(data, i);
      result := Or(result, Shl32(data[i] % 128, shift));
      if data[i] < 128 {
        TerminatorIs(data, i);
        return Ok((result, i + 1));
      }
      shift := shift + 7;
    }
    NoTerminator(data);
    return Err(TooLong);
  }

  // ---- Loop lemmas ----

  lemma OrContinuation(byte: nat)
    requires byte < 128
    ensures Or(byte, 0x80) == byte + 128
  {
    ShlSeven(1, 0);
    OrAbove(byte, 1, 7);
  }

  lemma {:induction false} ValueSnoc(bs: seq<Byte>, b: Byte)
    ensures Value(bs + [b]) == Value(bs) + Shl(b % 128, 7 * |bs|)
  {
    if bs == [] {
      assert bs + [b] == [b];
      assert [b][1..] == [];
    } else {
      ValueSnoc(bs[1..], b);
      assert (bs + [b])[1..] == bs[1..] + [b];
      ShlSeven(b % 128, 7 * |bs[1..]|);
    }
  }

  lemma {:induction false} ValueBound(bs: seq<Byte>)
    ensures Value(bs) < Shl(1, 7 * |bs|)
  {
    if bs != [] {
      ValueBound(bs[1..]);
      ShlSeven(1, 7 * |bs[1..]|);
    }
  }

  /** One turn of the 64-bit loop. */
  lemma NextDigit(data: seq<Byte>, i: nat)
    requires i < |data|
    ensures Value(data[..i + 1]) == Value(data[..i]) + Shl(data[i] % 128, 7 * i)
    ensures Value(data[..i + 1]) == Or(Value(data[..i]), Shl(data[i] % 128, 7 * i))
  {
    assert data[..i + 1] == data[..i] + [data[i]];
    ValueSnoc(data[..i], data[i]);
    ValueBound(data[..i]);
    OrAbove(Value(data[..i]), data[i] % 128, 7 * i);
  }

  /** One turn of the 32-bit loop: only the fifth byte can wrap. */
  lemma NextWordDigit(data: seq<Byte>, i: nat)
    requires i < |data| && i < MAX_VARINT_BYTES
    ensures Value(data[..i + 1]) % U32_LIMIT ==
            Or(Value(data[..i]) % U32_LIMIT, Shl32(data[i] % 128, 7 * i))
  {
    var acc, d := Value(data[..i]), data[i] % 128;
    var e := if i == 4 then d % 16 else d;
    NextDigit(data, i);
    ValueBound(data[..i]);
    WordShift(acc, d, i);
    OrAbove(acc, e, 7 * i);
  }

  lemma WordShift(acc: nat, d: nat, i: nat)
    requires i < MAX_VARINT_BYTES && d < 128 && acc < Shl(1, 7 * i)
    ensures var e := if i == 4 then d % 16 else d;
            Shl32(d, 7 * i) == Shl(e, 7 * i) && acc % U32_LIMIT == acc &&
            (acc + Shl(d, 7 * i)) % U32_LIMIT == acc + Shl(e, 7 * i)
  {
    DigitPlace(1, i);
    DigitPlace(d, i);
    DigitPlace(d % 16, i);
  }

  /** `d << 7 * i` as a product. */
  lemma DigitPlace(d: nat, i: nat)
    requires i < MAX_VARINT_BYTES
    ensures i == 0 ==> Shl(d, 7 * i) == d
    ensures i == 1 ==> Shl(d, 7 * i) == 0x80 * d
    ensures i == 2 ==> Shl(d, 7 * i) == 0x4000 * d
    ensures i == 3 ==> Shl(d, 7 * i) == 0x20_0000 * d
    ensures i == 4 ==> Shl(d, 7 * i) == 0x1000_0000 * d
  {
    if i > 0 {
      ShlSeven(d, 7 * (i - 1));
      DigitPlace(d, i - 1);
    }
  }

  lemma {:induction false} TerminatorIs(data: seq<Byte>, k: nat)
    requires k < |data| && k < MAX_VARINT_BYTES && data[k] < 128
    requires forall i | 0 <= i < k :: data[i] >= 128
    ensures Terminator(data, MAX_VARINT_BYTES) == Some(k)
  {
    var t := Terminator(data, MAX_VARINT_BYTES);
    assert t.Some? ==> t.value >= k;
  }

  lemma NoTerminator(data: seq<Byte>)
    requires forall i | 0 <= i < |data| && i < MAX_VARINT_BYTES :: data[i] >= 128
    ensures Terminator(data, MAX_VARINT_BYTES) == None
  {
  }

  // ---- Round trip, canonicality, refinement ----

  lemma {:induction false} EncodeShape(v: nat)
    ensures Terminated(Encode(v)) && Minimal(Encode(v)) && Value(Encode(v)) == v
  {
    if v < 128 {
      assert [v][1..] == [];
    } else {
      EncodeShape(v / 128);
      var t := Encode(v / 128);
      var bs := Encode(v);
      assert bs[1..] == t;
      forall i | 0 <= i < |bs| - 1
        ensures bs[i] >= 128
      {
        if i > 0 {
          assert bs[i] == t[i - 1];
        }
      }
      if |t| == 1 {
        assert t == [v / 128];
      }
    }
  }

  lemma {:induction false} EncodeLength(v: nat, n: nat)
    requires n > 0 && v < Shl(1, 7 * n)
    ensures |Encode(v)| <= n
  {
    ShlSeven(1, 7 * (n - 1));
    if v >= 128 {
      EncodeLength(v / 128, n - 1);
    }
  }

  lemma U32EncodeLength(v: U32)
    ensures 1 <= |Encode(v)| <= MAX_VARINT_BYTES
  {
    DigitPlace(1, 4);
    ShlSeven(1, 28);
    EncodeLength(v, 5);
  }

  /** Both decoders undo both encoders, whatever bytes follow. */
  lemma VarintRoundTrip(v: U32, rest: seq<Byte>)
    ensures RustDecoded(Encode(v) + rest) == Ok((v, |Encode(v)|))
    ensures TsDecoded(Encode(v) + rest) == Ok((v, |Encode(v)|))
  {
    EncodeShape(v);
    U32EncodeLength(v);
    var data := Encode(v) + rest;
    TerminatorIs(data, |Encode(v)| - 1);
    assert data[..|Encode(v)|] == Encode(v);
  }

  /** A terminated byte string is the minimal encoding of its value exactly when it is `Minimal`. */
  lemma {:induction false} MinimalIffCanonical(bs: seq<Byte>)
    requires Terminated(bs)
    ensures Encode(Value(bs)) == bs <==> Minimal(bs)
    ensures Minimal(bs) && |bs| > 1 ==> Value(bs) >= 128
  {
    var t := bs[1..];
    assert bs == [bs[0]] + t;
    if t == [] {
      assert Value(t) == 0;
    } else {
      MinimalIffCanonical(t);
      var v := Value(bs);
      assert v % 128 == bs[0] % 128 && v / 128 == Value(t);
      assert t[|t| - 1] == bs[|bs| - 1];
      if |t| == 1 {
        assert Value(t[1..]) == 0;
      }
      if Value(t) > 0 {
        assert Encode(v) == [bs[0]] + Encode(Value(t));
        assert Encode(v)[1..] == Encode(Value(t));
      }
    }
  }

  /** Re-encoding an accepted varint reproduces its bytes exactly when they were minimal. */
  lemma CanonicalVarint(data: seq<Byte>)
    requires RustDecoded(data).Ok?
    ensures var (v, n) := RustDecoded(data).value;
            1 <= n <= |data| && (Encode(v) == data[..n] <==> Minimal(data[..n]))
  {
    var (v, n) := RustDecoded(data).value;
    MinimalIffCanonical(data[..n]);
  }

  /**
    The two decoders agree on every byte string except the five-byte varints whose last
    byte is at least 16; on those Rust reports an overflow and TypeScript returns the
    value modulo 2^32, consuming the same five bytes.
   */
  lemma DecodersAgreeExactly(data: seq<Byte>)
    ensures RustDecoded(data) == TsDecoded(data) <==>
            !(Terminator(data, MAX_VARINT_BYTES) == Some(4) && data[4] >= 16)
    ensures RustDecoded(data) == Err(ExceedsU32) <==>
            Terminator(data, MAX_VARINT_BYTES) == Some(4) && data[4] >= 16
    ensures RustDecoded(data) == Err(ExceedsU32) ==>
              TsDecoded(data) == Ok((Value(data[..5]) % U32_LIMIT, 5))
  {
    var t := Terminator(data, MAX_VARINT_BYTES);
    if t.Some? {
      OverflowAtFifthByte(data, t.value);
    }
  }

  lemma OverflowAtFifthByte(data: seq<Byte>, k: nat)
    requires k < |data| && k < MAX_VARINT_BYTES && data[k] < 128
    ensures Value(data[..k + 1]) >= U32_LIMIT <==> k == 4 && data[k] >= 16
  {
    var d := data[k] % 128;
    assert d == data[k];
    NextDigit(data, k);
    ValueBound(data[..k]);
    DigitPlace(1, k);
    DigitPlace(d, k);
  }

  /** The smallest varint on which the two differ: 2^32, spelled in five bytes. */
  lemma FifthByteOverflows()
    ensures var data := [0x80, 0x80, 0x80, 0x80, 0x10];
            RustDecoded(data) == Err(ExceedsU32) && TsDecoded(data) == Ok((0, 5))
  {
    var data: seq<Byte> := [0x80, 0x80, 0x80, 0x80, 0x10];
    TerminatorIs(data, 4);
    assert data[..5] == data;
    assert data[1..] == [0x80, 0x80, 0x80, 0x10] && data[1..][1..] == [0x80, 0x80, 0x10];
    assert data[1..][1..][1..] == [0x80, 0x10] && data[1..][1..][1..][1..] == [0x10];
    assert Value(data) == U32_LIMIT;
  }
}
