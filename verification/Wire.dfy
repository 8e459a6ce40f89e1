/**
  The Borsh wire format of pinboard notes. `EncodeNote` is the layout the Rust SDK derives for
  `PostArgs`, `NoteEntry` and `NoteEvent` (one layout, here one datatype `Note`); the
  TypeScript SDK writes and reads it by hand through `ByteWriter` and `ByteReader`.
 */
module Wire {
  import opened Results
  import opened Bytes

  /** `Announcement`, `NoteEntry`, `PostArgs` and `NoteEvent` have these same four fields. */
  datatype Note = Note(schemeId: U16, ephemeralPub: Bytes32, viewTag: Byte, metadata: seq<Byte>)

  const POST_DISCRIMINATOR: seq<Byte> := [223, 96, 234, 236, 158, 106, 145, 94]
  const POST_BATCH_DISCRIMINATOR: seq<Byte> := [172, 123, 234, 102, 14, 213, 76, 36]
  const NOTE_EVENT_DISCRIMINATOR: seq<Byte> := [40, 182, 5, 151, 115, 43, 27, 97]

  // ---- Borsh layout ----

  /** Borsh writes lengths as u32; anything longer cannot be serialized. */
  predicate Encodable(n: Note) {
    |n.metadata| < U32_LIMIT
  }

  function EncodeNote(n: Note): seq<Byte> {
    LeBytes(n.schemeId, 2) + n.ephemeralPub + [n.viewTag] + LeBytes(|n.metadata|, 4) + n.metadata
  }

  function EncodeNotes(entries: seq<Note>): seq<Byte> {
    if entries == [] then [] else EncodeNote(entries[0]) + EncodeNotes(entries[1..])
  }

  /** Borsh `Vec<NoteEntry>`. */
  function EncodeBatch(entries: seq<Note>): seq<Byte> {
    LeBytes(|entries|, 4) + EncodeNotes(entries)
  }

  predicate AllEncodable(entries: seq<Note>) {
    forall i | 0 <= i < |entries| :: Encodable(entries[i])
  }

  predicate EncodableBatch(entries: seq<Note>) {
    |entries| < U32_LIMIT && AllEncodable(entries)
  }

  /** Borsh deserialization of one note from the front of `d`. */
  function TakeNote(d: seq<Byte>): Option<(Note, seq<Byte>)> {
    if |d| < 39 then None
    else
      LeFieldBounds(d[..2]);
      var len := LeValue(d[35..39]);
      if |d| < 39 + len then None
      else Some((Note(LeValue(d[..2]), d[2..34], d[34], d[39..39 + len]), d[39 + len..]))
  }

  function TakeNotes(d: seq<Byte>, count: nat): Option<(seq<Note>, seq<Byte>)> {
    if count == 0 then Some(([], d))
    else
      match TakeNote(d)
      case None => None
      case Some((first, rest)) =>
        match TakeNotes(rest, count - 1)
        case None => None
        case Some((others, tail)) => Some(([first] + others, tail))
  }

  function TakeBatch(d: seq<Byte>): Option<(seq<Note>, seq<Byte>)> {
    if |d| < 4 then None else TakeNotes(d[4..], LeValue(d[..4]))
  }

  function TotalLength(entries: seq<Note>): nat {
    if entries == [] then 0 else 39 + |entries[0].metadata| + TotalLength(entries[1..])
  }

  // ---- Note events in logs, after base64 ----

  /** `try_parse_note_log`: the payload must be consumed to its last byte. */
  function RustParsedNote(raw: seq<Byte>): Result<Option<Note>, ()> {
    if |raw| < 8 || raw[..8] != NOTE_EVENT_DISCRIMINATOR then Ok(None)
    else
      match TakeNote(raw[8..])
      case Some((n, rest)) => if rest == [] then Ok(Some(n)) else Err(())
      case None => Err(())
  }

  /** What the TypeScript parser builds: an index past the end reads as `undefined`, slices clip. */
  datatype TsNote = TsNote(schemeId: nat, ephemeralPub: seq<Byte>, viewTag: Option<Byte>, metadata: seq<Byte>)

  /** `undefined` is 0 to the bitwise operators. */
  function At(d: seq<Byte>, i: nat): Byte {
    if i < |d| then d[i] else 0
  }

  /** `Uint8Array.slice(lo, hi)`. */
  function Clip(d: seq<Byte>, lo: nat, hi: nat): seq<Byte> {
    if hi <= lo || |d| <= lo then []
    else if |d| < hi then d[lo..]
    else d[lo..hi]
  }

  function WordAt(d: seq<Byte>, i: nat, n: nat): nat
    decreases n
  {
    if n == 0 then 0 else At(d, i) + 256 * WordAt(d, i + 1, n - 1)
  }

  function TsParsedNote(raw: seq<Byte>): Option<TsNote> {
    if |raw| < 8 || raw[..8] != NOTE_EVENT_DISCRIMINATOR then None
    else
      var d := raw[8..];
      Some(TsNote(WordAt(d, 0, 2), Clip(d, 2, 34), if 34 < |d| then Some(d[34]) else None,
                  Clip(d, 39, 39 + WordAt(d, 35, 4))))
  }

  // ---- The TypeScript writer and reader ----

  class ByteWriter {
    var chunks: seq<Byte>

    constructor ()
      ensures chunks == []
    {
      chunks := [];
    }

    method U8(v: int)
      modifies this
      ensures chunks == old(chunks) + [v % 256]
    {
      chunks := chunks + [v % 256];
    }

    method U16LE(v: int)
      modifies this
      ensures chunks == old(chunks) + LeBytes(v % 0x1_0000, 2)
    {
      var w: nat := v % 0x1_0000;
      chunks := chunks + [w % 256, w / 256 % 256];
      assert LeBytes(w / 256, 1) == [w / 256 % 256] + LeBytes(w / 256 / 256, 0);
    }

    method U32LE(v: int)
      modifies this
      ensures chunks == old(chunks) + LeBytes(v % U32_LIMIT, 4)
    {
      var w: nat := v % U32_LIMIT;
      chunks := chunks + [w % 256, w / 256 % 256, w / 0x1_0000 % 256, w / 0x100_0000 % 256];
      assert w / 256 / 256 == w / 0x1_0000 && w / 0x1_0000 / 256 == w / 0x100_0000;
      assert LeBytes(w / 256, 3) == [w / 256 % 256] + LeBytes(w / 0x1_0000, 2);
      assert LeBytes(w / 0x1_0000, 2) == [w / 0x1_0000 % 256] + LeBytes(w / 0x100_0000, 1);
    }

    method Bytes(b: seq<Byte>)
      modifies this
      ensures chunks == old(chunks) + b
    {
      for i := 0 to |b|
        invariant chunks == old(chunks) + b[..i]
      {
        chunks := chunks + [b[i]];
      }
    }

    method VecU8(b: seq<Byte>)
      modifies this
      ensures chunks == old(chunks) + LeBytes(|b| % U32_LIMIT, 4) + b
    {
      U32LE(|b|);
      Bytes(b);
    }

    method ToBytes() returns (b: seq<Byte>)
      ensures b == chunks
    {
      b := chunks;
    }
  }

  class ByteReader {
    const data: seq<Byte>
    var offset: nat

    constructor (data: seq<Byte>)
      ensures this.data == data && offset == 0
    {
      this.data := data;
      offset := 0;
    }

    method U8() returns (v: Option<Byte>)
      modifies this
      ensures v == if old(offset) < |data| then Some(data[old(offset)]) else None
      ensures offset == old(offset) + 1
    {
      v := if offset < |data| then Some(data[offset]) else None;
      offset := offset + 1;
    }

    method U16LE() returns (v: nat)
      modifies this
      ensures v == WordAt(data, old(offset), 2)
      ensures offset == old(offset) + 2
    {
      v := Or(At(data, offset), Shl(At(data, offset + 1), 8));
      OrBytes(At(data, offset), At(data, offset + 1), 0, 0);
      WordBytes(data, offset);
      offset := offset + 2;
    }

    method U32LE() returns (v: nat)
      modifies this
      ensures v == WordAt(data, old(offset), 4)
      ensures offset == old(offset) + 4
    {
      v := Or(Or(Or(At(data, offset), Shl(At(data, offset + 1), 8)), Shl(At(data, offset + 2), 16)),
              Shl32(At(data, offset + 3), 24));
      OrBytes(At(data, offset), At(data, offset + 1), At(data, offset + 2), At(data, offset + 3));
      WordBytes(data, offset);
      offset := offset + 4;
    }

    method Bytes(n: nat) returns (b: seq<Byte>)
      modifies this
      ensures b == Clip(data, old(offset), old(offset) + n)
      ensures offset == old(offset) + n
    {
      b := Clip(data, offset, offset + n);
      offset := offset + n;
    }

    method VecU8() returns (b: seq<Byte>)
      modifies this
      ensures var len := WordAt(data, old(offset), 4);
              b == Clip(data, old(offset) + 4, old(offset) + 4 + len) && offset == old(offset) + 4 + len
    {
      var len := U32LE();
      b := Bytes(len);
    }

    function Remaining(): int
      reads this
    {
      |data| - offset
    }
  }

  /** Or-ing shifted bytes together is the little-endian value, with no carry and no sign. */
  lemma OrBytes(a: Byte, b: Byte, c: Byte, d: Byte)
    ensures Or(a, Shl(b, 8)) == a + 256 * b
    ensures Or(Or(Or(a, Shl(b, 8)), Shl(c, 16)), Shl32(d, 24)) == a + 256 * (b + 256 * (c + 256 * d))
  {
    hide Or, Shl;
    var low := a + 256 * b;
    var mid := low + 0x1_0000 * c;
    assert Or(a, Shl(b, 8)) == low by {
      BytePlaces(1);
      BytePlaces(b);
      OrAbove(a, b, 8);
    }
    assert Or(low, Shl(c, 16)) == mid by {
      BytePlaces(1);
      BytePlaces(c);
      OrAbove(low, c, 16);
    }
    assert Or(mid, Shl32(d, 24)) == mid + 0x100_0000 * d by {
      BytePlaces(1);
      BytePlaces(d);
      OrAbove(mid, d, 24);
    }
  }

  lemma BytePlaces(x: nat)
    ensures Shl(x, 8) == 256 * x && Shl(x, 16) == 0x1_0000 * x && Shl(x, 24) == 0x100_0000 * x
  {
    ShlSeven(x, 0);
    ShlSeven(x, 8);
    ShlSeven(x, 16);
  }

  lemma WordBytes(d: seq<Byte>, i: nat)
    ensures WordAt(d, i, 2) == At(d, i) + 256 * At(d, i + 1)
    ensures WordAt(d, i, 4) == At(d, i) + 256 * (At(d, i + 1) + 256 * (At(d, i + 2) + 256 * At(d, i + 3)))
  {
    assert WordAt(d, i + 2, 2) == At(d, i + 2) + 256 * At(d, i + 3);
  }

  /** `writePostArgs`. */
  method WritePostArgs(w: ByteWriter, n: Note)
    modifies w
    ensures Encodable(n) ==> w.chunks == old(w.chunks) + EncodeNote(n)
  {
    hide LeBytes;
    ghost var start := w.chunks;
    w.U16LE(n.schemeId);
    w.Bytes(n.ephemeralPub);
    w.U8(n.viewTag);
    w.VecU8(n.metadata);
    AppendedInOrder(
      start, LeBytes(n.schemeId, 2), n.ephemeralPub, [n.viewTag], LeBytes(|n.metadata| % U32_LIMIT, 4), n.metadata);
  }

  lemma AppendedInOrder(s: seq<Byte>, a: seq<Byte>, b: seq<Byte>, c: seq<Byte>, d: seq<Byte>, e: seq<Byte>)
    ensures s + a + b + c + (d + e) == s + a + b + c + d + e == s + (a + b + c + d + e)
  {
  }

  /** The Rust SDK's instruction data for `post_batch`. */
  function RustPostBatchData(entries: seq<Note>): seq<Byte> {
    POST_BATCH_DISCRIMINATOR + EncodeBatch(entries)
  }

  function RustPostData(n: Note): seq<Byte> {
    POST_DISCRIMINATOR + EncodeNote(n)
  }

  /** `buildPostInstruction`'s data. */
  method TsBuildPost(n: Note) returns (data: seq<Byte>)
    ensures Encodable(n) ==> data == RustPostData(n)
  {
    var w := new ByteWriter();
    w.Bytes(POST_DISCRIMINATOR);
    WritePostArgs(w, n);
    data := w.ToBytes();
  }

  /** `buildPostBatchInstruction`'s data: byte for byte what the Rust SDK serializes. */
  method TsBuildPostBatch(entries: seq<Note>) returns (data: seq<Byte>)
    ensures EncodableBatch(entries) ==> data == RustPostBatchData(entries)
  {
    hide EncodeNote, LeBytes;
    var w := new ByteWriter();
    w.Bytes(POST_BATCH_DISCRIMINATOR);
    w.U32LE(|entries|);
    ghost var head := w.chunks;
    for i := 0 to |entries|
      invariant EncodableBatch(entries) ==> w.chunks == head + EncodeNotes(entries[..i])
    {
      ghost var body := EncodeNotes(entries[..i]);
      WritePostArgs(w, entries[i]);
      assert EncodeNotes(entries[..i + 1]) == body + EncodeNote(entries[i]) by {
        EncodeNotesSnoc(entries[..i], entries[i]);
        assert entries[..i + 1] == entries[..i] + [entries[i]];
      }
      assert head + body + EncodeNote(entries[i]) == head + (body + EncodeNote(entries[i]));
    }
    data := w.ToBytes();
    if EncodableBatch(entries) {
      assert entries[..|entries|] == entries;
      assert head == POST_BATCH_DISCRIMINATOR + LeBytes(|entries|, 4);
      assert data == POST_BATCH_DISCRIMINATOR + (LeBytes(|entries|, 4) + EncodeNotes(entries));
    }
  }

  /** `tryParseNoteLog` after base64. */
  method TsTryParseNoteLog(raw: seq<Byte>) returns (r: Option<TsNote>)
    ensures r == TsParsedNote(raw)
  {
    if |raw| < 8 {
      return None;
    }
    for i := 0 to 8
      invariant raw[..i] == NOTE_EVENT_DISCRIMINATOR[..i]
    {
      if raw[i] != NOTE_EVENT_DISCRIMINATOR[i] {
        assert raw[..8][i] != NOTE_EVENT_DISCRIMINATOR[i];
        return None;
      }
    }
    var rd := new ByteReader(raw[8..]);
    var schemeId := rd.U16LE();
    var ephemeralPub := rd.Bytes(32);
    var viewTag := rd.U8();
    var metadata := rd.VecU8();
    r := Some(TsNote(schemeId, ephemeralPub, viewTag, metadata));
  }

  /** A note as the TypeScript reader returns it. */
  function AsTs(n: Note): TsNote {
    TsNote(n.schemeId, n.ephemeralPub, Some(n.viewTag), n.metadata)
  }

  /**
    Reading a batch back with the reader calls that match the writer calls returns the entries
    written and leaves nothing over.
   */
  method ReadBatchBack(data: seq<Byte>, ghost entries: seq<Note>) returns (notes: seq<TsNote>, remaining: int)
    requires EncodableBatch(entries) && data == EncodeBatch(entries)
    ensures |notes| == |entries| && (forall i | 0 <= i < |entries| :: notes[i] == AsTs(entries[i]))
    ensures remaining == 0
  {
    hide EncodeNote, LeBytes, WordAt;
    var rd := new ByteReader(data);
    var count := rd.U32LE();
    notes := [];
    assert count == |entries| && data[4..] == EncodeNotes(entries) by {
      LeFields(|entries|);
      WordSlice(data, 0, 4);
      assert data[0..4] == LeBytes(|entries|, 4);
    }
    for i := 0 to count
      invariant rd.offset <= |data| && data[rd.offset..] == EncodeNotes(entries[i..])
      invariant |notes| == i && forall j | 0 <= j < i :: notes[j] == AsTs(entries[j])
    {
      assert entries[i..][1..] == entries[i + 1..];
      var n := ReadEntry(rd, entries[i], EncodeNotes(entries[i + 1..]));
      notes := notes + [n];
    }
    assert entries[count..] == [];
    assert |data[rd.offset..]| == 0;
    remaining := rd.Remaining();
  }

  method ReadEntry(rd: ByteReader, ghost n: Note, ghost rest: seq<Byte>) returns (t: TsNote)
    requires Encodable(n) && rd.offset <= |rd.data| && rd.data[rd.offset..] == EncodeNote(n) + rest
    modifies rd
    ensures t == AsTs(n) && rd.offset <= |rd.data| && rd.data[rd.offset..] == rest
  {
    hide EncodeNote, WordAt, Clip;
    FieldsAt(rd.data, rd.offset, n, rest);
    var schemeId := rd.U16LE();
    var ephemeralPub := rd.Bytes(32);
    var viewTag := rd.U8();
    var metadata := rd.VecU8();
    t := TsNote(schemeId, ephemeralPub, viewTag, metadata);
  }

  lemma FieldsAt(d: seq<Byte>, o: nat, n: Note, rest: seq<Byte>)
    requires o <= |d| && d[o..] == EncodeNote(n) + rest && Encodable(n)
    ensures WordAt(d, o, 2) == n.schemeId && Clip(d, o + 2, o + 34) == n.ephemeralPub
    ensures o + 34 < |d| && d[o + 34] == n.viewTag && WordAt(d, o + 35, 4) == |n.metadata|
    ensures var next := o + 39 + |n.metadata|;
            next <= |d| && Clip(d, o + 39, next) == n.metadata && d[next..] == rest
  {
    hide LeBytes;
    var t := d[o..];
    NoteFields(n, rest);
    assert d[o..o + 2] == t[..2] && d[o + 2..o + 34] == t[2..34] && d[o + 35..o + 39] == t[35..39];
    assert d[o + 34] == t[34];
    var len := |n.metadata|;
    assert d[o + 39..o + 39 + len] == t[39..39 + len] && d[o + 39 + len..] == t[39 + len..];
    LeFields(n.schemeId);
    LeFields(len);
    WordSlice(d, o, 2);
    WordSlice(d, o + 35, 4);
  }

  lemma {:induction false} EncodeNotesSnoc(entries: seq<Note>, n: Note)
    ensures EncodeNotes(entries + [n]) == EncodeNotes(entries) + EncodeNote(n)
  {
    hide EncodeNote;
    if entries == [] {
      assert [n][1..] == [];
      assert entries + [n] == [n];
    } else {
      EncodeNotesSnoc(entries[1..], n);
      assert (entries + [n])[1..] == entries[1..] + [n];
    }
  }

  // ---- Round trips ----

  lemma NoteFields(n: Note, rest: seq<Byte>)
    ensures var d := EncodeNote(n) + rest;
            |EncodeNote(n)| == 39 + |n.metadata| && d[..2] == LeBytes(n.schemeId, 2) && d[2..34] == n.ephemeralPub &&
            d[34] == n.viewTag && d[35..39] == LeBytes(|n.metadata|, 4) &&
            d[39..39 + |n.metadata|] == n.metadata && d[39 + |n.metadata|..] == rest
  {
  }

  /** Deserialization undoes serialization, and accepts nothing else. */
  lemma TakeNoteExactly(d: seq<Byte>, n: Note, rest: seq<Byte>)
    ensures TakeNote(d) == Some((n, rest)) <==> Encodable(n) && d == EncodeNote(n) + rest
  {
    if Encodable(n) && d == EncodeNote(n) + rest {
      NoteFields(n, rest);
      LeFields(n.schemeId);
      LeFields(|n.metadata|);
    }
    if TakeNote(d) == Some((n, rest)) {
      LeFieldBounds(d[35..39]);
      LeBytesOfValue(d[..2]);
      LeBytesOfValue(d[35..39]);
      assert d == d[..2] + d[2..34] + [d[34]] + d[35..39] + n.metadata + rest;
    }
  }

  lemma {:induction false} TakesWhatWasEncoded(entries: seq<Note>, rest: seq<Byte>)
    requires AllEncodable(entries)
    ensures TakeNotes(EncodeNotes(entries) + rest, |entries|) == Some((entries, rest))
  {
    hide EncodeNote, TakeNote, Encodable;
    if entries == [] {
      assert [] + rest == rest;
    } else {
      var tail := EncodeNotes(entries[1..]) + rest;
      assert EncodeNotes(entries) + rest == EncodeNote(entries[0]) + tail;
      TakeNoteExactly(EncodeNote(entries[0]) + tail, entries[0], tail);
      TakesWhatWasEncoded(entries[1..], rest);
      assert [entries[0]] + entries[1..] == entries;
    }
  }

  lemma {:induction false} TakenWasEncoded(d: seq<Byte>, count: nat)
    requires TakeNotes(d, count).Some?
    ensures var (entries, rest) := TakeNotes(d, count).value;
            |entries| == count && AllEncodable(entries) && d == EncodeNotes(entries) + rest
    decreases count
  {
    hide EncodeNote, TakeNote, Encodable;
    if count == 0 {
      assert [] + d == d;
    } else {
      var (first, others) := TakeNote(d).value;
      TakeNoteExactly(d, first, others);
      TakenWasEncoded(others, count - 1);
      var (more, rest) := TakeNotes(others, count - 1).value;
      assert ([first] + more)[1..] == more;
      assert EncodeNote(first) + (EncodeNotes(more) + rest) == EncodeNote(first) + EncodeNotes(more) + rest;
    }
  }

  /** A byte string is the serialization of at most one batch, and decoding finds exactly that one. */
  lemma BatchDecodesExactly(d: seq<Byte>, entries: seq<Note>, rest: seq<Byte>)
    ensures TakeBatch(d) == Some((entries, rest)) <==> EncodableBatch(entries) && d == EncodeBatch(entries) + rest
  {
    hide EncodeNotes, TakeNotes, Encodable;
    if EncodableBatch(entries) && d == EncodeBatch(entries) + rest {
      LeFields(|entries|);
      assert d[..4] == LeBytes(|entries|, 4);
      assert d[4..] == EncodeNotes(entries) + rest;
      TakesWhatWasEncoded(entries, rest);
    }
    if TakeBatch(d) == Some((entries, rest)) {
      TakenWasEncoded(d[4..], LeValue(d[..4]));
      LeFieldBounds(d[..4]);
      LeBytesOfValue(d[..4]);
      assert d == d[..4] + d[4..];
    }
  }

  lemma BatchInjective(a: seq<Note>, b: seq<Note>)
    requires EncodableBatch(a) && EncodableBatch(b) && EncodeBatch(a) == EncodeBatch(b)
    ensures a == b
  {
    var d := EncodeBatch(a);
    assert d == d + [];
    BatchDecodesExactly(d, a, []);
    BatchDecodesExactly(d, b, []);
  }

  lemma {:induction false} BatchLength(entries: seq<Note>)
    ensures |EncodeBatch(entries)| == 4 + TotalLength(entries)
  {
    if entries != [] {
      BatchLength(entries[1..]);
    }
  }

  /**
    The Rust parser yields a note exactly on that note's event bytes. On those bytes the
    TypeScript parser yields the same note; both ignore the same log lines.
   */
  lemma NoteParsersAgree(raw: seq<Byte>, n: Note)
    ensures RustParsedNote(raw) == Ok(Some(n)) <==>
            Encodable(n) && raw == NOTE_EVENT_DISCRIMINATOR + EncodeNote(n)
    ensures RustParsedNote(raw) == Ok(Some(n)) ==>
              TsParsedNote(raw) == Some(AsTs(n))
    ensures RustParsedNote(raw) == Ok(None) <==> TsParsedNote(raw) == None
  {
    if Encodable(n) && raw == NOTE_EVENT_DISCRIMINATOR + EncodeNote(n) {
      assert raw[8..] == EncodeNote(n) + [];
      assert raw[..8] == NOTE_EVENT_DISCRIMINATOR;
      TakeNoteExactly(raw[8..], n, []);
    }
    if RustParsedNote(raw) == Ok(Some(n)) {
      var d := raw[8..];
      assert raw == raw[..8] + d;
      TakeNoteExactly(d, n, []);
      WordSlice(d, 0, 2);
      WordSlice(d, 35, 4);
      assert d[0..2] == d[..2];
    }
  }

  lemma {:induction false} WordSlice(d: seq<Byte>, i: nat, n: nat)
    requires i + n <= |d|
    ensures WordAt(d, i, n) == LeValue(d[i..i + n])
    decreases n
  {
    if n > 0 {
      WordSlice(d, i + 1, n - 1);
      assert d[i..i + n][1..] == d[i + 1..i + n];
    }
  }

  /**
    Among lines carrying the event discriminator, TypeScript builds a note from every one;
    Rust rejects exactly those whose length field differs from the bytes that follow it.
   */
  lemma RustRejectsExactly(raw: seq<Byte>)
    requires |raw| >= 8 && raw[..8] == NOTE_EVENT_DISCRIMINATOR
    ensures TsParsedNote(raw).Some?
    ensures RustParsedNote(raw).Ok? <==> |raw| >= 47 && LeValue(raw[43..47]) == |raw| - 47
  {
    var d := raw[8..];
    if |raw| >= 47 {
      assert d[35..39] == raw[43..47];
    }
  }

  /** A note event cut short anywhere: Rust reports an error, TypeScript a note. */
  lemma TruncatedNoteAccepted(n: Note, k: nat)
    requires Encodable(n) && k < |EncodeNote(n)|
    ensures var raw := NOTE_EVENT_DISCRIMINATOR + EncodeNote(n)[..k];
            RustParsedNote(raw).Err? && TsParsedNote(raw).Some?
  {
    var raw, d := NOTE_EVENT_DISCRIMINATOR + EncodeNote(n)[..k], EncodeNote(n) + [];
    assert raw[..8] == NOTE_EVENT_DISCRIMINATOR;
    NoteFields(n, []);
    LeFields(|n.metadata|);
    if |raw| >= 47 {
      Truncated(EncodeNote(n), k);
    }
    RustRejectsExactly(raw);
  }

  lemma Truncated(encoded: seq<Byte>, k: nat)
    requires 39 <= k < |encoded|
    ensures (NOTE_EVENT_DISCRIMINATOR + encoded[..k])[43..47] == (encoded + [])[35..39]
  {
    assert encoded + [] == encoded;
    assert NOTE_EVENT_DISCRIMINATOR + encoded[..k] ==
           NOTE_EVENT_DISCRIMINATOR + encoded[..35] + encoded[35..39] + encoded[39..k];
  }

  /** Bytes missing at the end of the data read as zeros, for every word the reader takes. */
  lemma {:induction false} MissingBytesAreZero(d: seq<Byte>, i: nat, n: nat)
    ensures WordAt(d, i, n) == LeValue(seq(n, j requires 0 <= j < n => if i + j < |d| then d[i + j] else 0))
    decreases n
  {
    var padded: seq<Byte> := seq(n, j requires 0 <= j < n => if i + j < |d| then d[i + j] else 0);
    if n > 0 {
      MissingBytesAreZero(d, i + 1, n - 1);
      var rest: seq<Byte> := seq(n - 1, j requires 0 <= j < n - 1 => if i + 1 + j < |d| then d[i + 1 + j] else 0);
      assert padded[1..] == rest;
    }
  }
}
