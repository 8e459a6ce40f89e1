/** The on-chain pinboard program: validate, emit `Note` events, or roll the transaction back. */
module Pinboard {
  import opened Results
  import opened Bytes
  import opened Wire

  const MAX_METADATA_LEN: nat := 64
  const MAX_BATCH_ENTRIES: nat := 50

  datatype PinboardError = MetadataTooLong | EmptyBatch | BatchTooLarge

  datatype Instruction = Post(note: Note) | PostBatch(entries: seq<Note>)

  /** The notes an instruction asks to have emitted. */
  function NotesOf(ix: Instruction): seq<Note> {
    match ix
    case Post(note) => [note]
    case PostBatch(entries) => entries
  }

  predicate MetadataFits(entries: seq<Note>) {
    forall i | 0 <= i < |entries| :: |entries[i].metadata| <= MAX_METADATA_LEN
  }

  /** The guard an instruction fails, if any; the batch-size guards come first. */
  function Guard(ix: Instruction): Option<PinboardError> {
    if ix.PostBatch? && ix.entries == [] then Some(EmptyBatch)
    else if ix.PostBatch? && |ix.entries| > MAX_BATCH_ENTRIES then Some(BatchTooLarge)
    else if !MetadataFits(NotesOf(ix)) then Some(MetadataTooLong)
    else None
  }

  /** What the program accepts, in numbers, and the guard that stops each other instruction. */
  lemma GuardExactly(ix: Instruction)
    ensures Guard(ix) == None <==>
            && (ix.PostBatch? ==> 1 <= |ix.entries| <= 50)
            && forall n | n in NotesOf(ix) :: |n.metadata| <= 64
    ensures Guard(ix) == Some(EmptyBatch) <==> ix == PostBatch([])
    ensures Guard(ix) == Some(BatchTooLarge) <==> ix.PostBatch? && |ix.entries| > 50
  {
    var notes := NotesOf(ix);
    assert forall i | 0 <= i < |notes| :: notes[i] in notes;
  }

  /** The program and the chain's log of emitted notes. */
  class Program {
    var log: seq<Note>

    constructor ()
      ensures log == []
    {
      log := [];
    }

    /** `post`. */
    method Post(note: Note) returns (r: Result<(), PinboardError>)
      modifies this
      ensures r == (match Guard(Instruction.Post(note)) case Some(e) => Err(e) case None => Ok(()))
      ensures log == old(log) + if r.Ok? then [note] else []
    {
      if |note.metadata| > MAX_METADATA_LEN {
        assert !MetadataFits([note]) by {
          assert [note][0] == note;
        }
        return Err(MetadataTooLong);
      }
      log := log + [note];
      return Ok(());
    }

    /** `post_batch`: notes are emitted one by one; a failing entry undoes the ones before it. */
    method PostBatch(entries: seq<Note>) returns (r: Result<(), PinboardError>)
      modifies this
      ensures r == (match Guard(Instruction.PostBatch(entries)) case Some(e) => Err(e) case None => Ok(()))
      ensures log == old(log) + if r.Ok? then entries else []
    {
      if entries == [] {
        return Err(EmptyBatch);
      }
      if |entries| > MAX_BATCH_ENTRIES {
        return Err(BatchTooLarge);
      }
      var before := log;
      for i := 0 to |entries|
        invariant log == before + entries[..i]
        invariant MetadataFits(entries[..i])
      {
        if |entries[i].metadata| > MAX_METADATA_LEN {
          log := before; // the runtime discards a failed transaction's effects
          return Err(MetadataTooLong);
        }
        log := log + [entries[i]];
        assert forall j | 0 <= j < i :: entries[..i][j] == entries[j];
      }
      assert entries[..|entries|] == entries;
      return Ok(());
    }
  }

  /** Anchor dispatch: the discriminator selects the handler, Borsh decodes its arguments. */
  function Dispatch(data: seq<Byte>): Option<Instruction> {
    if |data| < 8 then None
    else if data[..8] == POST_DISCRIMINATOR then
      match TakeNote(data[8..])
      case Some((n, _)) => Some(Post(n))
      case None => None
    else if data[..8] == POST_BATCH_DISCRIMINATOR then
      match TakeBatch(data[8..])
      case Some((entries, _)) => Some(PostBatch(entries))
      case None => None
    else None
  }

  /** The program executes the very instruction the SDKs built. */
  lemma DispatchesWhatWasBuilt(n: Note, entries: seq<Note>)
    ensures Encodable(n) ==> Dispatch(RustPostData(n)) == Some(Post(n))
    ensures EncodableBatch(entries) ==> Dispatch(RustPostBatchData(entries)) == Some(PostBatch(entries))
  {
    var one, many := RustPostData(n), RustPostBatchData(entries);
    assert one[..8] == POST_DISCRIMINATOR && one[8..] == EncodeNote(n) + [];
    assert many[..8] == POST_BATCH_DISCRIMINATOR && many[8..] == EncodeBatch(entries) + [];
    TakeNoteExactly(one[8..], n, []);
    BatchDecodesExactly(many[8..], entries, []);
    assert POST_DISCRIMINATOR[0] != POST_BATCH_DISCRIMINATOR[0];
  }

  /** What passes the guards can be serialized, so the program receives what the service built. */
  lemma AcceptedIsDispatched(entries: seq<Note>)
    requires Guard(PostBatch(entries)) == None
    ensures Dispatch(RustPostBatchData(entries)) == Some(PostBatch(entries))
  {
    DispatchesWhatWasBuilt(entries[0], entries);
  }
}
