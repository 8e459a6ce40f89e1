/**
  The announcement service's queue (section 5.8.4 of sRFC-0042): request validation, and
  `AnnounceQueue` with its bounded status history. The value type `Queue` and its
  functions specify the class; the pipeline's step system runs on them.
 */
module AnnounceService {
  import opened Results
  import opened Bytes
  import opened Wire
  import opened Sequences

  const MAX_METADATA_LEN: nat := 64
  const MAX_PENDING: nat := 10_000
  const MAX_STATUSES: nat := 50_000

  // ---- Requests ----

  /** The base58 codec of the `bs58` library, of which only the inverse laws are used. */
  datatype Base58 = Base58(encode: seq<Byte> -> string, decode: string -> Option<seq<Byte>>)

  ghost predicate Inverse(b58: Base58) {
    (forall b :: b58.decode(b58.encode(b)) == Some(b)) && b58.decode("") == Some([])
  }

  datatype AnnounceRequest = AnnounceRequest(
    schemeId: U16, ephemeralPub: string, viewTag: Byte, metadata: string, paymentProof: Option<string>)

  datatype RequestError = ZeroScheme | EphemeralNotBase58 | EphemeralLength | MetadataNotBase58 | MetadataTooLong

  /** `AnnounceRequest::from_announcement`. */
  function FromAnnouncement(b58: Base58, a: Note, paymentProof: Option<string>): AnnounceRequest {
    AnnounceRequest(a.schemeId, b58.encode(a.ephemeralPub), a.viewTag, b58.encode(a.metadata), paymentProof)
  }

  /** `request_to_note_entry`. */
  function RequestToNoteEntry(b58: Base58, req: AnnounceRequest): Result<Note, RequestError> {
    if req.schemeId == 0 then Err(ZeroScheme)
    else
      match b58.decode(req.ephemeralPub)
      case None => Err(EphemeralNotBase58)
      case Some(r) =>
        if |r| != 32 then Err(EphemeralLength)
        else
          match if req.metadata == "" then Some([]) else b58.decode(req.metadata)
          case None => Err(MetadataNotBase58)
          case Some(metadata) =>
            if |metadata| > MAX_METADATA_LEN then Err(MetadataTooLong)
            else Ok(Note(req.schemeId, r, req.viewTag, metadata))
  }

  /** The service turns a request back into the wallet's announcement, or names the limit it breaks. */
  lemma RequestRoundTrip(b58: Base58, a: Note, paymentProof: Option<string>)
    requires Inverse(b58)
    ensures RequestToNoteEntry(b58, FromAnnouncement(b58, a, paymentProof)) ==
            if a.schemeId == 0 then Err(ZeroScheme)
            else if |a.metadata| > MAX_METADATA_LEN then Err(MetadataTooLong)
            else Ok(a)
  {
    assert b58.decode(b58.encode(a.ephemeralPub)) == Some(a.ephemeralPub);
    assert b58.decode(b58.encode(a.metadata)) == Some(a.metadata);
  }

  /** Which requests are accepted, wherever they come from, and as what. */
  lemma RequestAcceptedExactly(b58: Base58, req: AnnounceRequest, n: Note)
    ensures RequestToNoteEntry(b58, req) == Ok(n) <==>
            && n.schemeId == req.schemeId != 0
            && b58.decode(req.ephemeralPub) == Some(n.ephemeralPub)
            && n.viewTag == req.viewTag
            && (if req.metadata == "" then n.metadata == [] else b58.decode(req.metadata) == Some(n.metadata))
            && |n.metadata| <= 64
  {
  }

  /** Which check a refused request fails, the first one in this order. */
  lemma RequestRefusedExactly(b58: Base58, req: AnnounceRequest)
    ensures RequestToNoteEntry(b58, req).Err? ==>
              RequestToNoteEntry(b58, req).error ==
              if req.schemeId == 0 then ZeroScheme
              else if b58.decode(req.ephemeralPub) == None then EphemeralNotBase58
              else if |b58.decode(req.ephemeralPub).value| != 32 then EphemeralLength
              else if req.metadata != "" && b58.decode(req.metadata) == None then MetadataNotBase58
              else MetadataTooLong
  {
  }

  // ---- The queue as a value ----

  datatype BatchStatus = Pending | Confirmed(signature: string) | Failed(reason: string)

  datatype QueueFull = QueueFull

  datatype Queued = Queued(id: nat, entry: Note)

  datatype Queue = Queue(
    pending: seq<Queued>,
    nextId: nat,
    statuses: map<nat, BatchStatus>,
    statusOrder: seq<nat>,
    maxPending: nat,
    maxStatuses: nat)

  ghost predicate Distinct(ids: seq<nat>) {
    forall i, j | 0 <= i < j < |ids| :: ids[i] != ids[j]
  }

  /** Both histories are bounded, and `statusOrder` lists each key of `statuses` once. */
  ghost predicate Valid(q: Queue) {
    && q.maxPending >= 1 && q.maxStatuses >= 1
    && |q.pending| <= q.maxPending
    && |q.statusOrder| <= q.maxStatuses
    && Distinct(q.statusOrder)
    && forall id :: id in q.statuses <==> id in q.statusOrder
  }

  function EmptyQueue(maxPending: nat, maxStatuses: nat): Queue {
    Queue([], 0, map[], [], if maxPending < 1 then 1 else maxPending, if maxStatuses < 1 then 1 else maxStatuses)
  }

  /** Recording a status: a new id joins the history, which keeps its `maxStatuses` most recent ids. */
  function WithStatus(q: Queue, id: nat, status: BatchStatus): Queue {
    if id in q.statuses then q.(statuses := q.statuses[id := status])
    else
      var order := LastN(q.statusOrder + [id], q.maxStatuses);
      q.(statusOrder := order,
         statuses := (map k | k in q.statuses && k in order :: q.statuses[k])[id := status])
  }

  function MarkedAll(q: Queue, ids: seq<nat>, status: BatchStatus): Queue
    decreases |ids|
  {
    if ids == [] then q else MarkedAll(WithStatus(q, ids[0], status), ids[1..], status)
  }

  function Enqueued(q: Queue, entry: Note): Queue {
    if |q.pending| >= q.maxPending then q
    else WithStatus(q.(pending := q.pending + [Queued(q.nextId, entry)], nextId := q.nextId + 1), q.nextId, Pending)
  }

  /** How many entries `take_pending(max)` drains. */
  function TakeCount(q: Queue, max: nat): nat {
    if max < |q.pending| then max else |q.pending|
  }

  function AfterTake(q: Queue, max: nat): Queue {
    q.(pending := q.pending[TakeCount(q, max)..])
  }

  // ---- The queue as the service's object ----

  class AnnounceQueue {
    var pending: seq<Queued>
    var nextId: nat
    var statuses: map<nat, BatchStatus>
    var statusOrder: seq<nat>
    const maxPending: nat
    const maxStatuses: nat

    ghost function State(): Queue
      reads this
    {
      Queue(pending, nextId, statuses, statusOrder, maxPending, maxStatuses)
    }

    constructor WithCaps(maxPending: nat, maxStatuses: nat)
      ensures State() == EmptyQueue(maxPending, maxStatuses)
      ensures Valid(State())
      ensures maxPending >= 1 ==> this.maxPending == maxPending
      ensures maxStatuses >= 1 ==> this.maxStatuses == maxStatuses
      ensures maxPending == 0 ==> this.maxPending == 1
      ensures maxStatuses == 0 ==> this.maxStatuses == 1
    {
      this.pending := [];
      this.nextId := 0;
      this.statuses := map[];
      this.statusOrder := [];
      this.maxPending := if maxPending < 1 then 1 else maxPending;
      this.maxStatuses := if maxStatuses < 1 then 1 else maxStatuses;
    }

    method Enqueue(entry: Note) returns (r: Result<nat, QueueFull>)
      requires Valid(State())
      modifies this
      ensures Valid(State()) && State() == Enqueued(old(State()), entry)
      ensures r == if |old(pending)| < maxPending then Ok(old(nextId)) else Err(QueueFull)
    {
      if |pending| >= maxPending {
        return Err(QueueFull);
      }
      var id := nextId;
      nextId := nextId + 1;
      pending := pending + [Queued(id, entry)];
      SetStatus(id, Pending);
      return Ok(id);
    }

    method TakePending(max: nat) returns (batch: seq<Queued>)
      requires Valid(State())
      modifies this`pending
      ensures Valid(State()) && State() == AfterTake(old(State()), max)
      ensures batch + pending == old(pending) && |batch| == TakeCount(old(State()), max)
    {
      var n := if max < |pending| then max else |pending|;
      batch := pending[..n];
      pending := pending[n..];
    }

    /** The eviction loop runs before the insertion, yet the id being set is never the one evicted. */
    method SetStatus(id: nat, status: BatchStatus)
      requires Valid(State())
      modifies this`statuses, this`statusOrder
      ensures Valid(State()) && State() == WithStatus(old(State()), id, status)
      ensures id in statuses && statuses[id] == status
    {
      ghost var q := State();
      if id !in statuses {
        statusOrder := statusOrder + [id];
        while |statusOrder| > maxStatuses
          invariant unchanged(`pending) && unchanged(`nextId)
          invariant (statusOrder == q.statusOrder + [id] && statuses == q.statuses) ||
                    (|q.statusOrder| == maxStatuses && statusOrder == (q.statusOrder + [id])[1..] &&
                     statuses == q.statuses - {q.statusOrder[0]})
        {
          var oldest := statusOrder[0];
          statusOrder := statusOrder[1..];
          statuses := statuses - {oldest};
        }
        EvictionResult(q, id);
      }
      statuses := statuses[id := status];
      WithStatusKeepsValid(q, id, status);
    }

    method Status(id: nat) returns (s: Option<BatchStatus>)
      ensures s == if id in statuses then Some(statuses[id]) else None
    {
      s := if id in statuses then Some(statuses[id]) else None;
    }
  }

  /** The locked section of `post_announce`: validate, then enqueue. */
  method PostAnnounce(queue: AnnounceQueue, b58: Base58, req: AnnounceRequest)
    returns (r: Result<nat, Option<RequestError>>)
    requires Valid(queue.State())
    modifies queue
    ensures Valid(queue.State())
    ensures match RequestToNoteEntry(b58, req)
            case Err(e) => r == Err(Some(e)) && queue.State() == old(queue.State())
            case Ok(entry) =>
              && queue.State() == Enqueued(old(queue.State()), entry)
              && r == if |old(queue.pending)| < queue.maxPending then Ok(old(queue.nextId)) else Err(None)
  {
    match RequestToNoteEntry(b58, req)
    case Err(e) => r := Err(Some(e));
    case Ok(entry) =>
      var id := queue.Enqueue(entry);
      r := match id case Ok(i) => Ok(i) case Err(_) => Err(None);
  }

  /** The publisher's second locked section: one outcome for every id of the drained batch. */
  method MarkBatch(queue: AnnounceQueue, ids: seq<nat>, outcome: BatchStatus)
    requires Valid(queue.State())
    modifies queue
    ensures Valid(queue.State()) && queue.State() == MarkedAll(old(queue.State()), ids, outcome)
  {
    for i := 0 to |ids|
      invariant Valid(queue.State())
      invariant MarkedAll(queue.State(), ids[i..], outcome) == MarkedAll(old(queue.State()), ids, outcome)
    {
      assert ids[i..][1..] == ids[i + 1..];
      queue.SetStatus(ids[i], outcome);
    }
  }

  // ---- Properties of the status history ----

  lemma DistinctSnoc(ids: seq<nat>, id: nat)
    requires Distinct(ids) && id !in ids
    ensures Distinct(ids + [id])
  {
  }

  /** Adding one id to a full history evicts exactly the oldest. */
  lemma EvictionResult(q: Queue, id: nat)
    requires Valid(q) && id !in q.statuses
    ensures var all := q.statusOrder + [id];
            var order := LastN(all, q.maxStatuses);
            var kept := map k | k in q.statuses && k in order :: q.statuses[k];
            if |q.statusOrder| == q.maxStatuses then order == all[1..] && kept == q.statuses - {q.statusOrder[0]}
            else order == all && kept == q.statuses
  {
    if |q.statusOrder| == q.maxStatuses {
      var oldest, rest := q.statusOrder[0], q.statusOrder[1..] + [id];
      assert (q.statusOrder + [id])[1..] == rest;
      assert q.statusOrder == [oldest] + q.statusOrder[1..];
      assert oldest !in rest;
    }
  }

  lemma SuffixOf(ids: seq<nat>, n: nat)
    requires n <= |ids|
    ensures forall k | k in ids[n..] :: k in ids
    ensures n < |ids| ==> ids[|ids| - 1] in ids[n..]
  {
    if n < |ids| {
      assert ids[n..][|ids| - 1 - n] == ids[|ids| - 1];
    }
  }

  lemma WithStatusKeepsValid(q: Queue, id: nat, status: BatchStatus)
    requires Valid(q)
    ensures Valid(WithStatus(q, id, status))
    ensures var q' := WithStatus(q, id, status);
            id in q'.statuses && q'.statuses[id] == status
    ensures forall k | k in WithStatus(q, id, status).statuses && k != id ::
              k in q.statuses && WithStatus(q, id, status).statuses[k] == q.statuses[k]
  {
    if id !in q.statuses {
      var all := q.statusOrder + [id];
      var n := if |all| <= q.maxStatuses then 0 else |all| - q.maxStatuses;
      DistinctSnoc(q.statusOrder, id);
      assert LastN(all, q.maxStatuses) == all[n..];
      SuffixOf(all, n);
    }
  }

  // ---- Every public call, with arbitrary arguments, keeps the structure ----

  datatype Call = Enqueue(entry: Note) | TakePending(max: nat) | SetStatus(id: nat, status: BatchStatus)

  function AfterCall(q: Queue, call: Call): Queue {
    match call
    case Enqueue(entry) => Enqueued(q, entry)
    case TakePending(max) => AfterTake(q, max)
    case SetStatus(id, status) => WithStatus(q, id, status)
  }

  function AfterCalls(q: Queue, calls: seq<Call>): Queue
    decreases |calls|
  {
    if calls == [] then q else AfterCalls(AfterCall(q, calls[0]), calls[1..])
  }

  lemma AfterCallKeepsValid(q: Queue, call: Call)
    requires Valid(q)
    ensures Valid(AfterCall(q, call))
  {
    match call
    case Enqueue(entry) =>
      if |q.pending| < q.maxPending {
        WithStatusKeepsValid(
          q.(pending := q.pending + [Queued(q.nextId, entry)], nextId := q.nextId + 1), q.nextId, Pending);
      }
    case TakePending(max) =>
    case SetStatus(id, status) => WithStatusKeepsValid(q, id, status);
  }

  /** In every history of calls the structure holds, and a status just set is the one read back. */
  lemma {:induction false} AnyCallsKeepValid(maxPending: nat, maxStatuses: nat, calls: seq<Call>)
    ensures Valid(AfterCalls(EmptyQueue(maxPending, maxStatuses), calls))
    ensures forall id, status ::
              var q := WithStatus(AfterCalls(EmptyQueue(maxPending, maxStatuses), calls), id, status);
              id in q.statuses && q.statuses[id] == status
  {
    CallsKeepValid(EmptyQueue(maxPending, maxStatuses), calls);
    forall id, status
      ensures var q := WithStatus(AfterCalls(EmptyQueue(maxPending, maxStatuses), calls), id, status);
              id in q.statuses && q.statuses[id] == status
    {
      WithStatusKeepsValid(AfterCalls(EmptyQueue(maxPending, maxStatuses), calls), id, status);
    }
  }

  lemma {:induction false} CallsKeepValid(q: Queue, calls: seq<Call>)
    requires Valid(q)
    ensures Valid(AfterCalls(q, calls))
    decreases |calls|
  {
    if calls != [] {
      AfterCallKeepsValid(q, calls[0]);
      CallsKeepValid(AfterCall(q, calls[0]), calls[1..]);
    }
  }
}
