/**
  The status window: which ids keep a status. Enqueues evict while a batch is in flight, so
  the history must have room for the pending entries and the in-flight batch together.
 */
module PipelineWindow {
  import opened Wire
  import opened Sequences
  import opened AnnounceService
  import opened Pipeline
  import opened PipelineQueue

  /** The most recent ids the history has room for. */
  function RecentIds(nextId: nat, maxStatuses: nat): seq<nat> {
    var lo := if nextId <= maxStatuses then 0 else nextId - maxStatuses;
    seq(nextId - lo, i requires 0 <= i => lo + i)
  }

  ghost predicate Windowed(q: Queue) {
    q.statusOrder == RecentIds(q.nextId, q.maxStatuses)
  }

  /** The largest batch `take_pending(MAX_BATCH)` can drain. */
  function LargestBatch(q: Queue): nat {
    if q.maxPending < MAX_BATCH then q.maxPending else MAX_BATCH
  }

  /** The caps leave room for a full queue behind a full batch in flight. */
  predicate RoomForBatch(q: Queue) {
    q.maxStatuses >= q.maxPending + LargestBatch(q)
  }

  /** No pending or in-flight id has lost its status. */
  ghost predicate AllRetained(s: System) {
    && (forall i | 0 <= i < |InFlight(s.publisher)| :: InFlight(s.publisher)[i].id in s.queue.statuses)
    && (forall i | 0 <= i < |s.queue.pending| :: s.queue.pending[i].id in s.queue.statuses)
  }

  lemma RecentIn(nextId: nat, maxStatuses: nat, id: nat)
    ensures id in RecentIds(nextId, maxStatuses) <==> id < nextId <= id + maxStatuses
  {
    var ids := RecentIds(nextId, maxStatuses);
    var lo := if nextId <= maxStatuses then 0 else nextId - maxStatuses;
    if lo <= id < nextId {
      assert ids[id - lo] == id;
    }
  }

  lemma EnqueueKeepsWindow(q: Queue, entry: Note)
    requires Valid(q) && Windowed(q)
    ensures Windowed(Enqueued(q, entry))
  {
    if |q.pending| < q.maxPending {
      RecentIn(q.nextId, q.maxStatuses, q.nextId);
      assert q.nextId !in q.statuses;
      RecentSnoc(q.nextId, q.maxStatuses);
      hide RecentIds, LastN;
    }
  }

  lemma RecentSnoc(nextId: nat, maxStatuses: nat)
    requires maxStatuses >= 1
    ensures LastN(RecentIds(nextId, maxStatuses) + [nextId], maxStatuses) == RecentIds(nextId + 1, maxStatuses)
  {
  }

  lemma {:induction false} MarkKeepsOrder(q: Queue, ids: seq<nat>, status: BatchStatus)
    requires Valid(q) && forall i | 0 <= i < |ids| :: ids[i] in q.statuses
    ensures MarkedAll(q, ids, status).statusOrder == q.statusOrder
    decreases |ids|
  {
    if ids != [] {
      WithStatusKeepsValid(q, ids[0], status);
      MarkKeepsOrder(WithStatus(q, ids[0], status), ids[1..], status);
    }
  }

  /** With room, the window covers everything pending or in flight. */
  lemma RoomRetains(s: System)
    requires Bounded(s) && Fifo(s) && Windowed(s.queue) && RoomForBatch(s.queue)
    ensures AllRetained(s)
  {
    FifoPositions(s);
    var batch := InFlight(s.publisher);
    forall i | 0 <= i < |batch|
      ensures batch[i].id in s.queue.statuses
    {
      RecentIn(s.queue.nextId, s.queue.maxStatuses, batch[i].id);
    }
    forall i | 0 <= i < |s.queue.pending|
      ensures s.queue.pending[i].id in s.queue.statuses
    {
      RecentIn(s.queue.nextId, s.queue.maxStatuses, s.queue.pending[i].id);
    }
  }

  lemma WindowStep(s: System, step: Step)
    requires Bounded(s) && Fifo(s) && Windowed(s.queue) && RoomForBatch(s.queue)
    ensures Windowed(Apply(s, step).queue)
    ensures Apply(s, step).queue.maxPending == s.queue.maxPending
    ensures Apply(s, step).queue.maxStatuses == s.queue.maxStatuses
  {
    hide Enqueued, MarkedAll, Circulating, Airborne, Fresh, RecentIds;
    match step {
      case HandleRequest(r) =>
        if r in s.wallets {
          SubmitWindow(s.queue, s.wallets[r].note);
        }
      case HandleOther(entry) => SubmitWindow(s.queue, entry);
      case Mark =>
        if s.publisher.Returned? {
          RoomRetains(s);
          MarkKeepsOrder(s.queue, Ids(s.publisher.batch), s.publisher.outcome);
          MarkedAllFrame(s.queue, Ids(s.publisher.batch), s.publisher.outcome);
        }
      case _ =>
    }
  }

  lemma SubmitWindow(q: Queue, entry: Note)
    requires Valid(q) && Windowed(q)
    ensures Windowed(Enqueued(q, entry))
    ensures Enqueued(q, entry).maxPending == q.maxPending && Enqueued(q, entry).maxStatuses == q.maxStatuses
  {
    EnqueueKeepsWindow(q, entry);
  }

  /** In every run, with room: exactly the most recent ids have a status, in order. */
  lemma {:induction false} RoomGivesWindow(maxPending: nat, maxStatuses: nat, timeout: nat, steps: seq<Step>)
    requires RoomForBatch(EmptyQueue(maxPending, maxStatuses))
    ensures var s := Run(Init(maxPending, maxStatuses, timeout), steps);
            && Windowed(s.queue) && AllRetained(s) && Bounded(s) && Fifo(s)
            && s.queue.maxPending == EmptyQueue(maxPending, maxStatuses).maxPending
            && s.queue.maxStatuses == EmptyQueue(maxPending, maxStatuses).maxStatuses
  {
    hide Apply;
    if steps != [] {
      RoomGivesWindow(maxPending, maxStatuses, timeout, steps[..|steps| - 1]);
      var s, step := Run(Init(maxPending, maxStatuses, timeout), steps[..|steps| - 1]), steps[|steps| - 1];
      BoundedStep(s, step);
      FifoStep(s, step);
      WindowStep(s, step);
      RoomRetains(Apply(s, step));
    }
  }

  // ---- Without room some run loses an in-flight id ----

  /** `n` requests from strangers, all accepted. */
  lemma {:induction false} EnqueueMany(s: System, e: Note, n: nat)
    requires Valid(s.queue) && Windowed(s.queue) && ServiceAccepts(e)
    requires |s.queue.pending| + n <= s.queue.maxPending
    ensures var s' := Run(s, seq(n, _ => HandleOther(e)));
            && Valid(s'.queue) && Windowed(s'.queue) && s'.publisher == s.publisher && s'.finished == s.finished
            && s'.queue.nextId == s.queue.nextId + n && |s'.queue.pending| == |s.queue.pending| + n
            && s.queue.pending <= s'.queue.pending
            && s'.queue.maxPending == s.queue.maxPending && s'.queue.maxStatuses == s.queue.maxStatuses
  {
    hide RecentIds, Enqueued, Windowed;
    var steps := seq(n, _ => HandleOther(e));
    if n > 0 {
      EnqueueMany(s, e, n - 1);
      assert steps[..n - 1] == seq(n - 1, _ => HandleOther(e));
      var s1 := Run(s, steps[..n - 1]);
      EnqueuedFrame(s1.queue, e);
      EnqueueKeepsWindow(s1.queue, e);
    }
  }

  /** Fill the queue, drain a batch, refill: the first in-flight id is evicted. */
  lemma NoRoomLosesStatus(maxPending: nat, maxStatuses: nat, timeout: nat) returns (steps: seq<Step>)
    requires !RoomForBatch(EmptyQueue(maxPending, maxStatuses))
    ensures !AllRetained(Run(Init(maxPending, maxStatuses, timeout), steps))
  {
    var s0 := Init(maxPending, maxStatuses, timeout);
    var q := s0.queue;
    var n, b := q.maxPending, LargestBatch(q);
    var e := Note(1, seq(32, _ => 0), 0, []);
    assert RecentIds(0, q.maxStatuses) == [];
    hide RecentIds, Enqueued;
    var fill, refill := seq(n, _ => HandleOther(e)), seq(b, _ => HandleOther(e));
    EnqueueMany(s0, e, n);
    var s1 := Run(s0, fill);
    var s2 := Apply(s1, Drain);
    assert Run(s1, [Drain]) == s2 by {
      assert Run(s1, []) == s1 && [Drain][..0] == [];
    }
    EnqueueMany(s2, e, b);
    RunAppend(s0, fill, [Drain]);
    RunAppend(s0, fill + [Drain], refill);
    steps := fill + [Drain] + refill;
    var s3 := Run(s0, steps);
    FirstIdInFlight(maxPending, maxStatuses, timeout, fill + [Drain]);
    RecentIn(s3.queue.nextId, s3.queue.maxStatuses, 0);
    assert InFlight(s3.publisher)[0].id == 0;
  }

  /** Before the first batch is marked, the batch in flight starts with id 0. */
  lemma FirstIdInFlight(maxPending: nat, maxStatuses: nat, timeout: nat, steps: seq<Step>)
    ensures var s := Run(Init(maxPending, maxStatuses, timeout), steps);
            s.finished == [] && !s.publisher.Idle? ==> |InFlight(s.publisher)| > 0 && InFlight(s.publisher)[0].id == 0
  {
    var s := Run(Init(maxPending, maxStatuses, timeout), steps);
    RunFifo(maxPending, maxStatuses, timeout, steps);
    FifoPositions(s);
  }

  lemma {:induction false} RunFifo(maxPending: nat, maxStatuses: nat, timeout: nat, steps: seq<Step>)
    ensures var s := Run(Init(maxPending, maxStatuses, timeout), steps);
            Bounded(s) && Fifo(s)
  {
    hide Apply;
    if steps != [] {
      RunFifo(maxPending, maxStatuses, timeout, steps[..|steps| - 1]);
      var s, step := Run(Init(maxPending, maxStatuses, timeout), steps[..|steps| - 1]), steps[|steps| - 1];
      BoundedStep(s, step);
      FifoStep(s, step);
    }
  }

  /** Ids count accepted requests, so the source's 64-bit counter cannot wrap in fewer than 2^64 steps. */
  lemma {:induction false} IdsCountSteps(maxPending: nat, maxStatuses: nat, timeout: nat, steps: seq<Step>)
    ensures Run(Init(maxPending, maxStatuses, timeout), steps).queue.nextId <= |steps|
  {
    hide Apply;
    if steps != [] {
      IdsCountSteps(maxPending, maxStatuses, timeout, steps[..|steps| - 1]);
      var s, step := Run(Init(maxPending, maxStatuses, timeout), steps[..|steps| - 1]), steps[|steps| - 1];
      RunFifo(maxPending, maxStatuses, timeout, steps[..|steps| - 1]);
      FifoStep(s, step);
      AcceptsAtMostOne(s, step);
    }
  }

  lemma AcceptsAtMostOne(s: System, step: Step)
    ensures |Apply(s, step).accepted| <= |s.accepted| + 1
  {
    hide Enqueued, MarkedAll, Circulating, Sees, Entries;
  }

  /**
    The exact condition on the caps: no run loses the status of a pending or in-flight id
    if and only if the history has room for a full queue and a largest batch together.
   */
  lemma WindowExactly(maxPending: nat, maxStatuses: nat, timeout: nat)
    ensures RoomForBatch(EmptyQueue(maxPending, maxStatuses)) <==>
            forall steps :: AllRetained(Run(Init(maxPending, maxStatuses, timeout), steps))
  {
    if RoomForBatch(EmptyQueue(maxPending, maxStatuses)) {
      forall steps
        ensures AllRetained(Run(Init(maxPending, maxStatuses, timeout), steps))
      {
        RoomGivesWindow(maxPending, maxStatuses, timeout, steps);
      }
    } else {
      var steps := NoRoomLosesStatus(maxPending, maxStatuses, timeout);
    }
  }

  /** The service's defaults have room. */
  lemma DefaultsHaveRoom()
    ensures RoomForBatch(EmptyQueue(MAX_PENDING, MAX_STATUSES))
  {
  }
}
