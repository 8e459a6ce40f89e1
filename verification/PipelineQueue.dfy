/** What every run keeps on the service's side: FIFO conservation, bounds, and the status history. */
module PipelineQueue {
  import opened Wire
  import opened Pinboard
  import opened Dedup
  import opened AnnounceService
  import opened Pipeline

  // ---- Conservation in FIFO order ----

  function FinishedBatches(finished: seq<Finished>): seq<Queued> {
    if finished == [] then []
    else FinishedBatches(finished[..|finished| - 1]) + finished[|finished| - 1].batch
  }

  /** The accepted entries with ids 0, 1, 2, ... */
  function Numbered(accepted: seq<Note>): seq<Queued> {
    seq(|accepted|, i requires 0 <= i < |accepted| => Queued(i, accepted[i]))
  }

  /** Finished batches, then the batch in flight, then `pending`, are the accepted entries, in order. */
  ghost predicate Fifo(s: System) {
    && s.queue.nextId == |s.accepted|
    && FinishedBatches(s.finished) + InFlight(s.publisher) + s.queue.pending == Numbered(s.accepted)
  }

  ghost predicate Bounded(s: System) {
    && Valid(s.queue)
    && (s.publisher.Idle? || 0 < |InFlight(s.publisher)| <= MAX_BATCH)
    && |InFlight(s.publisher)| <= s.queue.maxPending
    && forall i | 0 <= i < |s.accepted| :: ServiceAccepts(s.accepted[i])
  }

  lemma {:induction false} MarkedAllFrame(q: Queue, ids: seq<nat>, status: BatchStatus)
    requires Valid(q)
    ensures var q' := MarkedAll(q, ids, status);
            Valid(q') && q'.pending == q.pending && q'.nextId == q.nextId &&
            q'.maxPending == q.maxPending && q'.maxStatuses == q.maxStatuses
    ensures var q' := MarkedAll(q, ids, status);
            forall k | k in q'.statuses ::
              if k in ids then q'.statuses[k] == status else k in q.statuses && q'.statuses[k] == q.statuses[k]
    decreases |ids|
  {
    if ids != [] {
      WithStatusKeepsValid(q, ids[0], status);
      MarkedAllFrame(WithStatus(q, ids[0], status), ids[1..], status);
      assert ids == [ids[0]] + ids[1..];
    }
  }

  lemma EnqueuedFrame(q: Queue, entry: Note)
    requires Valid(q) && |q.pending| < q.maxPending
    ensures var q' := Enqueued(q, entry);
            Valid(q') && q'.pending == q.pending + [Queued(q.nextId, entry)] && q'.nextId == q.nextId + 1 &&
            q'.maxPending == q.maxPending && q'.maxStatuses == q.maxStatuses
    ensures var q' := Enqueued(q, entry);
            forall k | k in q'.statuses ::
              if k == q.nextId then q'.statuses[k] == Pending else k in q.statuses && q'.statuses[k] == q.statuses[k]
  {
    var q1 := q.(pending := q.pending + [Queued(q.nextId, entry)], nextId := q.nextId + 1);
    WithStatusKeepsValid(q1, q.nextId, Pending);
  }

  lemma BoundedStep(s: System, step: Step)
    requires Bounded(s)
    ensures Bounded(Apply(s, step))
  {
    hide Enqueued, MarkedAll, Circulating, Guard, SeenIn, Airborne;
    if |s.queue.pending| < s.queue.maxPending {
      forall note {
        EnqueuedFrame(s.queue, note);
      }
    }
    if s.publisher.Returned? {
      MarkedAllFrame(s.queue, Ids(s.publisher.batch), s.publisher.outcome);
    }
  }

  lemma FifoStep(s: System, step: Step)
    requires Bounded(s) && Fifo(s)
    ensures Fifo(Apply(s, step))
  {
    hide Enqueued, MarkedAll, AfterTake, TakeCount, Circulating, Guard, Sees, Fresh, FinishedBatches, Numbered;
    var s' := Apply(s, step);
    if |s.accepted| < |s'.accepted| {
      AcceptKeepsFifo(s, s'.accepted[|s.accepted|]);
    } else if step.Drain? {
      DrainKeepsFifo(s);
    } else if step.Mark? && s.publisher.Returned? {
      MarkedAllFrame(s.queue, Ids(s.publisher.batch), s.publisher.outcome);
      FinishedSnoc(s.finished, Finished(s.publisher.batch, s.publisher.outcome, s.publisher.carrier));
      var done, batch := FinishedBatches(s.finished), s.publisher.batch;
      assert done + batch + [] == done + batch;
    }
  }

  lemma AcceptKeepsFifo(s: System, note: Note)
    requires Bounded(s) && Fifo(s) && |s.queue.pending| < s.queue.maxPending
    ensures Fifo(s.(queue := Enqueued(s.queue, note), accepted := s.accepted + [note]))
  {
    hide Enqueued, FinishedBatches;
    EnqueuedFrame(s.queue, note);
    assert Numbered(s.accepted + [note]) == Numbered(s.accepted) + [Queued(|s.accepted|, note)];
  }

  lemma DrainKeepsFifo(s: System)
    requires Bounded(s) && Fifo(s)
    ensures Fifo(Apply(s, Drain))
  {
    hide FinishedBatches, Numbered;
    var s' := Apply(s, Drain);
    if s.publisher.Idle? && s.queue.pending != [] {
      assert s.queue.pending == s'.publisher.batch + s'.queue.pending;
    }
  }

  lemma FinishedSnoc(finished: seq<Finished>, f: Finished)
    ensures FinishedBatches(finished + [f]) == FinishedBatches(finished) + f.batch
    ensures Outcomes(finished + [f]) == Outcomes(finished) + seq(|f.batch|, _ => f.outcome)
  {
    assert (finished + [f])[..|finished|] == finished;
  }

  /** The outcome of each finished id. */
  function Outcomes(finished: seq<Finished>): (o: seq<BatchStatus>)
    ensures |o| == |FinishedBatches(finished)|
  {
    if finished == [] then []
    else
      var last := finished[|finished| - 1];
      Outcomes(finished[..|finished| - 1]) + seq(|last.batch|, _ => last.outcome)
  }

  // ---- Status lifecycle ----

  /** The status the history assigns to an id: its batch's outcome, or `Pending`. */
  function HistoryStatus(s: System, id: nat): BatchStatus {
    if id < |Outcomes(s.finished)| then Outcomes(s.finished)[id] else Pending
  }

  /** Every retained status is the one the history assigns; only assigned ids have one. */
  ghost predicate StatusesMatchHistory(s: System) {
    forall id | id in s.queue.statuses :: id < s.queue.nextId && s.queue.statuses[id] == HistoryStatus(s, id)
  }

  /** The in-flight batch and `pending` are the accepted entries after the finished ones. */
  lemma FifoPositions(s: System)
    requires Fifo(s)
    ensures |FinishedBatches(s.finished)| + |InFlight(s.publisher)| + |s.queue.pending| == |s.accepted|
    ensures forall i | 0 <= i < |FinishedBatches(s.finished)| ::
              FinishedBatches(s.finished)[i] == Queued(i, s.accepted[i])
    ensures var k := |FinishedBatches(s.finished)|;
            forall i | 0 <= i < |InFlight(s.publisher)| ::
              InFlight(s.publisher)[i] == Queued(k + i, s.accepted[k + i])
    ensures var k := |FinishedBatches(s.finished)| + |InFlight(s.publisher)|;
            forall i | 0 <= i < |s.queue.pending| :: s.queue.pending[i] == Queued(k + i, s.accepted[k + i])
  {
    var f, b, p := FinishedBatches(s.finished), InFlight(s.publisher), s.queue.pending;
    var all := Numbered(s.accepted);
    assert f + b + p == all;
    assert |f| + |b| + |p| == |all|;
    forall i | 0 <= i < |f|
      ensures f[i] == all[i]
    {
      assert (f + b + p)[i] == f[i];
    }
    forall i | 0 <= i < |b|
      ensures b[i] == all[|f| + i]
    {
      assert (f + b + p)[|f| + i] == b[i];
    }
    forall i | 0 <= i < |p|
      ensures p[i] == all[|f| + |b| + i]
    {
      assert (f + b + p)[|f| + |b| + i] == p[i];
    }
  }

  lemma StatusStep(s: System, step: Step)
    requires Bounded(s) && Fifo(s) && StatusesMatchHistory(s)
    ensures StatusesMatchHistory(Apply(s, step))
  {
    hide Enqueued, MarkedAll, Circulating, Guard, SeenIn, Airborne, FinishedBatches, Outcomes, Fresh, Sees;
    var s' := Apply(s, step);
    if |s.accepted| < |s'.accepted| {
      FifoPositions(s);
      EnqueuedFrame(s.queue, s'.accepted[|s.accepted|]);
    } else if step.Mark? {
      MarkStatuses(s);
    }
  }

  lemma MarkStatuses(s: System)
    requires Bounded(s) && Fifo(s) && StatusesMatchHistory(s)
    ensures StatusesMatchHistory(Apply(s, Mark))
  {
    hide MarkedAll, FinishedBatches, Outcomes;
    var s' := Apply(s, Mark);
    if s.publisher.Returned? {
      var ids := Ids(s.publisher.batch);
      FifoPositions(s);
      MarkedAllFrame(s.queue, ids, s.publisher.outcome);
      FinishedSnoc(s.finished, Finished(s.publisher.batch, s.publisher.outcome, s.publisher.carrier));
      var k := |FinishedBatches(s.finished)|;
      assert forall i | 0 <= i < |ids| :: ids[i] == k + i;
      forall id | id in s'.queue.statuses
        ensures id < s'.queue.nextId && s'.queue.statuses[id] == HistoryStatus(s', id)
      {
        if k <= id < k + |ids| {
          assert ids[id - k] == id;
        }
      }
    }
  }
}
