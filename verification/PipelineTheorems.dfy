/** The pipeline's guarantees over every run, from the invariants the steps keep. */
module PipelineTheorems {
  import opened Results
  import opened Wire
  import opened Pinboard
  import opened Dedup
  import opened AnnounceService
  import opened Pipeline
  import opened PipelineQueue
  import opened PipelineLedger
  import opened PipelineCopies

  ghost predicate Invariant(s: System) {
    && Bounded(s) && Fifo(s) && StatusesMatchHistory(s)
    && Ledger(s) && WalletsConsistent(s)
    && CopiesAccounted(s)
  }

  /**
    In every run: the queue is bounded; finished batches, the batch in flight and `pending`
    are the accepted entries in order; every retained status is the one its batch ended with.
   */
  lemma {:induction false} EveryRunKeeps(maxPending: nat, maxStatuses: nat, timeout: nat, steps: seq<Step>)
    ensures Invariant(Run(Init(maxPending, maxStatuses, timeout), steps))
  {
    hide Apply, Bounded, Fifo, StatusesMatchHistory, Ledger, WalletsConsistent, CopiesAccounted;
    if steps == [] {
      InitKeeps(maxPending, maxStatuses, timeout);
    } else {
      var s, step := Run(Init(maxPending, maxStatuses, timeout), steps[..|steps| - 1]), steps[|steps| - 1];
      EveryRunKeeps(maxPending, maxStatuses, timeout, steps[..|steps| - 1]);
      BoundedStep(s, step);
      FifoStep(s, step);
      StatusStep(s, step);
      LedgerStep(s, step);
      WalletsStep(s, step);
      CopiesStep(s, step);
    }
  }

  lemma InitKeeps(maxPending: nat, maxStatuses: nat, timeout: nat)
    ensures Invariant(Init(maxPending, maxStatuses, timeout))
  {
  }

  /** Transactions of the service and of the wallets are never rejected by the program. */
  lemma HonestTransactionsNeverRejected(
      maxPending: nat, maxStatuses: nat, timeout: nat, steps: seq<Step>, i: nat)
    requires i < |Run(Init(maxPending, maxStatuses, timeout), steps).txs|
    ensures var tx := Run(Init(maxPending, maxStatuses, timeout), steps).txs[i];
            && (tx.origin != Other ==> Guard(tx.ix) == None && !tx.state.Rejected?)
            && (tx.origin.Service? ==> Dispatch(RustPostBatchData(Entries(tx.origin.batch))) == Some(tx.ix))
            && (tx.state.Landed? ==> OnChain(Run(Init(maxPending, maxStatuses, timeout), steps).log, NotesOf(tx.ix)))
  {
    hide Run, Guard, Dispatch, RustPostBatchData, Bounded, Fifo, StatusesMatchHistory, WalletsConsistent,
         CopiesAccounted;
    EveryRunKeeps(maxPending, maxStatuses, timeout, steps);
    var s := Run(Init(maxPending, maxStatuses, timeout), steps);
    assert TxConsistent(s.log, s.txs[i]);
    if s.txs[i].origin.Service? {
      AcceptedIsDispatched(Entries(s.txs[i].origin.batch));
    }
  }

  // ---- Statuses ----

  /** Position of the first entry of batch `j` among all finished entries. */
  function Offset(finished: seq<Finished>, j: nat): nat
    requires j <= |finished|
  {
    |FinishedBatches(finished[..j])|
  }

  lemma {:induction false} BatchAt(finished: seq<Finished>, j: nat, i: nat)
    requires j < |finished| && i < |finished[j].batch|
    ensures Offset(finished, j) + i < |Outcomes(finished)|
    ensures Outcomes(finished)[Offset(finished, j) + i] == finished[j].outcome
    ensures FinishedBatches(finished)[Offset(finished, j) + i] == finished[j].batch[i]
  {
    var init := finished[..|finished| - 1];
    if j == |finished| - 1 {
    } else {
      BatchAt(init, j, i);
      assert init[..j] == finished[..j];
    }
  }

  lemma {:induction false} BatchOf(finished: seq<Finished>, id: nat) returns (j: nat, i: nat)
    requires id < |FinishedBatches(finished)|
    ensures j < |finished| && i < |finished[j].batch| && Offset(finished, j) + i == id
  {
    var init := finished[..|finished| - 1];
    if id < |FinishedBatches(init)| {
      j, i := BatchOf(init, id);
      assert init[..j] == finished[..j];
    } else {
      j, i := |finished| - 1, id - |FinishedBatches(init)|;
    }
  }

  /** All ids of one drained batch that still have a status have the batch's one outcome. */
  lemma BatchSharesOutcome(
      maxPending: nat, maxStatuses: nat, timeout: nat, steps: seq<Step>, j: nat, i: nat)
    requires var s := Run(Init(maxPending, maxStatuses, timeout), steps);
             j < |s.finished| && i < |s.finished[j].batch|
    ensures var s := Run(Init(maxPending, maxStatuses, timeout), steps);
            var id := s.finished[j].batch[i].id;
            id in s.queue.statuses ==> s.queue.statuses[id] == s.finished[j].outcome
  {
    hide Run, Bounded, Ledger, WalletsConsistent, CopiesAccounted;
    EveryRunKeeps(maxPending, maxStatuses, timeout, steps);
    var s := Run(Init(maxPending, maxStatuses, timeout), steps);
    BatchAt(s.finished, j, i);
    FifoPositions(s);
  }

  /** A confirmed id's note, and its whole batch, are in the chain log. */
  lemma ConfirmedIsOnChain(maxPending: nat, maxStatuses: nat, timeout: nat, steps: seq<Step>, id: nat)
    requires var q := Run(Init(maxPending, maxStatuses, timeout), steps).queue;
             id in q.statuses && q.statuses[id].Confirmed?
    ensures var s := Run(Init(maxPending, maxStatuses, timeout), steps);
            && id < |s.accepted| && s.accepted[id] in s.log
            && exists j, i | 0 <= j < |s.finished| && 0 <= i < |s.finished[j].batch| ::
                 s.finished[j].batch[i].id == id && OnChain(s.log, Entries(s.finished[j].batch))
  {
    hide Run, Bounded, WalletsConsistent, CopiesAccounted;
    EveryRunKeeps(maxPending, maxStatuses, timeout, steps);
    var s := Run(Init(maxPending, maxStatuses, timeout), steps);
    FifoPositions(s);
    var j, i := BatchOf(s.finished, id);
    BatchAt(s.finished, j, i);
    var batch := s.finished[j].batch;
    assert s.finished[j].outcome.Confirmed?;
    LandedIsOnChain(s.log, s.txs[s.finished[j].carrier.value]);
    var at: nat :| OccursAt(s.log, Entries(batch), at);
    assert Entries(batch)[i] == s.accepted[id];
    assert s.log[at..at + |batch|][i] == s.log[at + i];
  }

  lemma {:induction false} OutcomesGrow(s: System, more: seq<Step>)
    ensures Outcomes(s.finished) <= Outcomes(Run(s, more).finished)
  {
    if more != [] {
      var s1 := Run(s, more[..|more| - 1]);
      OutcomesGrow(s, more[..|more| - 1]);
      FinishedAfter(s1, more[|more| - 1]);
    }
  }

  lemma FinishedAfter(s: System, step: Step)
    ensures Outcomes(s.finished) <= Outcomes(Apply(s, step).finished)
  {
    hide Enqueued, MarkedAll, Circulating, Guard, SeenIn, Airborne, FinishedBatches, Outcomes;
    if step.Mark? && s.publisher.Returned? {
      FinishedSnoc(s.finished, Finished(s.publisher.batch, s.publisher.outcome, s.publisher.carrier));
    }
  }

  /** An id leaves `Pending` at most once: whatever final status it has is the one it keeps. */
  lemma FinalStatusNeverChanges(
      maxPending: nat, maxStatuses: nat, timeout: nat, steps: seq<Step>, more: seq<Step>, id: nat)
    requires var q := Run(Init(maxPending, maxStatuses, timeout), steps).queue;
             id in q.statuses && q.statuses[id] != BatchStatus.Pending
    ensures var q := Run(Init(maxPending, maxStatuses, timeout), steps).queue;
            var q' := Run(Init(maxPending, maxStatuses, timeout), steps + more).queue;
            id in q'.statuses ==> q'.statuses[id] == q.statuses[id]
  {
    hide Run, Bounded, Fifo, Ledger, WalletsConsistent, CopiesAccounted;
    EveryRunKeeps(maxPending, maxStatuses, timeout, steps);
    EveryRunKeeps(maxPending, maxStatuses, timeout, steps + more);
    RunAppend(Init(maxPending, maxStatuses, timeout), steps, more);
    var s := Run(Init(maxPending, maxStatuses, timeout), steps);
    OutcomesGrow(s, more);
    assert Outcomes(Run(s, more).finished)[id] == Outcomes(s.finished)[id];
  }
}
