/** What the service can still do from any reachable state, and what a report then makes readable. */
module PipelineProgress {
  import opened Results
  import opened Bytes
  import opened Wire
  import opened Pinboard
  import opened Dedup
  import opened AnnounceService
  import opened Pipeline
  import opened PipelineQueue
  import opened PipelineLedger
  import opened PipelineCopies
  import opened PipelineWindow
  import opened PipelineTheorems
  import opened PipelineAnnounce
  import opened PipelineFailure

  // ---- A report reaches the status of every id ----

  /** Marking gives every id of the batch, still retained, the outcome. */
  lemma MarkReads(s: System)
    requires Bounded(s) && s.publisher.Returned? && AllRetained(s)
    ensures var s' := Apply(s, Mark);
            forall i | 0 <= i < |s.publisher.batch| ::
              s.publisher.batch[i].id in s'.queue.statuses &&
              s'.queue.statuses[s.publisher.batch[i].id] == s.publisher.outcome
  {
    hide MarkedAll;
    var batch := s.publisher.batch;
    var ids := Ids(batch);
    assert forall i | 0 <= i < |ids| :: ids[i] == InFlight(s.publisher)[i].id;
    MarkKeepsOrder(s.queue, ids, s.publisher.outcome);
    MarkedAllFrame(s.queue, ids, s.publisher.outcome);
    forall i | 0 <= i < |batch|
      ensures batch[i].id in Apply(s, Mark).queue.statuses
      ensures Apply(s, Mark).queue.statuses[batch[i].id] == s.publisher.outcome
    {
      assert ids[i] in ids && ids[i] in s.queue.statusOrder;
    }
  }

  /**
    With room in the history: when the call reports success, or failure, every id of the batch
    reads as confirmed with the signature, or failed with the reason, once the batch is marked.
   */
  lemma ReportIsRead(
      maxPending: nat, maxStatuses: nat, timeout: nat, steps: seq<Step>, signature: string, reason: string)
    requires RoomForBatch(EmptyQueue(maxPending, maxStatuses))
    ensures var s := Run(Init(maxPending, maxStatuses, timeout), steps);
            var confirmed := Run(Init(maxPending, maxStatuses, timeout), steps + [ReportOk(signature), Mark]);
            var failed := Run(Init(maxPending, maxStatuses, timeout), steps + [ReportErr(reason), Mark]);
            && (s.publisher.Sent? && HasLanded(s.txs, Some(s.publisher.tx)) ==>
                  confirmed.publisher.Idle? && AllHave(confirmed.queue, s.publisher.batch, Confirmed(signature)))
            && (s.publisher.Sent? || s.publisher.Drained? ==>
                  failed.publisher.Idle? && AllHave(failed.queue, s.publisher.batch, Failed(reason)))
  {
    hide Run, Apply, RoomForBatch;
    var s0 := Init(maxPending, maxStatuses, timeout);
    ReportThenMark(maxPending, maxStatuses, timeout, steps, ReportOk(signature));
    ReportThenMark(maxPending, maxStatuses, timeout, steps, ReportErr(reason));
    ReportsReturn(Run(s0, steps), signature, reason);
  }

  ghost predicate AllHave(q: Queue, batch: seq<Queued>, status: BatchStatus) {
    forall i | 0 <= i < |batch| :: batch[i].id in q.statuses && q.statuses[batch[i].id] == status
  }

  lemma ReportsReturn(s: System, signature: string, reason: string)
    ensures s.publisher.Sent? && HasLanded(s.txs, Some(s.publisher.tx)) ==>
              Apply(s, ReportOk(signature)).publisher ==
              Returned(s.publisher.batch, Confirmed(signature), Some(s.publisher.tx))
    ensures s.publisher.Sent? || s.publisher.Drained? ==>
              Apply(s, ReportErr(reason)).publisher ==
              Returned(s.publisher.batch, Failed(reason), InFlightTx(s.publisher))
  {
  }

  lemma ReportThenMark(maxPending: nat, maxStatuses: nat, timeout: nat, steps: seq<Step>, report: Step)
    requires RoomForBatch(EmptyQueue(maxPending, maxStatuses))
    ensures var s := Apply(Run(Init(maxPending, maxStatuses, timeout), steps), report);
            var s' := Run(Init(maxPending, maxStatuses, timeout), steps + [report, Mark]);
            s.publisher.Returned? ==>
              s'.publisher.Idle? && AllHave(s'.queue, s.publisher.batch, s.publisher.outcome)
  {
    hide Run, Windowed, Fifo;
    var s0 := Init(maxPending, maxStatuses, timeout);
    RunAppend(s0, steps, [report]);
    RunSingle(Run(s0, steps), report);
    RunAppend(s0, steps, [report, Mark]);
    RunPair(Run(s0, steps), report, Mark);
    RoomGivesWindow(maxPending, maxStatuses, timeout, steps + [report]);
    var s := Run(s0, steps + [report]);
    if s.publisher.Returned? {
      hide AllRetained, Bounded;
      MarkReads(s);
    }
  }

  // ---- The service can always finish what it accepted ----

  /** Nothing but the publisher and the chain acts. */
  ghost predicate OnlyService(s: System, s': System) {
    s'.accepted == s.accepted && s'.others == s.others && s'.wallets == s.wallets
  }

  /** From a batch in flight to its mark; it is confirmed unless its report was already in. */
  lemma FinishBatch(s: System) returns (more: seq<Step>)
    requires Bounded(s) && Fifo(s) && Ledger(s) && !s.publisher.Idle?
    ensures var s' := Run(s, more);
            && OnlyService(s, s') && s'.publisher.Idle? && s'.queue.pending == s.queue.pending
            && |s'.finished| == |s.finished| + 1 && s.finished <= s'.finished
            && s'.finished[|s.finished|].batch == InFlight(s.publisher)
            && (s.publisher.Returned? || s'.finished[|s.finished|].outcome.Confirmed?)
  {
    hide Run, Fifo, Ledger, Bounded;
    if s.publisher.Returned? {
      more := [Mark];
      RunSingle(s, Mark);
      MarkFinishes(s);
    } else if s.publisher.Sent? {
      more := FinishSent(s);
    } else {
      RunSingle(s, Broadcast);
      BroadcastSends(s);
      var s1 := Run(s, [Broadcast]);
      var rest := FinishSent(s1);
      RunAppend(s, [Broadcast], rest);
      more := [Broadcast] + rest;
    }
  }

  lemma BroadcastSends(s: System)
    requires Bounded(s) && Fifo(s) && Ledger(s) && s.publisher.Drained?
    ensures var s' := Apply(s, Broadcast);
            && OnlyService(s, s') && s'.queue == s.queue && s'.finished == s.finished && Bounded(s') && Ledger(s')
            && s'.publisher.Sent? && s'.publisher.batch == s.publisher.batch
  {
    hide Ledger, Fifo, Guard, Entries, NotesOf;
    var batch := s.publisher.batch;
    BatchPassesGuard(s);
    AddKeepsLedger(s, Apply(s, Broadcast), Tx(PostBatch(Entries(batch)), Service(batch), Unprocessed));
    BoundedStep(s, Broadcast);
  }

  lemma MarkFinishes(s: System)
    requires Bounded(s) && s.publisher.Returned?
    ensures var s' := Apply(s, Mark);
            && OnlyService(s, s') && s'.publisher.Idle? && s'.queue.pending == s.queue.pending
            && s'.finished == s.finished + [Finished(s.publisher.batch, s.publisher.outcome, s.publisher.carrier)]
  {
    hide MarkedAll;
    MarkedAllFrame(s.queue, Ids(s.publisher.batch), s.publisher.outcome);
  }

  /** A batch whose transaction is out: execute it if need be, report, mark. */
  lemma FinishSent(s: System) returns (more: seq<Step>)
    requires Bounded(s) && Ledger(s) && s.publisher.Sent?
    ensures var s' := Run(s, more);
            && OnlyService(s, s') && s'.publisher.Idle? && s'.queue.pending == s.queue.pending
            && |s'.finished| == |s.finished| + 1 && s.finished <= s'.finished
            && s'.finished[|s.finished|].batch == InFlight(s.publisher)
            && s'.finished[|s.finished|].outcome.Confirmed?
  {
    hide Run, Bounded;
    var t := s.publisher.tx;
    var execute := [Execute(t)];
    RunSingle(s, Execute(t));
    ExecuteLands(s);
    hide Apply, Ledger;
    var s1 := Run(s, execute);
    RunPair(s1, ReportOk(""), Mark);
    ReportsReturn(s1, "", "");
    var s2 := Apply(s1, ReportOk(""));
    ReportFrame(s1, "");
    MarkFinishes(s2);
    RunAppend(s, execute, [ReportOk(""), Mark]);
    more := execute + [ReportOk(""), Mark];
  }

  lemma ExecuteLands(s: System)
    requires Bounded(s) && Ledger(s) && s.publisher.Sent?
    ensures var s' := Apply(s, Execute(s.publisher.tx));
            && OnlyService(s, s') && s'.queue == s.queue && s'.finished == s.finished && s'.publisher == s.publisher
            && HasLanded(s'.txs, Some(s.publisher.tx)) && Bounded(s')
  {
    hide Guard, Entries, NotesOf;
    assert TxConsistent(s.log, s.txs[s.publisher.tx]);
  }

  lemma ReportFrame(s: System, signature: string)
    requires Bounded(s)
    ensures var s' := Apply(s, ReportOk(signature));
            OnlyService(s, s') && s'.queue == s.queue && s'.finished == s.finished && Bounded(s')
  {
  }

  /** How many entries have an outcome that can no longer change: marked, or reported and about to be. */
  function Decided(s: System): nat {
    |FinishedBatches(s.finished)| + if s.publisher.Returned? then |s.publisher.batch| else 0
  }

  /**
    From every reachable state the publisher and the chain alone can bring it about that nothing
    is pending or in flight, and every accepted entry whose outcome was not yet decided is
    confirmed and in the log.
   */
  lemma ServiceCanFinish(maxPending: nat, maxStatuses: nat, timeout: nat, steps: seq<Step>)
    returns (more: seq<Step>)
    ensures var s := Run(Init(maxPending, maxStatuses, timeout), steps);
            var s' := Run(Init(maxPending, maxStatuses, timeout), steps + more);
            && OnlyService(s, s') && s'.queue.pending == [] && s'.publisher.Idle? && s.finished <= s'.finished
            && forall id | Decided(s) <= id < |s.accepted| ::
                 HistoryStatus(s', id).Confirmed? && s.accepted[id] in s'.log
  {
    hide Run, Apply, Bounded, Fifo, Ledger, StatusesMatchHistory, WalletsConsistent, HistoryStatus, FinishedBatches;
    var s0 := Init(maxPending, maxStatuses, timeout);
    var s := Run(s0, steps);
    EveryRunKeeps(maxPending, maxStatuses, timeout, steps);
    var first := [];
    if s.publisher.Idle? {
      assert steps + [] == steps;
    } else {
      first := FinishBatch(s);
      RunAppend(s0, steps, first);
    }
    var s1 := Run(s0, steps + first);
    var rest := Flush(maxPending, maxStatuses, timeout, steps + first);
    more := first + rest;
    assert steps + more == steps + first + rest;
    EveryRunKeeps(maxPending, maxStatuses, timeout, steps + more);
    var s' := Run(s0, steps + more);
    var n := if s.publisher.Returned? then |s.finished| + 1 else |s.finished|;
    assert s'.finished[..|s.finished|] == s.finished;
    if s.publisher.Returned? {
      assert s'.finished[..n] == s.finished + [s1.finished[|s.finished|]];
      FinishedSnoc(s.finished, s1.finished[|s.finished|]);
    }
    forall id | Decided(s) <= id < |s.accepted|
      ensures HistoryStatus(s', id).Confirmed? && s.accepted[id] in s'.log
    {
      ConfirmedFrom(s', n, id);
    }
  }

  /** With nothing left to do and all batches from the `n`-th on confirmed, so are their entries. */
  lemma ConfirmedFrom(s: System, n: nat, id: nat)
    requires Fifo(s) && Ledger(s) && s.queue.pending == [] && s.publisher.Idle? && n <= |s.finished|
    requires forall j | n <= j < |s.finished| :: s.finished[j].outcome.Confirmed?
    requires |FinishedBatches(s.finished[..n])| <= id < |s.accepted|
    ensures HistoryStatus(s, id).Confirmed? && s.accepted[id] in s.log
  {
    hide Fifo, Ledger, FinishedBatches, OccursAt;
    FifoPositions(s);
    var j, i := BatchOf(s.finished, id);
    BatchAt(s.finished, j, i);
    if j < n {
      OffsetsAscend(s.finished, j, n);
    }
    ConfirmedBatchOnChain(s, j);
    InTheLog(s.log, s.finished[j].batch, i);
  }

  lemma InTheLog(log: seq<Note>, batch: seq<Queued>, i: nat)
    requires OnChain(log, Entries(batch)) && i < |batch|
    ensures batch[i].entry in log
  {
    var at: nat :| OccursAt(log, Entries(batch), at);
    assert log[at..at + |batch|][i] == log[at + i] == Entries(batch)[i];
  }

  lemma ConfirmedBatchOnChain(s: System, j: nat)
    requires Ledger(s) && j < |s.finished| && s.finished[j].outcome.Confirmed?
    ensures OnChain(s.log, Entries(s.finished[j].batch))
  {
    LandedIsOnChain(s.log, s.txs[s.finished[j].carrier.value]);
  }

  /** An idle publisher works off the queue, batch by batch. */
  lemma {:induction false} Flush(maxPending: nat, maxStatuses: nat, timeout: nat, steps: seq<Step>)
    returns (more: seq<Step>)
    requires Run(Init(maxPending, maxStatuses, timeout), steps).publisher.Idle?
    ensures var s := Run(Init(maxPending, maxStatuses, timeout), steps);
            var s' := Run(Init(maxPending, maxStatuses, timeout), steps + more);
            && OnlyService(s, s') && s'.queue.pending == [] && s'.publisher.Idle? && s.finished <= s'.finished
            && forall j | |s.finished| <= j < |s'.finished| :: s'.finished[j].outcome.Confirmed?
    decreases |Run(Init(maxPending, maxStatuses, timeout), steps).queue.pending|
  {
    hide Run, Apply, Bounded, Fifo, Ledger, StatusesMatchHistory, WalletsConsistent;
    var s0 := Init(maxPending, maxStatuses, timeout);
    var s := Run(s0, steps);
    if s.queue.pending == [] {
      more := [];
      assert steps + [] == steps;
    } else {
      RunAppend(s0, steps, [Drain]);
      RunSingle(s, Drain);
      DrainTakes(s);
      EveryRunKeeps(maxPending, maxStatuses, timeout, steps + [Drain]);
      var s1 := Run(s0, steps + [Drain]);
      var batch := FinishBatch(s1);
      RunAppend(s0, steps + [Drain], batch);
      var rest := Flush(maxPending, maxStatuses, timeout, steps + [Drain] + batch);
      more := [Drain] + batch + rest;
      assert steps + more == steps + [Drain] + batch + rest;
    }
  }

  lemma DrainTakes(s: System)
    requires s.publisher.Idle? && s.queue.pending != []
    ensures var s' := Apply(s, Drain);
            && OnlyService(s, s') && s'.publisher.Drained? && s'.finished == s.finished
            && |s'.queue.pending| < |s.queue.pending|
  {
  }

  /**
    The decoupled path works by itself: from every reachable state in which a wallet's request has
    not arrived yet and the queue has a place, some continuation delivers the wallet's note
    without the wallet posting it, provided nobody else has used its `R`.
   */
  lemma ServiceSuffices(maxPending: nat, maxStatuses: nat, timeout: nat, steps: seq<Step>, r: Bytes32)
    returns (more: seq<Step>)
    requires var s := Run(Init(maxPending, maxStatuses, timeout), steps);
             r in s.wallets && !s.wallets[r].requested && |s.queue.pending| < s.queue.maxPending &&
             !SeenIn(s.others, r)
    ensures var s := Run(Init(maxPending, maxStatuses, timeout), steps);
            var s' := Run(Init(maxPending, maxStatuses, timeout), steps + more);
            Delivered(s', r) && s'.wallets[r].selfPost == s.wallets[r].selfPost
  {
    hide Run, Apply, Bounded, Fifo, Ledger, StatusesMatchHistory, CopiesAccounted, SeenIn, Deduped, Count, FirstIndex,
         OnChain, Numbered, FinishedBatches;
    var s0 := Init(maxPending, maxStatuses, timeout);
    var s := Run(s0, steps);
    EveryRunKeeps(maxPending, maxStatuses, timeout, steps);
    assert WalletConsistent(s, r);
    var ask := steps + [HandleRequest(r)];
    RunAppend(s0, steps, [HandleRequest(r)]);
    RunSingle(s, HandleRequest(r));
    RequestAccepted(s, r);
    var s1 := Run(s0, ask);
    var publish := ServiceCanFinish(maxPending, maxStatuses, timeout, ask);
    var s2 := Run(s0, ask + publish);
    var note := s.wallets[r].note;
    EveryRunKeeps(maxPending, maxStatuses, timeout, ask);
    PendingUndecided(s1);
    assert s1.accepted[|s1.accepted| - 1] == note && note in s2.log;
    SeenIfIn(s2.log, note);
    EveryRunKeeps(maxPending, maxStatuses, timeout, ask + publish);
    assert WalletConsistent(s2, r);
    var stop := [Watch(r, |s2.log|), StopOnSight(r)];
    RunPair(s2, stop[0], stop[1]);
    StopHere(s2, r);
    RunAppend(s0, ask + publish, stop);
    more := [HandleRequest(r)] + publish + stop;
    assert steps + more == ask + publish + stop;
    StoppingFrame(s2, r);
    AnnouncedOnceAfterDedup(maxPending, maxStatuses, timeout, steps + more, r);
  }

  lemma StoppingFrame(s: System, r: Bytes32)
    requires r in s.wallets
    ensures var s' := Apply(Apply(s, Watch(r, |s.log|)), StopOnSight(r));
            s'.others == s.others && r in s'.wallets && s'.wallets[r].selfPost == s.wallets[r].selfPost
  {
    hide SeenIn;
  }

  lemma RequestAccepted(s: System, r: Bytes32)
    requires r in s.wallets && WalletConsistent(s, r) && !s.wallets[r].requested
    requires |s.queue.pending| < s.queue.maxPending
    ensures var s' := Apply(s, HandleRequest(r));
            && s'.accepted == s.accepted + [s.wallets[r].note] && s'.others == s.others && s'.finished == s.finished
            && s'.publisher == s.publisher && s'.queue.pending != [] && r in s'.wallets
            && s'.wallets[r] == s.wallets[r].(requested := true)
  {
    hide SeenIn;
  }

  /** A pending entry is the last accepted and has no outcome yet. */
  lemma PendingUndecided(s: System)
    requires Fifo(s) && s.queue.pending != []
    ensures Decided(s) < |s.accepted|
  {
    hide FinishedBatches;
    FifoPositions(s);
  }

  lemma SeenIfIn(log: seq<Note>, note: Note)
    requires note in log
    ensures SeenIn(log, note.ephemeralPub)
  {
  }
}
