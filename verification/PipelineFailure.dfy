/** What a `failed` status says about the chain: whether the failed call got as far as broadcasting. */
module PipelineFailure {
  import opened Results
  import opened Wire
  import opened Pinboard
  import opened AnnounceService
  import opened Pipeline
  import opened PipelineQueue
  import opened PipelineLedger
  import opened PipelineTheorems

  ghost predicate FinishedWith(finished: seq<Finished>, batch: seq<Queued>, tx: nat) {
    exists j :: 0 <= j < |finished| && finished[j].batch == batch && finished[j].carrier == Some(tx)
  }

  /** Every transaction of the service is the carrier of the batch in flight or of a finished one. */
  ghost predicate Attributed(s: System) {
    forall t | 0 <= t < |s.txs| && s.txs[t].origin.Service? ::
      (InFlightTx(s.publisher) == Some(t) && InFlight(s.publisher) == s.txs[t].origin.batch) ||
      FinishedWith(s.finished, s.txs[t].origin.batch, t)
  }

  lemma FinishedWithSnoc(finished: seq<Finished>, f: Finished)
    ensures forall batch, tx: nat | FinishedWith(finished, batch, tx) :: FinishedWith(finished + [f], batch, tx)
    ensures f.carrier.Some? ==> FinishedWith(finished + [f], f.batch, f.carrier.value)
  {
    forall batch, tx: nat | FinishedWith(finished, batch, tx)
      ensures FinishedWith(finished + [f], batch, tx)
    {
      var j :| 0 <= j < |finished| && finished[j].batch == batch && finished[j].carrier == Some(tx);
      assert (finished + [f])[j] == finished[j];
    }
    assert (finished + [f])[|finished|] == f;
  }

  lemma AttributedStep(s: System, step: Step)
    requires Ledger(s) && Attributed(s)
    ensures Attributed(Apply(s, step))
  {
    hide Enqueued, MarkedAll, AfterTake, Circulating, Guard, Fresh, Sees, Entries, NotesOf, FinishedWith;
    if step.Mark? && s.publisher.Returned? {
      FinishedWithSnoc(s.finished, Finished(s.publisher.batch, s.publisher.outcome, s.publisher.carrier));
    }
  }

  lemma {:induction false} RunAttributed(maxPending: nat, maxStatuses: nat, timeout: nat, steps: seq<Step>)
    ensures Attributed(Run(Init(maxPending, maxStatuses, timeout), steps))
  {
    hide Apply, Attributed;
    if steps == [] {
      assert Attributed(Init(maxPending, maxStatuses, timeout)) by {
        NothingAttributed(maxPending, maxStatuses, timeout);
      }
    } else {
      var s, step := Run(Init(maxPending, maxStatuses, timeout), steps[..|steps| - 1]), steps[|steps| - 1];
      RunAttributed(maxPending, maxStatuses, timeout, steps[..|steps| - 1]);
      EveryRunKeeps(maxPending, maxStatuses, timeout, steps[..|steps| - 1]);
      AttributedStep(s, step);
    }
  }

  lemma NothingAttributed(maxPending: nat, maxStatuses: nat, timeout: nat)
    ensures Attributed(Init(maxPending, maxStatuses, timeout))
  {
  }

  /** A transaction of the service has put the entry with this id on the chain. */
  ghost predicate ServiceLanded(s: System, id: nat) {
    exists t :: 0 <= t < |s.txs| && LandedFor(s, t, id)
  }

  predicate LandedFor(s: System, t: nat, id: nat)
    requires t < |s.txs|
  {
    s.txs[t].state.Landed? && s.txs[t].origin.Service? && id in Ids(s.txs[t].origin.batch)
  }

  lemma {:induction false} FinishedGrow(s: System, more: seq<Step>)
    ensures s.finished <= Run(s, more).finished
  {
    hide Apply;
    if more != [] {
      FinishedGrow(s, more[..|more| - 1]);
      FinishedKept(Run(s, more[..|more| - 1]), more[|more| - 1]);
    }
  }

  lemma FinishedKept(s: System, step: Step)
    ensures s.finished <= Apply(s, step).finished
  {
    hide Enqueued, MarkedAll, Circulating, Guard, Sees, Entries, NotesOf;
  }

  /** An id belongs to one finished batch only, and then to none in flight. */
  lemma IdOfOneBatch(s: System, j: nat, i: nat, k: nat, n: nat)
    requires Fifo(s) && j < |s.finished| && i < |s.finished[j].batch|
    requires k < |s.finished| && n < |s.finished[k].batch|
    requires s.finished[j].batch[i].id == s.finished[k].batch[n].id
    ensures j == k
  {
    BatchAt(s.finished, j, i);
    BatchAt(s.finished, k, n);
    FifoPositions(s);
    if j < k {
      OffsetsAscend(s.finished, j, k);
    } else if k < j {
      OffsetsAscend(s.finished, k, j);
    }
  }

  lemma {:induction false} OffsetsAscend(finished: seq<Finished>, j: nat, k: nat)
    requires j < k <= |finished|
    ensures Offset(finished, j) + |finished[j].batch| <= Offset(finished, k)
  {
    assert finished[..k][..k - 1] == finished[..k - 1];
    if j < k - 1 {
      OffsetsAscend(finished, j, k - 1);
    }
  }

  /** The service's transaction for a finished id is its own batch's. */
  lemma LandedByItsCarrier(s: System, j: nat, i: nat, t: nat)
    requires Fifo(s) && Attributed(s) && j < |s.finished| && i < |s.finished[j].batch|
    requires t < |s.txs| && LandedFor(s, t, s.finished[j].batch[i].id)
    ensures s.finished[j].carrier == Some(t)
  {
    hide FinishedBatches, Fifo;
    var id, batch := s.finished[j].batch[i].id, s.txs[t].origin.batch;
    var n :| 0 <= n < |batch| && Ids(batch)[n] == id;
    BatchAt(s.finished, j, i);
    FifoPositions(s);
    if FinishedWith(s.finished, batch, t) {
      var k :| 0 <= k < |s.finished| && s.finished[k].batch == batch && s.finished[k].carrier == Some(t);
      IdOfOneBatch(s, j, i, k, n);
    }
  }

  /**
    What `Failed` means. For every id of a batch marked failed in some run: the service may
    yet put its note on the chain, or already has, if and only if the failed call had
    broadcast a transaction. If it had not, as when no blockhash could be fetched, the
    failure is final: the service never submits the note again.
   */
  lemma FailedLandsExactly(maxPending: nat, maxStatuses: nat, timeout: nat, steps: seq<Step>, j: nat, i: nat)
    requires var s := Run(Init(maxPending, maxStatuses, timeout), steps);
             j < |s.finished| && s.finished[j].outcome.Failed? && i < |s.finished[j].batch|
    ensures var s := Run(Init(maxPending, maxStatuses, timeout), steps);
            (exists more :: ServiceLanded(Run(Init(maxPending, maxStatuses, timeout), steps + more),
                                          s.finished[j].batch[i].id))
            <==> s.finished[j].carrier.Some?
  {
    hide Run, Apply, Bounded, Fifo, StatusesMatchHistory, WalletsConsistent, Attributed, ServiceLanded;
    var s0 := Init(maxPending, maxStatuses, timeout);
    var s := Run(s0, steps);
    var id := s.finished[j].batch[i].id;
    EveryRunKeeps(maxPending, maxStatuses, timeout, steps);
    if s.finished[j].carrier.Some? {
      var more := LandCarrier(s, j, i);
      RunAppend(s0, steps, more);
    } else {
      forall more
        ensures !ServiceLanded(Run(s0, steps + more), id)
      {
        RunAppend(s0, steps, more);
        FinishedGrow(s, more);
        EveryRunKeeps(maxPending, maxStatuses, timeout, steps + more);
        RunAttributed(maxPending, maxStatuses, timeout, steps + more);
        NeverLanded(Run(s0, steps + more), j, i);
      }
    }
  }

  lemma NeverLanded(s: System, j: nat, i: nat)
    requires Fifo(s) && Attributed(s) && j < |s.finished| && i < |s.finished[j].batch| && s.finished[j].carrier.None?
    ensures !ServiceLanded(s, s.finished[j].batch[i].id)
  {
    hide Fifo, Attributed, LandedFor;
    var id := s.finished[j].batch[i].id;
    forall t | 0 <= t < |s.txs|
      ensures !LandedFor(s, t, id)
    {
      if LandedFor(s, t, id) {
        LandedByItsCarrier(s, j, i, t);
      }
    }
  }

  lemma LandCarrier(s: System, j: nat, i: nat) returns (more: seq<Step>)
    requires Ledger(s) && j < |s.finished| && i < |s.finished[j].batch| && s.finished[j].carrier.Some?
    ensures ServiceLanded(Run(s, more), s.finished[j].batch[i].id)
  {
    hide Guard, NotesOf, Run;
    var t, batch := s.finished[j].carrier.value, s.finished[j].batch;
    assert TxConsistent(s.log, s.txs[t]);
    assert Ids(batch)[i] == batch[i].id;
    if s.txs[t].state.Unprocessed? {
      more := [Execute(t)];
      RunSingle(s, Execute(t));
      assert LandedFor(Run(s, more), t, batch[i].id);
    } else {
      more := [];
      assert Run(s, more) == s by {
        NoSteps(s);
      }
      assert LandedFor(s, t, batch[i].id);
    }
  }

  lemma NoSteps(s: System)
    ensures Run(s, []) == s
  {
  }

  /** Both kinds of failure occur, with either caps: `sent` chooses where the call fails. */
  lemma FailsEitherWay(maxPending: nat, maxStatuses: nat, timeout: nat, reason: string, sent: bool)
    returns (steps: seq<Step>)
    ensures var s := Run(Init(maxPending, maxStatuses, timeout), steps);
            && |s.finished| == 1 && |s.finished[0].batch| == 1
            && s.finished[0].outcome == Failed(reason) && s.finished[0].carrier.Some? == sent
  {
    var s0 := Init(maxPending, maxStatuses, timeout);
    var e := Note(1, seq(32, _ => 0), 0, []);
    var start := [HandleOther(e), Drain];
    RunPair(s0, HandleOther(e), Drain);
    DrainOne(s0, e);
    var s1 := Run(s0, start);
    var fail := [ReportErr(reason), Mark];
    var send := if sent then [Broadcast] else [];
    NoSteps(s1);
    RunSingle(s1, Broadcast);
    var s2 := Run(s1, send);
    RunPair(s2, ReportErr(reason), Mark);
    hide Run, Apply;
    FailOne(s1, sent, reason);
    RunAppend(s0, start, send);
    RunAppend(s0, start + send, fail);
    steps := start + send + fail;
  }

  lemma DrainOne(s: System, e: Note)
    requires s.queue.pending == [] && s.publisher.Idle? && s.queue.maxPending > 0 && ServiceAccepts(e)
    ensures var s' := Apply(Apply(s, HandleOther(e)), Drain);
            s'.publisher == Drained([Queued(s.queue.nextId, e)]) && s'.finished == s.finished
  {
  }

  lemma FailOne(s: System, sent: bool, reason: string)
    requires s.publisher.Drained?
    ensures var s' := Apply(Apply(if sent then Apply(s, Broadcast) else s, ReportErr(reason)), Mark);
            s'.finished == s.finished + [Finished(s.publisher.batch, Failed(reason),
                                                  if sent then Some(|s.txs|) else None)]
  {
    hide MarkedAll, Entries;
  }
}
