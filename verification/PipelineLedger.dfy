/** What every run keeps on the chain's side: honest receipts, guards never tripped, wallets that stop only on sight. */
module PipelineLedger {
  import opened Results
  import opened Bytes
  import opened Wire
  import opened Pinboard
  import opened Dedup
  import opened AnnounceService
  import opened Pipeline
  import opened PipelineQueue

  predicate OccursAt(log: seq<Note>, notes: seq<Note>, at: nat) {
    at + |notes| <= |log| && log[at..at + |notes|] == notes
  }

  /** All of `notes` stand in the log, next to each other and in order. */
  ghost predicate OnChain(log: seq<Note>, notes: seq<Note>) {
    exists at: nat :: OccursAt(log, notes, at)
  }

  predicate TxConsistent(log: seq<Note>, tx: Tx) {
    match tx.state
    case Unprocessed => true
    case Landed(at) => OccursAt(log, NotesOf(tx.ix), at)
    case Rejected(e) => Guard(tx.ix) == Some(e)
  }

  /** The transaction, if there is one, is the service's, made of the batch. */
  predicate Carries(txs: seq<Tx>, tx: Option<nat>, batch: seq<Queued>) {
    tx.Some? ==>
      tx.value < |txs| && txs[tx.value].origin == Service(batch)
  }

  predicate HasLanded(txs: seq<Tx>, tx: Option<nat>) {
    tx.Some? && tx.value < |txs| && txs[tx.value].state.Landed?
  }

  ghost predicate WalletConsistent(s: System, r: Bytes32)
    requires r in s.wallets
  {
    var w := s.wallets[r];
    && w.note.ephemeralPub == r
    && w.note.schemeId == SCHEME_ID_V1 && |w.note.metadata| <= Pinboard.MAX_METADATA_LEN
    && w.submittedAt <= s.now
    && w.view <= |s.log|
    && (w.selfPost.Some? ==> w.selfPost.value < |s.txs| && s.txs[w.selfPost.value].ix == Post(w.note))
    && (w.done ==> SeenIn(s.log, r))
  }

  /** Receipts are honest, and the service's and the wallets' transactions never trip a guard. */
  ghost predicate Ledger(s: System) {
    && (forall i | 0 <= i < |s.txs| :: TxConsistent(s.log, s.txs[i]))
    && (forall i | 0 <= i < |s.txs| :: s.txs[i].origin != Other ==> Guard(s.txs[i].ix) == None)
    && (forall i | 0 <= i < |s.txs| && s.txs[i].origin.Service? ::
          s.txs[i].ix == PostBatch(Entries(s.txs[i].origin.batch)))
    && Carries(s.txs, InFlightTx(s.publisher), InFlight(s.publisher))
    && (s.publisher.Returned? && s.publisher.outcome.Confirmed? ==> HasLanded(s.txs, s.publisher.carrier))
    && (forall i | 0 <= i < |s.finished| ::
          && Carries(s.txs, s.finished[i].carrier, s.finished[i].batch)
          && (s.finished[i].outcome.Confirmed? ==> HasLanded(s.txs, s.finished[i].carrier)))
  }

  ghost predicate WalletsConsistent(s: System) {
    forall r | r in s.wallets :: WalletConsistent(s, r)
  }

  lemma BatchPassesGuard(s: System)
    requires Bounded(s) && Fifo(s) && s.publisher.Drained?
    ensures Guard(PostBatch(Entries(s.publisher.batch))) == None
  {
    FifoPositions(s);
    var batch := s.publisher.batch;
    assert InFlight(s.publisher) == batch;
    forall i | 0 <= i < |batch|
      ensures |Entries(batch)[i].metadata| <= Pinboard.MAX_METADATA_LEN
    {
      assert ServiceAccepts(s.accepted[|FinishedBatches(s.finished)| + i]);
    }
  }

  lemma LogGrew(log: seq<Note>, more: seq<Note>)
    ensures forall tx :: TxConsistent(log, tx) ==> TxConsistent(log + more, tx)
    ensures forall notes :: OnChain(log, notes) ==> OnChain(log + more, notes)
    ensures forall r: Bytes32 :: SeenIn(log, r) ==> SeenIn(log + more, r)
    ensures OnChain(log + more, more)
  {
    forall notes | OnChain(log, notes)
      ensures OnChain(log + more, notes)
    {
      var at: nat :| OccursAt(log, notes, at);
      assert OccursAt(log + more, notes, at) by {
        assert (log + more)[at..at + |notes|] == log[at..at + |notes|];
      }
    }
    forall tx | TxConsistent(log, tx)
      ensures TxConsistent(log + more, tx)
    {
      if tx.state.Landed? {
        var at, n := tx.state.at, |NotesOf(tx.ix)|;
        assert (log + more)[at..at + n] == log[at..at + n];
        assert OccursAt(log + more, NotesOf(tx.ix), at);
      }
    }
    forall r: Bytes32 | SeenIn(log, r)
      ensures SeenIn(log + more, r)
    {
      SeenAppend(log, more, r);
    }
    assert OccursAt(log + more, more, |log|);
  }

  lemma SelfPostPassesGuard(note: Note)
    requires |note.metadata| <= Pinboard.MAX_METADATA_LEN
    ensures Guard(Post(note)) == None
  {
  }

  lemma LedgerStep(s: System, step: Step)
    requires Bounded(s) && Fifo(s) && Ledger(s) && WalletsConsistent(s)
    ensures Ledger(Apply(s, step))
  {
    hide Ledger, Bounded, Fifo, Enqueued, MarkedAll, AfterTake, Circulating, Guard, SeenIn, Entries, Ids, NotesOf,
         Executed;
    match step {
      case Execute(i) =>
        if i < |s.txs| && s.txs[i].state.Unprocessed? {
          ExecuteKeepsLedger(s, i);
        }
      case Broadcast =>
        if s.publisher.Drained? {
          BatchPassesGuard(s);
          var batch := s.publisher.batch;
          AddKeepsLedger(s, Apply(s, step), Tx(PostBatch(Entries(batch)), Service(batch), Unprocessed));
        }
      case SelfAnnounce(r) =>
        if r in s.wallets && Apply(s, step) != s {
          assert WalletConsistent(s, r);
          SelfPostPassesGuard(s.wallets[r].note);
          AddKeepsLedger(s, Apply(s, step), Tx(Post(s.wallets[r].note), Wallet, Unprocessed));
        }
      case OtherTx(ix) => AddKeepsLedger(s, Apply(s, step), Tx(ix, Other, Unprocessed));
      case ReportOk(_) => ReportsKeepLedger(s, step);
      case ReportErr(_) => ReportsKeepLedger(s, step);
      case Mark => ReportsKeepLedger(s, step);
      case Drain => LedgerFrame(s, Apply(s, step));
      case _ => LedgerFrame(s, Apply(s, step));
    }
  }

  lemma LedgerFrame(s: System, s': System)
    requires Ledger(s) && s'.txs == s.txs && s'.log == s.log && s'.finished == s.finished
    requires s'.publisher == s.publisher || s'.publisher.Drained?
    ensures Ledger(s')
  {
    hide Guard, Entries, OccursAt, NotesOf;
  }

  lemma AddKeepsLedger(s: System, s': System, tx: Tx)
    requires Ledger(s) && s'.txs == s.txs + [tx] && s'.log == s.log && s'.finished == s.finished
    requires s'.publisher == s.publisher ||
             (s'.publisher.Sent? && s'.publisher.tx == |s.txs| && tx.origin == Service(s'.publisher.batch))
    requires tx.state.Unprocessed? && (tx.origin != Other ==> Guard(tx.ix) == None)
    requires tx.origin.Service? ==> tx.ix == PostBatch(Entries(tx.origin.batch))
    ensures Ledger(s')
  {
    hide Guard, Entries, OccursAt, NotesOf;
  }

  lemma ReportsKeepLedger(s: System, step: Step)
    requires Ledger(s) && (step.ReportOk? || step.ReportErr? || step.Mark?)
    ensures Ledger(Apply(s, step))
  {
    hide Guard, Entries, OccursAt, NotesOf, MarkedAll, Ids;
  }

  lemma WalletsStep(s: System, step: Step)
    requires Ledger(s) && WalletsConsistent(s)
    ensures WalletsConsistent(Apply(s, step))
  {
    hide Ledger, WalletsConsistent, WalletConsistent, Enqueued, MarkedAll, AfterTake, Guard, SeenIn, Fresh, Sees,
         ServiceAccepts, ShouldSelfAnnounce, Entries, Ids, NotesOf;
    match step {
      case StopOnSight(r) => StopOnSightIsRight(s, r);
      case StopOnOwnPost(r) => StopOnOwnPostIsRight(s, r);
      case StartPayment(_) => WalletMovesOn(s, step);
      case HandleRequest(_) => WalletMovesOn(s, step);
      case Watch(_, _) => WalletMovesOn(s, step);
      case SelfAnnounce(_) => WalletMovesOn(s, step);
      case _ => WalletsFrame(s, Apply(s, step));
    }
  }

  lemma WalletMovesOn(s: System, step: Step)
    requires WalletsConsistent(s)
    requires step.StartPayment? || step.HandleRequest? || step.Watch? || step.SelfAnnounce?
    ensures WalletsConsistent(Apply(s, step))
  {
    hide Enqueued, Guard, SeenIn, Fresh, Sees, ServiceAccepts, ShouldSelfAnnounce, NotesOf;
    var s' := Apply(s, step);
    forall r | r in s'.wallets
      ensures WalletConsistent(s', r)
    {
      assert r in s.wallets ==> WalletConsistent(s, r);
    }
  }

  lemma StopOnSightIsRight(s: System, r: Bytes32)
    requires WalletsConsistent(s)
    ensures WalletsConsistent(Apply(s, StopOnSight(r)))
  {
    hide SeenIn;
    if r in s.wallets && Sees(s, s.wallets[r]) {
      var v := s.wallets[r].view;
      assert WalletConsistent(s, r);
      SeenAppend(s.log[..v], s.log[v..], r);
      assert s.log[..v] + s.log[v..] == s.log;
    }
  }

  lemma StopOnOwnPostIsRight(s: System, r: Bytes32)
    requires Ledger(s) && WalletsConsistent(s)
    ensures WalletsConsistent(Apply(s, StopOnOwnPost(r)))
  {
    hide SeenIn, OccursAt;
    if r in s.wallets && s.wallets[r].selfPost.Some? {
      assert WalletConsistent(s, r);
      var tx := s.txs[s.wallets[r].selfPost.value];
      if tx.state.Landed? {
        LandedPostSeen(s.log, tx, s.wallets[r].note);
      }
    }
  }

  lemma WalletsFrame(s: System, s': System)
    requires WalletsConsistent(s) && s'.wallets == s.wallets && s.now <= s'.now
    requires |s.log| <= |s'.log| && s'.log[..|s.log|] == s.log
    requires |s.txs| <= |s'.txs| && forall i | 0 <= i < |s.txs| :: s'.txs[i].ix == s.txs[i].ix
    ensures WalletsConsistent(s')
  {
    hide SeenIn;
    LogGrew(s.log, s'.log[|s.log|..]);
    assert s'.log == s.log + s'.log[|s.log|..];
    forall r | r in s'.wallets
      ensures WalletConsistent(s', r)
    {
      assert WalletConsistent(s, r);
    }
  }

  lemma LandedIsOnChain(log: seq<Note>, tx: Tx)
    requires TxConsistent(log, tx) && tx.state.Landed?
    ensures OnChain(log, NotesOf(tx.ix))
  {
  }

  lemma LandedPostSeen(log: seq<Note>, tx: Tx, note: Note)
    requires TxConsistent(log, tx) && tx.state.Landed? && tx.ix == Post(note)
    ensures SeenIn(log, note.ephemeralPub)
  {
    var at := tx.state.at;
    assert log[at..at + 1][0] == note;
  }

  lemma ExecuteKeepsLedger(s: System, i: nat)
    requires Ledger(s) && i < |s.txs| && s.txs[i].state.Unprocessed?
    ensures Ledger(Executed(s, i))
  {
    hide Guard, SeenIn, OnChain, NotesOf, Entries;
    var s' := Executed(s, i);
    if Guard(s.txs[i].ix).None? {
      var notes := NotesOf(s.txs[i].ix);
      LogGrew(s.log, notes);
      assert OccursAt(s'.log, notes, |s.log|);
      assert TxConsistent(s'.log, s'.txs[i]);
    }
  }
}
