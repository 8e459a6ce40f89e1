/**
  How many copies of a payment's announcement can exist: every step that adds a copy spends
  one of the two ways a wallet has to publish it.
 */
module PipelineCopies {
  import opened Bytes
  import opened Wire
  import opened Pinboard
  import opened Dedup
  import opened AnnounceService
  import opened Pipeline
  import opened PipelineQueue
  import opened PipelineLedger

  /** The copies a step may add to circulation. */
  ghost function Added(s: System, step: Step): multiset<Note> {
    match step
    case HandleRequest(r) =>
      if r in s.wallets && !s.wallets[r].requested then multiset{s.wallets[r].note} else multiset{}
    case HandleOther(entry) => multiset{entry}
    case OtherTx(ix) => multiset(NotesOf(ix))
    case SelfAnnounce(r) =>
      if r in s.wallets && s.wallets[r].selfPost.None? then multiset{s.wallets[r].note} else multiset{}
    case _ => multiset{}
  }

  lemma {:induction false} AirborneSnoc(txs: seq<Tx>, tx: Tx)
    ensures Airborne(txs + [tx]) ==
            Airborne(txs) + if tx.state.Unprocessed? then multiset(NotesOf(tx.ix)) else multiset{}
  {
    hide NotesOf;
    if txs == [] {
      assert [tx][1..] == [];
      assert txs + [tx] == [tx];
    } else {
      AirborneSnoc(txs[1..], tx);
      assert (txs + [tx])[1..] == txs[1..] + [tx];
    }
  }

  lemma {:induction false} AirborneProcessed(txs: seq<Tx>, i: nat, state: TxState)
    requires i < |txs| && txs[i].state.Unprocessed? && !state.Unprocessed?
    ensures Airborne(txs) == Airborne(txs[i := txs[i].(state := state)]) + multiset(NotesOf(txs[i].ix))
  {
    hide NotesOf;
    var after := txs[i := txs[i].(state := state)];
    if i == 0 {
      assert after[1..] == txs[1..];
    } else {
      AirborneProcessed(txs[1..], i - 1, state);
      assert after[1..] == txs[1..][i - 1 := txs[1..][i - 1].(state := state)];
    }
  }

  lemma EntriesSplit(a: seq<Queued>, b: seq<Queued>)
    ensures Entries(a + b) == Entries(a) + Entries(b)
  {
  }

  /** No step creates copies beyond `Added`. */
  lemma CirculatingStep(s: System, step: Step)
    requires Bounded(s)
    ensures Circulating(Apply(s, step)) <= Circulating(s) + Added(s, step)
  {
    hide Circulating, Enqueued, MarkedAll, AfterTake, Guard, SeenIn, Fresh, Sees, Executed, ServiceAccepts,
         ShouldSelfAnnounce, Entries, Ids;
    match step {
      case HandleRequest(r) => RequestCirculates(s, r);
      case HandleOther(entry) =>
        var s1 := s.(others := s.others + [entry]);
        SameCirculation(s, s1);
        SubmitCirculates(s1, entry);
      case Drain => DrainCirculates(s);
      case Broadcast => BroadcastCirculates(s);
      case OtherTx(ix) =>
        var tx := Tx(ix, Other, Unprocessed);
        TxCirculates(s, tx);
        SameCirculation(Apply(s, step), s.(txs := s.txs + [tx]));
      case SelfAnnounce(r) =>
        if Apply(s, step).txs != s.txs {
          var tx := Tx(Post(s.wallets[r].note), Wallet, Unprocessed);
          TxCirculates(s, tx);
          SameCirculation(Apply(s, step), s.(txs := s.txs + [tx]));
        }
      case Mark => MarkCirculates(s);
      case Execute(i) =>
        if i < |s.txs| && s.txs[i].state.Unprocessed? {
          ExecuteCirculates(s, i);
        }
      case ReportOk(_) => ReportCirculates(s, Apply(s, step));
      case ReportErr(_) => ReportCirculates(s, Apply(s, step));
      case _ => SameCirculation(s, Apply(s, step));
    }
  }

  lemma SameCirculation(s: System, s': System)
    requires s'.queue == s.queue && s'.publisher == s.publisher && s'.txs == s.txs && s'.log == s.log
    ensures Circulating(s') == Circulating(s)
  {
  }

  lemma ReportCirculates(s: System, s': System)
    requires s'.queue == s.queue && s'.txs == s.txs && s'.log == s.log
    requires s'.publisher == s.publisher || s'.publisher.Returned?
    ensures Circulating(s') <= Circulating(s)
  {
  }

  lemma RequestCirculates(s: System, r: Bytes32)
    requires Bounded(s)
    ensures Circulating(Apply(s, HandleRequest(r))) <= Circulating(s) + Added(s, HandleRequest(r))
  {
    hide Circulating, Enqueued;
    if r in s.wallets && !s.wallets[r].requested {
      var s1 := s.(wallets := s.wallets[r := s.wallets[r].(requested := true)]);
      SameCirculation(s, s1);
      SubmitCirculates(s1, s.wallets[r].note);
    }
  }

  lemma SubmitCirculates(s: System, note: Note)
    requires Bounded(s)
    ensures Circulating(Submit(s, note)) <= Circulating(s) + multiset{note}
  {
    hide Enqueued, Airborne, Entries;
    SubmitAdds(s, note);
  }

  lemma DrainCirculates(s: System)
    ensures Circulating(Apply(s, Drain)) == Circulating(s)
  {
    hide Airborne, Entries;
    var s' := Apply(s, Drain);
    if s.publisher.Idle? && s.queue.pending != [] {
      EntriesSplit(s'.publisher.batch, s'.queue.pending);
      assert s.queue.pending == s'.publisher.batch + s'.queue.pending;
    }
  }

  lemma BroadcastCirculates(s: System)
    ensures Circulating(Apply(s, Broadcast)) == Circulating(s)
  {
    hide Airborne, Entries;
    if s.publisher.Drained? {
      AirborneSnoc(s.txs, Tx(PostBatch(Entries(s.publisher.batch)), Service(s.publisher.batch), Unprocessed));
    }
  }

  lemma TxCirculates(s: System, tx: Tx)
    requires tx.state.Unprocessed?
    ensures Circulating(s.(txs := s.txs + [tx])) == Circulating(s) + multiset(NotesOf(tx.ix))
  {
    hide Airborne, Entries, NotesOf;
    AirborneSnoc(s.txs, tx);
  }

  lemma MarkCirculates(s: System)
    requires Bounded(s)
    ensures Circulating(Apply(s, Mark)) == Circulating(s)
  {
    hide Airborne, Entries, MarkedAll;
    if s.publisher.Returned? {
      MarkedAllFrame(s.queue, Ids(s.publisher.batch), s.publisher.outcome);
    }
  }

  lemma ExecuteCirculates(s: System, i: nat)
    requires i < |s.txs| && s.txs[i].state.Unprocessed?
    ensures Circulating(Executed(s, i)) <= Circulating(s)
  {
    hide Airborne, Entries, NotesOf, Guard;
    AirborneProcessed(s.txs, i, Executed(s, i).txs[i].state);
  }

  lemma SubmitAdds(s: System, note: Note)
    requires Bounded(s)
    ensures Submit(s, note).queue.pending == s.queue.pending ||
            Entries(Submit(s, note).queue.pending) == Entries(s.queue.pending) + [note]
  {
    if |s.queue.pending| < s.queue.maxPending {
      EnqueuedFrame(s.queue, note);
      EntriesSplit(s.queue.pending, [Queued(s.queue.nextId, note)]);
    }
  }

  /** Ways the wallet still has to publish: its one request, and its one self-announcement. */
  function Unspent(w: WalletState): nat {
    (if w.requested then 0 else 1) + (if w.selfPost.Some? then 0 else 1)
  }

  /** Copies of `n` the wallet whose `R` it carries has put into circulation. */
  function OwnCopies(w: WalletState, n: Note): nat {
    if n == w.note then 2 - Unspent(w) else 0
  }

  /** Every copy of a note with a wallet's `R` was put there by that wallet or offered by someone else. */
  ghost predicate CopiesAccounted(s: System) {
    forall n: Note | n.ephemeralPub in s.wallets ::
      Circulating(s)[n] <= OwnCopies(s.wallets[n.ephemeralPub], n) + multiset(s.others)[n]
  }

  /** Wallets come and go only by starting a payment; the note of a running one never changes. */
  lemma WalletNotes(s: System, step: Step, r: Bytes32)
    requires r in Apply(s, step).wallets
    ensures if r in s.wallets then Apply(s, step).wallets[r].note == s.wallets[r].note
            else Fresh(s, r) && step.StartPayment? && Apply(s, step).wallets[r].note == step.note &&
                 step.note.ephemeralPub == r && Unspent(Apply(s, step).wallets[r]) == 2
    ensures r in s.wallets ==> Unspent(Apply(s, step).wallets[r]) <= Unspent(s.wallets[r])
    ensures r in s.wallets && (step == HandleRequest(r) || step == SelfAnnounce(r)) ==>
              Unspent(Apply(s, step).wallets[r]) + |Added(s, step)| == Unspent(s.wallets[r]) ||
              Apply(s, step) == s
  {
    hide Enqueued, MarkedAll, Circulating, Guard, SeenIn, Airborne, Entries;
  }

  /** The history of what others offer grows by what they add to circulation. */
  lemma OthersGrow(s: System, step: Step)
    ensures multiset(Apply(s, step).others) ==
            multiset(s.others) + if step.HandleOther? || step.OtherTx? then Added(s, step) else multiset{}
  {
    hide Enqueued, MarkedAll, Circulating, Guard, SeenIn, Airborne, Entries, NotesOf;
  }

  lemma CopiesStep(s: System, step: Step)
    requires Bounded(s) && WalletsConsistent(s) && CopiesAccounted(s)
    ensures CopiesAccounted(Apply(s, step))
  {
    hide Apply, Circulating;
    var s' := Apply(s, step);
    CirculatingStep(s, step);
    OthersGrow(s, step);
    forall n: Note | n.ephemeralPub in s'.wallets
      ensures Circulating(s')[n] <= OwnCopies(s'.wallets[n.ephemeralPub], n) + multiset(s'.others)[n]
    {
      var r := n.ephemeralPub;
      WalletNotes(s, step, r);
      assert r in s.wallets ==> WalletConsistent(s, r);
      assert Circulating(s')[n] <= Circulating(s)[n] + Added(s, step)[n];
      if r !in s.wallets {
        assert n !in Circulating(s);
      }
    }
  }
}
