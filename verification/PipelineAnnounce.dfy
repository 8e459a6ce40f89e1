/**
  Decoupled announcement with the self-announce fallback (section 5.8.2 of sRFC-0042), over
  every run, including those in which other parties publish notes with a wallet's `R`.
 */
module PipelineAnnounce {
  import opened Results
  import opened Bytes
  import opened Wire
  import opened Pinboard
  import opened Dedup
  import opened AnnounceService
  import opened Pipeline
  import opened PipelineQueue
  import opened PipelineLedger
  import opened PipelineCopies
  import opened PipelineTheorems

  // ---- Counting copies ----

  lemma {:induction false} CountMonotone(a: seq<Note>, b: seq<Note>, r: Bytes32)
    requires forall n: Note | n.ephemeralPub == r :: multiset(a)[n] <= multiset(b)[n]
    ensures Count(a, r) <= Count(b, r)
  {
    if a != [] {
      assert a == [a[0]] + a[1..];
      assert multiset(a) == multiset{a[0]} + multiset(a[1..]);
      if a[0].ephemeralPub == r {
        assert multiset(a)[a[0]] > 0;
        var j :| 0 <= j < |b| && b[j] == a[0];
        var without := b[..j] + b[j + 1..];
        assert b == b[..j] + [b[j]] + b[j + 1..];
        assert multiset(b) == multiset(without) + multiset{b[j]};
        CountAppend(b[..j], [b[j]], r);
        CountAppend(b[..j] + [b[j]], b[j + 1..], r);
        CountAppend(b[..j], b[j + 1..], r);
        assert [b[j]][1..] == [];
        CountMonotone(a[1..], without, r);
      } else {
        CountMonotone(a[1..], b, r);
      }
    }
  }

  lemma {:induction false} CountCopies(copies: seq<Note>, note: Note)
    requires forall i | 0 <= i < |copies| :: copies[i] == note
    ensures Count(copies, note.ephemeralPub) == |copies|
    ensures forall n: Note :: multiset(copies)[n] == if n == note then |copies| else 0
  {
    if copies != [] {
      CountCopies(copies[1..], note);
      assert copies == [note] + copies[1..];
    }
  }

  /**
    In every run: a payment's `R` is logged at most once for the request its wallet made, once
    for its own post, and once for each copy somebody else offered, and any altered note with
    it is somebody else's. Deduplication leaves exactly one note with `R`, the wallet's own if
    and only if that came first, which it did if nobody else used `R`. A wallet that has
    stopped waiting has its `R` in the log.
   */
  lemma AnnouncedOnceAfterDedup(
      maxPending: nat, maxStatuses: nat, timeout: nat, steps: seq<Step>, r: Bytes32)
    requires r in Run(Init(maxPending, maxStatuses, timeout), steps).wallets
    ensures var s := Run(Init(maxPending, maxStatuses, timeout), steps);
            var w := s.wallets[r];
            && w.note.ephemeralPub == r
            && Count(s.log, r) <= 2 - Unspent(w) + Count(s.others, r)
            && (forall n | n in s.log && n.ephemeralPub == r :: n == w.note || n in s.others)
            && Count(Deduped(s.log), r) == (if SeenIn(s.log, r) then 1 else 0)
            && (SeenIn(s.log, r) ==> (w.note in Deduped(s.log) <==> s.log[FirstIndex(s.log, r)] == w.note))
            && (SeenIn(s.log, r) && !SeenIn(s.others, r) ==> w.note in Deduped(s.log))
            && (w.done ==> SeenIn(s.log, r))
  {
    hide Apply, Run, Bounded, Fifo, StatusesMatchHistory, Ledger, Deduped, FirstIndex, Count;
    var s := Run(Init(maxPending, maxStatuses, timeout), steps);
    EveryRunKeeps(maxPending, maxStatuses, timeout, steps);
    assert WalletConsistent(s, r);
    var w := s.wallets[r];
    LogAccounted(s, r);
    DedupedOncePerKey(s.log, r);
    DedupedAreFirst(s.log, w.note);
    if SeenIn(s.log, r) {
      assert s.log[FirstIndex(s.log, r)] in s.log;
    }
  }

  lemma LogAccounted(s: System, r: Bytes32)
    requires CopiesAccounted(s) && r in s.wallets && s.wallets[r].note.ephemeralPub == r
    ensures Count(s.log, r) <= 2 - Unspent(s.wallets[r]) + Count(s.others, r)
    ensures forall n | n in s.log && n.ephemeralPub == r :: n == s.wallets[r].note || n in s.others
  {
    hide Airborne, Entries, Count;
    var w := s.wallets[r];
    var own := seq(2 - Unspent(w), _ => w.note);
    CountCopies(own, w.note);
    forall n: Note | n.ephemeralPub == r
      ensures multiset(s.log)[n] <= multiset(own + s.others)[n]
      ensures n in s.log ==> n == w.note || n in s.others
    {
      assert Circulating(s)[n] <= OwnCopies(w, n) + multiset(s.others)[n];
      assert n in s.log ==> multiset(s.log)[n] > 0;
    }
    CountMonotone(s.log, own + s.others, r);
    CountAppend(own, s.others, r);
  }

  // ---- The log only grows, so the first note with an `R` stays first ----

  lemma {:induction false} LogOnlyGrows(s: System, more: seq<Step>)
    ensures s.log <= Run(s, more).log
  {
    if more != [] {
      var s1 := Run(s, more[..|more| - 1]);
      LogOnlyGrows(s, more[..|more| - 1]);
      LogGrowsBy(s1, more[|more| - 1]);
    }
  }

  lemma LogGrowsBy(s: System, step: Step)
    ensures s.log <= Apply(s, step).log
  {
    hide Enqueued, MarkedAll, Circulating, Guard, SeenIn, Airborne, Entries, NotesOf;
  }

  lemma FirstStaysFirst(log: seq<Note>, later: seq<Note>, note: Note)
    requires log <= later && SeenIn(log, note.ephemeralPub)
    ensures SeenIn(later, note.ephemeralPub)
    ensures FirstIndex(later, note.ephemeralPub) == FirstIndex(log, note.ephemeralPub)
    ensures note in Deduped(later) <==> IsFirst(log, note)
  {
    var r := note.ephemeralPub;
    assert later == log + later[|log|..];
    FirstIndexAppend(log, later[|log|..], r);
    DedupedAreFirst(later, note);
  }

  /**
    What a waiting wallet can check before it stops: once its own view of the log shows `R`,
    its note survives deduplication in every later log if and only if it is the first note
    with `R` in that view.
   */
  lemma SurvivesExactly(maxPending: nat, maxStatuses: nat, timeout: nat, steps: seq<Step>, r: Bytes32)
    requires var s := Run(Init(maxPending, maxStatuses, timeout), steps);
             r in s.wallets && s.wallets[r].view <= |s.log| && SeenIn(s.log[..s.wallets[r].view], r)
    ensures var s := Run(Init(maxPending, maxStatuses, timeout), steps);
            var w := s.wallets[r];
            IsFirst(s.log[..w.view], w.note) <==>
            forall more :: w.note in Deduped(Run(Init(maxPending, maxStatuses, timeout), steps + more).log)
  {
    hide Run, Apply, Bounded, Fifo, StatusesMatchHistory, Ledger, CopiesAccounted, Deduped, IsFirst;
    var s0 := Init(maxPending, maxStatuses, timeout);
    var s := Run(s0, steps);
    EveryRunKeeps(maxPending, maxStatuses, timeout, steps);
    assert WalletConsistent(s, r);
    var w := s.wallets[r];
    forall more
      ensures w.note in Deduped(Run(s0, steps + more).log) <==> IsFirst(s.log[..w.view], w.note)
    {
      RunAppend(s0, steps, more);
      LogOnlyGrows(s, more);
      FirstStaysFirst(s.log[..w.view], Run(s, more).log, w.note);
    }
    assert w.note in Deduped(Run(s0, steps + []).log) <==> IsFirst(s.log[..w.view], w.note);
  }

  /** The wallet has stopped, and a recipient who deduplicates the log is left with its note. */
  ghost predicate Delivered(s: System, r: Bytes32) {
    r in s.wallets && s.wallets[r].done && s.wallets[r].note in Deduped(s.log)
  }

  /**
    Which payments are never stranded: from a reachable state some continuation delivers the
    wallet's announcement if and only if the log does not already start, for `R`, with
    another party's note. Whatever the service does with the request makes no difference.
   */
  lemma RecoverableExactly(maxPending: nat, maxStatuses: nat, timeout: nat, steps: seq<Step>, r: Bytes32)
    requires r in Run(Init(maxPending, maxStatuses, timeout), steps).wallets
    ensures var s := Run(Init(maxPending, maxStatuses, timeout), steps);
            var own := s.wallets[r].note;
            && own.ephemeralPub == r
            && ((exists more :: Delivered(Run(Init(maxPending, maxStatuses, timeout), steps + more), r)) <==>
                (SeenIn(s.log, r) ==> s.log[FirstIndex(s.log, r)] == own))
            && (!SeenIn(s.others, r) ==> exists more ::
                  Delivered(Run(Init(maxPending, maxStatuses, timeout), steps + more), r))
  {
    hide Run, Apply, Bounded, Fifo, StatusesMatchHistory, CopiesAccounted, Deduped, FirstIndex, Delivered, Count;
    var s0 := Init(maxPending, maxStatuses, timeout);
    var s := Run(s0, steps);
    EveryRunKeeps(maxPending, maxStatuses, timeout, steps);
    AnnouncedOnceAfterDedup(maxPending, maxStatuses, timeout, steps, r);
    DedupedAreFirst(s.log, s.wallets[r].note);
    if SeenIn(s.log, r) ==> s.log[FirstIndex(s.log, r)] == s.wallets[r].note {
      var more := FinishPayment(s, r);
      RunAppend(s0, steps, more);
      assert Delivered(Run(s0, steps + more), r);
    } else {
      forall more
        ensures !Delivered(Run(s0, steps + more), r)
      {
        RunAppend(s0, steps, more);
        NeverDelivered(s, r, more);
      }
    }
  }

  lemma NeverDelivered(s: System, r: Bytes32, more: seq<Step>)
    requires r in s.wallets && s.wallets[r].note.ephemeralPub == r
    requires SeenIn(s.log, r) && s.log[FirstIndex(s.log, r)] != s.wallets[r].note
    ensures !Delivered(Run(s, more), r)
  {
    hide Run, Deduped;
    LogOnlyGrows(s, more);
    NotesKept(s, more, r);
    FirstStaysFirst(s.log, Run(s, more).log, s.wallets[r].note);
  }

  lemma {:induction false} NotesKept(s: System, more: seq<Step>, r: Bytes32)
    requires r in s.wallets
    ensures r in Run(s, more).wallets && Run(s, more).wallets[r].note == s.wallets[r].note
  {
    hide Apply;
    if more != [] {
      NotesKept(s, more[..|more| - 1], r);
      WalletKept(Run(s, more[..|more| - 1]), more[|more| - 1], r);
    }
  }

  lemma WalletKept(s: System, step: Step, r: Bytes32)
    requires r in s.wallets
    ensures r in Apply(s, step).wallets && Apply(s, step).wallets[r].note == s.wallets[r].note
  {
    hide Enqueued, MarkedAll, Circulating, Guard, SeenIn, Airborne, Entries;
  }

  lemma FinishPayment(s: System, r: Bytes32) returns (more: seq<Step>)
    requires Ledger(s) && WalletsConsistent(s) && r in s.wallets
    requires SeenIn(s.log, r) ==> s.log[FirstIndex(s.log, r)] == s.wallets[r].note
    ensures Delivered(Run(s, more), r)
  {
    hide Run, Apply, Deduped, FirstIndex;
    assert WalletConsistent(s, r);
    var w := s.wallets[r];
    if SeenIn(s.log, r) {
      more := [Watch(r, |s.log|), StopOnSight(r)];
      RunPair(s, Watch(r, |s.log|), StopOnSight(r));
      StopHere(s, r);
      DedupedAreFirst(s.log, w.note);
    } else if w.selfPost.Some? {
      more := LandOwnPost(s, r);
    } else {
      var start := [Tick(s.timeout), SelfAnnounce(r)];
      RunPair(s, Tick(s.timeout), SelfAnnounce(r));
      TimeOut(s, r);
      var s1 := Run(s, start);
      more := LandOwnPost(s1, r);
      RunAppend(s, start, more);
      more := start + more;
    }
  }

  lemma StopHere(s: System, r: Bytes32)
    requires r in s.wallets && s.wallets[r].view <= |s.log| && s.wallets[r].note.ephemeralPub == r && SeenIn(s.log, r)
    ensures var s' := Apply(Apply(s, Watch(r, |s.log|)), StopOnSight(r));
            s'.log == s.log && r in s'.wallets && s'.wallets[r].note == s.wallets[r].note && s'.wallets[r].done
  {
    hide SeenIn;
    assert s.log[..|s.log|] == s.log;
  }

  /** The wallet's timer runs out and it posts the note itself. */
  lemma TimeOut(s: System, r: Bytes32)
    requires r in s.wallets && WalletConsistent(s, r) && s.wallets[r].selfPost.None? && !SeenIn(s.log, r)
    ensures var s' := Apply(Apply(s, Tick(s.timeout)), SelfAnnounce(r));
            && s'.log == s.log && r in s'.wallets && s'.wallets[r].note == s.wallets[r].note
            && s'.wallets[r].selfPost == Some(|s.txs|) && |s'.txs| == |s.txs| + 1
            && s'.txs[|s.txs|] == Tx(Post(s.wallets[r].note), Wallet, Unprocessed)
  {
    hide SeenIn;
    var v := s.wallets[r].view;
    SeenAppend(s.log[..v], s.log[v..], r);
    assert s.log[..v] + s.log[v..] == s.log;
  }

  /** While `R` is not in the log, a broadcast self-announcement can still be executed, first, and observed. */
  lemma LandOwnPost(s: System, r: Bytes32) returns (more: seq<Step>)
    requires r in s.wallets && s.wallets[r].selfPost.Some? && s.wallets[r].selfPost.value < |s.txs|
    requires s.wallets[r].note.ephemeralPub == r && !SeenIn(s.log, r)
    requires var tx := s.txs[s.wallets[r].selfPost.value];
             TxConsistent(s.log, tx) && tx.ix == Post(s.wallets[r].note)
    requires |s.wallets[r].note.metadata| <= Pinboard.MAX_METADATA_LEN
    ensures Delivered(Run(s, more), r)
  {
    hide SeenIn, Run, Deduped;
    var t, note := s.wallets[r].selfPost.value, s.wallets[r].note;
    SelfPostPassesGuard(note);
    if s.txs[t].state.Landed? {
      LandedPostSeen(s.log, s.txs[t], note);
    }
    more := [Execute(t), StopOnOwnPost(r)];
    RunPair(s, Execute(t), StopOnOwnPost(r));
    SeenSnoc(s.log, note);
    FirstIndexSnoc(s.log, note, r);
    DedupedAreFirst(s.log + [note], note);
  }

  /**
    Without that proviso the wallet's note can be lost for good: anybody who sees `R` first, the
    service included, can publish another note with it, on which the wallet stops, and which
    is the only one deduplication keeps.
   */
  lemma ForgedNoteWins(maxPending: nat, maxStatuses: nat, timeout: nat, own: Note, forged: Note)
    returns (steps: seq<Step>)
    requires own.schemeId == SCHEME_ID_V1 && |own.metadata| <= AnnounceService.MAX_METADATA_LEN
    requires forged.ephemeralPub == own.ephemeralPub && |forged.metadata| <= Pinboard.MAX_METADATA_LEN
    ensures var s := Run(Init(maxPending, maxStatuses, timeout), steps);
            && own.ephemeralPub in s.wallets && s.wallets[own.ephemeralPub].note == own
            && s.wallets[own.ephemeralPub].done && s.log == [forged] && Deduped(s.log) == [forged]
  {
    hide Run, Apply;
    var s0, r := Init(maxPending, maxStatuses, timeout), own.ephemeralPub;
    var start := [StartPayment(own), OtherTx(Post(forged))];
    RunPair(s0, StartPayment(own), OtherTx(Post(forged)));
    ForgeFirst(s0, own, forged);
    var s1 := Run(s0, start);
    var land := [Execute(0), Watch(r, 1)];
    RunPair(s1, Execute(0), Watch(r, 1));
    RunSingle(Run(s1, land), StopOnSight(r));
    StopOnForged(s1, own, forged);
    RunAppend(s0, start, land);
    RunAppend(s0, start + land, [StopOnSight(r)]);
    steps := start + land + [StopOnSight(r)];
  }

  lemma ForgeFirst(s: System, own: Note, forged: Note)
    requires own.schemeId == SCHEME_ID_V1 && |own.metadata| <= AnnounceService.MAX_METADATA_LEN
    requires Fresh(s, own.ephemeralPub)
    ensures Apply(Apply(s, StartPayment(own)), OtherTx(Post(forged))) ==
            s.(wallets := s.wallets[own.ephemeralPub := WalletState(own, s.now, false, |s.log|, None, false)],
               txs := s.txs + [Tx(Post(forged), Other, Unprocessed)], others := s.others + [forged])
  {
  }

  lemma StopOnForged(s: System, own: Note, forged: Note)
    requires var r := own.ephemeralPub;
             r in s.wallets && s.wallets[r].note == own && s.wallets[r].view == 0
    requires s.log == [] && s.txs == [Tx(Post(forged), Other, Unprocessed)]
    requires forged.ephemeralPub == own.ephemeralPub && |forged.metadata| <= Pinboard.MAX_METADATA_LEN
    ensures var r := own.ephemeralPub;
            var s' := Apply(Apply(Apply(s, Execute(0)), Watch(r, 1)), StopOnSight(r));
            && r in s'.wallets && s'.wallets[r].note == own && s'.wallets[r].done
            && s'.log == [forged] && Deduped(s'.log) == [forged]
  {
    hide Guard, SeenIn, Deduped;
    SelfPostPassesGuard(forged);
    SeenSnoc([], forged);
    assert [] + [forged] == [forged];
    DedupedOfOne(forged);
    var s1 := Apply(s, Execute(0));
    assert s1.log == [forged] && s1.wallets == s.wallets;
    hide Apply, NotesOf;
    StopHere(s1, own.ephemeralPub);
  }

  lemma DedupedOfOne(note: Note)
    ensures Deduped([note]) == [note]
  {
    assert [note][..0] == [];
    assert Deduped([]) == [];
  }

  // ---- When a wallet posts itself ----

  /** Whatever the wallet has watched of the log does not show `R`. */
  predicate UnseenSoFar(s: System, r: Bytes32)
    requires r in s.wallets
  {
    s.wallets[r].view <= |s.log| && !SeenIn(s.log[..s.wallets[r].view], r)
  }

  /**
    In every run, the step by which a wallet posts its note itself does so exactly if the wallet
    is still waiting, has not posted before, the timeout has run out since the payment, and the
    part of the log it has watched does not show its `R`. No other step posts for it.
   */
  lemma SelfAnnouncesExactly(
      maxPending: nat, maxStatuses: nat, timeout: nat, steps: seq<Step>, step: Step, r: Bytes32)
    requires r in Run(Init(maxPending, maxStatuses, timeout), steps).wallets
    ensures var s := Run(Init(maxPending, maxStatuses, timeout), steps);
            var (s', w) := (Run(Init(maxPending, maxStatuses, timeout), steps + [step]), s.wallets[r]);
            && r in s'.wallets
            && (s'.wallets[r].selfPost != w.selfPost <==>
                && step == SelfAnnounce(r)
                && !w.done && w.selfPost.None?
                && s.now >= w.submittedAt + timeout
                && UnseenSoFar(s, r))
            && (s'.wallets[r].selfPost != w.selfPost ==>
                  s'.txs == s.txs + [Tx(Post(w.note), Wallet, Unprocessed)] && s'.wallets[r].selfPost == Some(|s.txs|))
  {
    hide Run, Apply, Bounded, Fifo, StatusesMatchHistory, Ledger, CopiesAccounted;
    var s0 := Init(maxPending, maxStatuses, timeout);
    var s := Run(s0, steps);
    EveryRunKeeps(maxPending, maxStatuses, timeout, steps);
    assert WalletConsistent(s, r);
    RunAppend(s0, steps, [step]);
    RunSingle(s, step);
    WalletKept(s, step, r);
    TimeoutKept(s0, steps);
    SelfPostStep(s, step, r);
  }

  lemma SelfPostStep(s: System, step: Step, r: Bytes32)
    requires r in s.wallets && WalletConsistent(s, r) && r in Apply(s, step).wallets
    ensures var (s', w) := (Apply(s, step), s.wallets[r]);
            && (s'.wallets[r].selfPost != w.selfPost <==>
                && step == SelfAnnounce(r)
                && !w.done && w.selfPost.None?
                && s.now >= w.submittedAt + s.timeout
                && UnseenSoFar(s, r))
            && (s'.wallets[r].selfPost != w.selfPost ==>
                  s'.txs == s.txs + [Tx(Post(w.note), Wallet, Unprocessed)] && s'.wallets[r].selfPost == Some(|s.txs|))
  {
    hide Enqueued, MarkedAll, Circulating, Guard, SeenIn, Airborne, Entries;
  }

  lemma {:induction false} TimeoutKept(s: System, steps: seq<Step>)
    ensures Run(s, steps).timeout == s.timeout && s.now <= Run(s, steps).now
  {
    hide Apply;
    if steps != [] {
      TimeoutKept(s, steps[..|steps| - 1]);
      TimeoutStep(Run(s, steps[..|steps| - 1]), steps[|steps| - 1]);
    }
  }

  lemma TimeoutStep(s: System, step: Step)
    ensures Apply(s, step).timeout == s.timeout && s.now <= Apply(s, step).now
  {
    hide Enqueued, MarkedAll, Circulating, Guard, Sees, Entries;
  }

  /** So in every run a wallet that has posted itself had waited for the timeout first. */
  lemma {:induction false} SelfPostWaited(
      maxPending: nat, maxStatuses: nat, timeout: nat, steps: seq<Step>, r: Bytes32)
    requires var s := Run(Init(maxPending, maxStatuses, timeout), steps);
             r in s.wallets && s.wallets[r].selfPost.Some?
    ensures var s := Run(Init(maxPending, maxStatuses, timeout), steps);
            s.now >= s.wallets[r].submittedAt + timeout
  {
    hide Apply;
    var before, step := steps[..|steps| - 1], steps[|steps| - 1];
    assert steps == before + [step];
    var s := Run(Init(maxPending, maxStatuses, timeout), before);
    StartKept(s, step, r);
    if r in s.wallets {
      SelfAnnouncesExactly(maxPending, maxStatuses, timeout, before, step, r);
      TimeoutStep(s, step);
      if s.wallets[r].selfPost.Some? {
        SelfPostWaited(maxPending, maxStatuses, timeout, before, r);
      }
    }
  }

  lemma StartKept(s: System, step: Step, r: Bytes32)
    requires r in Apply(s, step).wallets
    ensures if r in s.wallets then Apply(s, step).wallets[r].submittedAt == s.wallets[r].submittedAt
            else Apply(s, step).wallets[r].selfPost.None? && Apply(s, step).wallets[r].submittedAt == s.now
  {
    hide Enqueued, MarkedAll, Circulating, Guard, Sees, Entries;
  }
}
