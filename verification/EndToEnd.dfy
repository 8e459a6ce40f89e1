/** From a sender's derivation, through the announcement pipeline, to the recipient's spend. */
module EndToEnd {
  import opened Results
  import opened Bytes
  import opened Wire
  import opened Dedup
  import opened AnnounceService
  import opened Pipeline
  import opened PipelineAnnounce
  import opened Stealth
  import opened Signing
  import opened Indexer
  import opened IndexerReader

  /** `Announcement::from_payment`; the error is the offending length. */
  function FromPayment(payment: StealthPayment, metadata: seq<Byte>): Result<Note, nat> {
    if |metadata| > AnnounceService.MAX_METADATA_LEN then Err(|metadata|)
    else Ok(Note(SCHEME_ID_V1, payment.ephemeralPub, payment.viewTag, metadata))
  }

  /** What a wallet announces: the payment's key and tag, the scheme, and the metadata it was given. */
  lemma AnnouncesExactly(payment: StealthPayment, metadata: seq<Byte>, note: Note)
    ensures FromPayment(payment, metadata) == Ok(note) <==>
            && |metadata| <= 64
            && note.schemeId == 1 && note.ephemeralPub == payment.ephemeralPub && note.viewTag == payment.viewTag
            && note.metadata == metadata
    ensures |metadata| > 64 ==> FromPayment(payment, metadata) == Err(|metadata|)
  {
  }

  /** The entries the step system lets the service accept are exactly those its validation accepts. */
  lemma ServiceAcceptsExactly(b58: Base58, note: Note, proof: Option<string>)
    requires Inverse(b58)
    ensures ServiceAccepts(note) <==> RequestToNoteEntry(b58, FromAnnouncement(b58, note, proof)) == Ok(note)
  {
    RequestRoundTrip(b58, note, proof);
  }

  /** The service's own validation accepts whatever a wallet announces. */
  lemma ServiceAcceptsPayments(b58: Base58, payment: StealthPayment, metadata: seq<Byte>, proof: Option<string>)
    requires Inverse(b58) && FromPayment(payment, metadata).Ok?
    ensures var note := FromPayment(payment, metadata).value;
            RequestToNoteEntry(b58, FromAnnouncement(b58, note, proof)) == Ok(note) && ServiceAccepts(note)
  {
    RequestRoundTrip(b58, FromPayment(payment, metadata).value, proof);
  }

  lemma {:induction false} ScanLogContains(
      c: Suite, spend: SpendKey, scan: ScanKey, notes: seq<Note>, n: Note, knownLabels: seq<U32>, m: NoteMatch)
    requires n in notes && m in Candidates(c, spend, scan, n.ephemeralPub, n.viewTag, knownLabels)
    ensures m in ScanLog(c, spend, scan, notes, knownLabels)
  {
    hide Candidates;
    if n != notes[0] {
      assert notes == [notes[0]] + notes[1..];
      ScanLogContains(c, spend, scan, notes[1..], n, knownLabels, m);
    }
  }

  lemma {:induction false} ForwardedExactly(c: Suite, scanRaw: Bytes32, notes: seq<Note>, n: Note)
    ensures n in Forwarded(c, scanRaw, notes) <==>
            n in notes && ViewTagMatches(c, FromRaw(c, scanRaw), n.ephemeralPub, n.viewTag)
  {
    hide ViewTagMatches;
    if notes != [] {
      ForwardedExactly(c, scanRaw, notes[1..], n);
      assert notes == [notes[0]] + notes[1..];
    }
  }

  /** The candidate a recipient needs: the paid address, its label, and a key that signs for it. */
  predicate Spends(c: Suite, p: StealthPayment, labelIndex: U32, message: seq<Byte>, m: NoteMatch) {
    && m.labelIndex == labelIndex && m.stealthAddress == p.stealthAddress
    && Verify(c, p.stealthAddress, message, Sign(c, NewKey(c, m.stealthScalar), message))
  }

  /** Some note with the payment's `R` yields it. */
  ghost predicate FoundIn(
      c: Suite, spend: SpendKey, scan: ScanKey, notes: seq<Note>, knownLabels: seq<U32>,
      p: StealthPayment, labelIndex: U32, message: seq<Byte>) {
    exists n, m :: n in notes && n.ephemeralPub == p.ephemeralPub &&
      m in Candidates(c, spend, scan, n.ephemeralPub, n.viewTag, knownLabels) && Spends(c, p, labelIndex, message, m)
  }

  /** Of a payment to this recipient, a note is scanned with success exactly if it has the payment's view tag. */
  lemma FoundUnderTag(
      c: Suite, spend: SpendKey, scan: ScanKey, labelIndex: U32, r: Bytes32, knownLabels: seq<U32>, message: seq<Byte>,
      viewTag: Byte)
    requires Lawful(c) && KeyPair(c, spend, scan)
    requires DerivePayment(c, ForLabel(c, spend, scan, labelIndex), r).Ok?
    requires labelIndex == 0 || labelIndex in knownLabels
    ensures var p := DerivePayment(c, ForLabel(c, spend, scan, labelIndex), r).value;
            var out := Candidates(c, spend, scan, p.ephemeralPub, viewTag, knownLabels);
            && (viewTag == p.viewTag ==> exists m :: m in out && Spends(c, p, labelIndex, message, m))
            && (viewTag != p.viewTag ==> out == [])
  {
    hide DerivePayment, ForLabel, Verify, Sign, NewKey, KeyPair, Lawful, ViewTagMatches, Candidate, LabelScalar;
    PaymentTag(c, spend, scan, labelIndex, r, viewTag);
    if viewTag == DerivePayment(c, ForLabel(c, spend, scan, labelIndex), r).value.viewTag {
      RecoveredKeySigns(c, spend, scan, labelIndex, r, knownLabels, message);
    }
  }

  /**
    In every run of the pipeline, once the sending wallet has stopped waiting: a recipient who
    deduplicates the chain log, lets a view-only scanner filter it and scans what is left finds
    the payment under its `R` if and only if the first note logged with `R` has the payment's
    view tag. It then has the address that was paid, the label, and a key whose signatures that
    address accepts. The tag is right whenever nobody else used `R`.
   */
  lemma PaymentFoundExactly(
      c: Suite, spend: SpendKey, scan: ScanKey, labelIndex: U32, r: Bytes32, metadata: seq<Byte>,
      knownLabels: seq<U32>, maxPending: nat, maxStatuses: nat, timeout: nat, steps: seq<Step>, message: seq<Byte>)
    requires Lawful(c) && KeyPair(c, spend, scan)
    requires DerivePayment(c, ForLabel(c, spend, scan, labelIndex), r).Ok?
    requires labelIndex == 0 || labelIndex in knownLabels
    requires var p := DerivePayment(c, ForLabel(c, spend, scan, labelIndex), r).value;
             var s := Run(Init(maxPending, maxStatuses, timeout), steps);
             p.ephemeralPub in s.wallets && s.wallets[p.ephemeralPub].done &&
             FromPayment(p, metadata) == Ok(s.wallets[p.ephemeralPub].note)
    ensures var p := DerivePayment(c, ForLabel(c, spend, scan, labelIndex), r).value;
            var s := Run(Init(maxPending, maxStatuses, timeout), steps);
            var forwarded := Forwarded(c, scan.raw, Deduped(s.log));
            && SeenIn(s.log, p.ephemeralPub)
            && var first := s.log[FirstIndex(s.log, p.ephemeralPub)];
            && (FoundIn(c, spend, scan, forwarded, knownLabels, p, labelIndex, message) <==> first.viewTag == p.viewTag)
            && (first.viewTag == p.viewTag ==>
                  exists m :: m in ScanLog(c, spend, scan, forwarded, knownLabels) &&
                    Spends(c, p, labelIndex, message, m))
            && (!SeenIn(s.others, p.ephemeralPub) ==> first.viewTag == p.viewTag)
  {
    hide Run, DerivePayment, ForLabel, Candidates, ScanLog, Forwarded, Deduped, FirstIndex, Spends, ViewTagMatches,
         Count;
    var p := DerivePayment(c, ForLabel(c, spend, scan, labelIndex), r).value;
    var s := Run(Init(maxPending, maxStatuses, timeout), steps);
    AnnouncedOnceAfterDedup(maxPending, maxStatuses, timeout, steps, p.ephemeralPub);
    var first := s.log[FirstIndex(s.log, p.ephemeralPub)];
    FoundUnderTag(c, spend, scan, labelIndex, r, knownLabels, message, first.viewTag);
    FirstIsFound(c, spend, scan, labelIndex, knownLabels, p, message, s.log);
  }

  /** Of a log, exactly the first note with `R` decides. */
  lemma FirstIsFound(
      c: Suite, spend: SpendKey, scan: ScanKey, labelIndex: U32, knownLabels: seq<U32>, p: StealthPayment,
      message: seq<Byte>, log: seq<Note>)
    requires KeyPair(c, spend, scan) && SeenIn(log, p.ephemeralPub)
    ensures var first := log[FirstIndex(log, p.ephemeralPub)];
            var forwarded := Forwarded(c, scan.raw, Deduped(log));
            var out := Candidates(c, spend, scan, p.ephemeralPub, first.viewTag, knownLabels);
            && (FoundIn(c, spend, scan, forwarded, knownLabels, p, labelIndex, message) <==>
                exists m :: m in out && Spends(c, p, labelIndex, message, m))
            && forall m | m in out :: m in ScanLog(c, spend, scan, forwarded, knownLabels)
  {
    hide Candidates, ScanLog, Forwarded, Deduped, FirstIndex, Spends, ViewTagMatches;
    var first := log[FirstIndex(log, p.ephemeralPub)];
    var forwarded := Forwarded(c, scan.raw, Deduped(log));
    var out := Candidates(c, spend, scan, p.ephemeralPub, first.viewTag, knownLabels);
    DedupedAreFirst(log, first);
    ForwardedExactly(c, scan.raw, Deduped(log), first);
    FilterRefinesScan(c, spend, scan, first.ephemeralPub, first.viewTag, knownLabels);
    forall m | m in out
      ensures m in ScanLog(c, spend, scan, forwarded, knownLabels)
    {
      ScanLogContains(c, spend, scan, forwarded, first, knownLabels, m);
    }
    forall n | n in forwarded && n.ephemeralPub == p.ephemeralPub
      ensures n == first
    {
      ForwardedExactly(c, scan.raw, Deduped(log), n);
      DedupedAreFirst(log, n);
    }
  }

  /**
    The condition can fail for any payment at all: in some run the wallet stops on another
    party's note with its `R` and a wrong view tag, and the recipient does not find the payment.
   */
  lemma PaymentCanBeHidden(
      c: Suite, spend: SpendKey, scan: ScanKey, labelIndex: U32, r: Bytes32, metadata: seq<Byte>,
      knownLabels: seq<U32>, maxPending: nat, maxStatuses: nat, timeout: nat, message: seq<Byte>)
    returns (steps: seq<Step>)
    requires Lawful(c) && KeyPair(c, spend, scan)
    requires DerivePayment(c, ForLabel(c, spend, scan, labelIndex), r).Ok?
    requires labelIndex == 0 || labelIndex in knownLabels
    requires |metadata| <= AnnounceService.MAX_METADATA_LEN
    ensures var p := DerivePayment(c, ForLabel(c, spend, scan, labelIndex), r).value;
            var s := Run(Init(maxPending, maxStatuses, timeout), steps);
            && p.ephemeralPub in s.wallets && s.wallets[p.ephemeralPub].done
            && FromPayment(p, metadata) == Ok(s.wallets[p.ephemeralPub].note)
            && !FoundIn(c, spend, scan, Forwarded(c, scan.raw, Deduped(s.log)), knownLabels, p, labelIndex, message)
  {
    hide Run, DerivePayment, ForLabel, Deduped, FoundIn, Lawful, KeyPair, Forwarded, FirstIndex, ScanLog, Count;
    var p := DerivePayment(c, ForLabel(c, spend, scan, labelIndex), r).value;
    var own := FromPayment(p, metadata).value;
    var forged := own.(viewTag := (p.viewTag + 1) % 256);
    steps := ForgedNoteWins(maxPending, maxStatuses, timeout, own, forged);
    var s := Run(Init(maxPending, maxStatuses, timeout), steps);
    assert s.log == [forged] && FromPayment(p, metadata) == Ok(own);
    PaymentFoundExactly(
      c, spend, scan, labelIndex, r, metadata, knownLabels, maxPending, maxStatuses, timeout, steps, message);
    assert s.log[FirstIndex(s.log, p.ephemeralPub)] == forged;
  }

  /**
    The same for a recipient who reads a chain log through the indexer, page by page: the
    payment is found if and only if, among the notes retained and not before `since`, the first
    with `R` has its view tag. With nothing evicted and no start given that is the first of all.
   */
  lemma IndexedPaymentFoundExactly(
      c: Suite, spend: SpendKey, scan: ScanKey, labelIndex: U32, r: Bytes32, knownLabels: seq<U32>, message: seq<Byte>,
      b58: Base58, slots: seq<nat>, log: seq<Note>, cap: nat, since: Option<nat>, limit: nat, rounds: nat)
    returns (k: nat)
    requires Lawful(c) && KeyPair(c, spend, scan)
    requires DerivePayment(c, ForLabel(c, spend, scan, labelIndex), r).Ok?
    requires labelIndex == 0 || labelIndex in knownLabels
    requires Inverse(b58) && |slots| == |log| && SlotsAscend(Rows(b58, slots, log))
    requires ReadThrough(b58, slots, log, cap, since, limit, rounds).Some?
    ensures k <= |log| && forall i | 0 <= i < |log| :: i >= k <==> InReach(slots, cap, since, i)
    ensures since.None? && |log| <= cap ==> k == 0
    ensures var p := DerivePayment(c, ForLabel(c, spend, scan, labelIndex), r).value;
            var fetched := ReadThrough(b58, slots, log, cap, since, limit, rounds).value;
            var forwarded := Forwarded(c, scan.raw, Deduped(fetched));
            FoundIn(c, spend, scan, forwarded, knownLabels, p, labelIndex, message) <==>
            SeenIn(log[k..], p.ephemeralPub) &&
            log[k..][FirstIndex(log[k..], p.ephemeralPub)].viewTag == p.viewTag
  {
    hide DerivePayment, ForLabel, Candidates, ScanLog, Forwarded, Deduped, FirstIndex, Spends, ViewTagMatches, Lawful,
         KeyPair, Inverse, SlotsAscend, Rows, ReadThrough;
    k := IndexedLogDedups(b58, slots, log, cap, since, limit, rounds);
    assert since.None? && |log| <= cap && |log| > 0 ==> InReach(slots, cap, since, 0);
    var p := DerivePayment(c, ForLabel(c, spend, scan, labelIndex), r).value;
    var reached := log[k..];
    if SeenIn(reached, p.ephemeralPub) {
      var first := reached[FirstIndex(reached, p.ephemeralPub)];
      FoundUnderTag(c, spend, scan, labelIndex, r, knownLabels, message, first.viewTag);
      FirstIsFound(c, spend, scan, labelIndex, knownLabels, p, message, reached);
    } else {
      forall n | n in Forwarded(c, scan.raw, Deduped(reached))
        ensures n.ephemeralPub != p.ephemeralPub
      {
        ForwardedExactly(c, scan.raw, Deduped(reached), n);
        DedupedAreFirst(reached, n);
      }
    }
  }
}
