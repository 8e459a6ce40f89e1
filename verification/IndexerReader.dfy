/** A recipient who reads the announcements through the indexer and deduplicates what the pages give. */
module IndexerReader {
  import opened Results
  import opened Bytes
  import opened Wire
  import opened Dedup
  import opened AnnounceService
  import opened Sequences
  import opened Indexer

  /** The announcement a row was made of. */
  function RowNote(b58: Base58, a: StoredAnnouncement): Option<Note> {
    match (b58.decode(a.ephemeralPub), b58.decode(a.metadata))
    case (Some(r), Some(metadata)) => if |r| == 32 then Some(Note(a.schemeId, r, a.viewTag, metadata)) else None
    case (_, _) => None
  }

  function Received(b58: Base58, rows: seq<StoredAnnouncement>): seq<Note> {
    if rows == [] then []
    else (match RowNote(b58, rows[0]) case Some(n) => [n] case None => []) + Received(b58, rows[1..])
  }

  /** The rows of a chain log, each note with the slot it was seen in. */
  function Rows(b58: Base58, slots: seq<nat>, log: seq<Note>): (rows: seq<StoredAnnouncement>)
    requires |slots| == |log|
    ensures |rows| == |log|
  {
    seq(|log|, i requires 0 <= i < |log| => FromNote(b58.encode, slots[i], log[i]))
  }

  /** What a recipient gets who pages through the rows a store of this capacity retains of a log. */
  function ReadThrough(
      b58: Base58, slots: seq<nat>, log: seq<Note>, cap: nat, since: Option<nat>, limit: nat, rounds: nat)
      : Option<seq<Note>>
    requires |slots| == |log|
  {
    match Drained(LastN(Rows(b58, slots, log), cap), since, limit, rounds)
    case None => None
    case Some(rows) => Some(Received(b58, rows))
  }

  lemma {:induction false} ReceivedAppend(b58: Base58, a: seq<StoredAnnouncement>, b: seq<StoredAnnouncement>)
    ensures Received(b58, a + b) == Received(b58, a) + Received(b58, b)
  {
    hide RowNote;
    if a == [] {
      assert a + b == b;
    } else {
      var head := match RowNote(b58, a[0]) case Some(n) => [n] case None => [];
      var rest := Received(b58, a[1..]);
      ReceivedAppend(b58, a[1..], b);
      assert (a + b)[1..] == a[1..] + b;
      assert head + (rest + Received(b58, b)) == head + rest + Received(b58, b);
    }
  }

  /** Rows read back as the notes they were made of. */
  lemma {:induction false} RowsReadBack(b58: Base58, slots: seq<nat>, log: seq<Note>)
    requires |slots| == |log| && Inverse(b58)
    ensures Received(b58, Rows(b58, slots, log)) == log
  {
    if log != [] {
      RowsReadBack(b58, slots[1..], log[1..]);
      assert Rows(b58, slots, log)[1..] == Rows(b58, slots[1..], log[1..]);
      assert RowNote(b58, FromNote(b58.encode, slots[0], log[0])) == Some(log[0]);
      assert log == [log[0]] + log[1..];
    }
  }

  // ---- Repeated rows do not matter to a recipient who deduplicates ----

  lemma {:induction false} UnseenByKeys(notes: seq<Note>, x: seq<Note>, y: seq<Note>)
    requires forall r: Bytes32 :: SeenIn(x, r) <==> SeenIn(y, r)
    ensures Unseen(notes, x) == Unseen(notes, y)
  {
    hide SeenIn;
    if notes != [] {
      UnseenByKeys(notes[1..], x, y);
    }
  }

  lemma {:induction false} NothingUnseen(notes: seq<Note>, seen: seq<Note>)
    requires forall n | n in notes :: SeenIn(seen, n.ephemeralPub)
    ensures Unseen(notes, seen) == []
  {
    hide SeenIn;
    if notes != [] {
      assert notes[0] in notes;
      NothingUnseen(notes[1..], seen);
    }
  }

  /** Repeating the end of what was already read before reading on changes nothing. */
  lemma RepetitionDedups(a: seq<Note>, o: seq<Note>, t: seq<Note>)
    ensures Deduped(a + o + (o + t)) == Deduped(a + o + t)
  {
    hide Deduped, Unseen, SeenIn;
    var p := a + o;
    forall n | n in Deduped(o)
      ensures SeenIn(p, n.ephemeralPub)
    {
      DedupedAreFirst(o, n);
      SeenAppend(a, o, n.ephemeralPub);
    }
    NothingUnseen(Deduped(o), p);
    DedupedAppend(p, o);
    forall r: Bytes32
      ensures SeenIn(p + o, r) <==> SeenIn(p, r)
    {
      SeenAppend(a, o, r);
      SeenAppend(p, o, r);
    }
    UnseenByKeys(Deduped(t), p + o, p);
    DedupedAppend(p + o, t);
    DedupedAppend(p, t);
    assert p + o + t == p + (o + t);
    assert Deduped(p) + [] == Deduped(p);
  }

  /** A finished drain deduplicates to exactly what the retained announcements from `since` on do. */
  lemma {:induction false} DrainDedups(
      b58: Base58, items: seq<StoredAnnouncement>, since: Option<nat>, limit: nat, rounds: nat)
    requires SlotsAscend(items) && Drained(items, since, limit, rounds).Some?
    ensures Deduped(Received(b58, Drained(items, since, limit, rounds).value)) ==
            Deduped(Received(b58, Since(items, since)))
    decreases rounds
  {
    hide Since, Query, SlotsAscend, Deduped, Received;
    var page := Query(items, since, limit);
    var first := PageIs(items, since, limit);
    if |page| >= limit {
      var next := NextSince(page, since);
      DrainDedups(b58, items, next, limit, rounds - 1);
      var rest := Drained(items, next, limit, rounds - 1).value;
      if limit == 0 {
        assert page == [] && page + rest == rest;
      } else {
        var n, m := FullPage(items, since, limit);
        var a, o, t := items[n..m], items[m..n + limit], items[n + limit..];
        Stretches(items, n, m, n + limit);
        PageThenRest(b58, a, o, t, rest);
      }
    }
  }

  lemma PageThenRest(
      b58: Base58, a: seq<StoredAnnouncement>, o: seq<StoredAnnouncement>, t: seq<StoredAnnouncement>,
      rest: seq<StoredAnnouncement>)
    requires Deduped(Received(b58, rest)) == Deduped(Received(b58, o + t))
    ensures Deduped(Received(b58, a + o + rest)) == Deduped(Received(b58, a + o + t))
  {
    hide Deduped, Received, Unseen;
    var p := Received(b58, a + o);
    ReceivedAppend(b58, a, o);
    ReceivedAppend(b58, o, t);
    ReceivedAppend(b58, a + o, rest);
    ReceivedAppend(b58, a + o, t);
    DedupedAppend(p, Received(b58, rest));
    DedupedAppend(p, Received(b58, o + t));
    RepetitionDedups(Received(b58, a), Received(b58, o), Received(b58, t));
  }

  /** The `i`-th of all announcements is retained and not before `since`. */
  predicate InReach(slots: seq<nat>, cap: nat, since: Option<nat>, i: nat)
    requires i < |slots|
  {
    |slots| <= i + cap && (since.None? || slots[i] >= since.value)
  }

  /**
    A recipient who reads a chain log through the indexer is left with the deduplicated log
    from some note on: from the first that is retained and not before `since`, which is the
    whole log if nothing was evicted and no start was given.
   */
  lemma IndexedLogDedups(
      b58: Base58, slots: seq<nat>, log: seq<Note>, cap: nat, since: Option<nat>, limit: nat, rounds: nat)
    returns (k: nat)
    requires Inverse(b58) && |slots| == |log| && SlotsAscend(Rows(b58, slots, log))
    requires ReadThrough(b58, slots, log, cap, since, limit, rounds).Some?
    ensures k <= |log|
    ensures Deduped(ReadThrough(b58, slots, log, cap, since, limit, rounds).value) == Deduped(log[k..])
    ensures forall i | 0 <= i < |log| :: i >= k <==> InReach(slots, cap, since, i)
  {
    hide Since, Query, Drained, Deduped, Received, Rows, LastN, SlotsAscend;
    var rows := Rows(b58, slots, log);
    var items := LastN(rows, cap);
    WindowInSlotOrder(rows, cap);
    DrainDedups(b58, items, since, limit, rounds);
    var n := PageIs(items, since, limit);
    WindowFrom(rows, cap, n);
    k := |rows| - |items| + n;
    RowsFrom(b58, slots, log, k);
    RowsReadBack(b58, slots[k..], log[k..]);
    forall i | 0 <= i < |log|
      ensures i >= k <==> InReach(slots, cap, since, i)
    {
      RowsFrom(b58, slots, log, i);
      WindowAt(rows, cap, i);
    }
  }

  /** Where the window stands among all rows. */
  lemma WindowFrom(rows: seq<StoredAnnouncement>, cap: nat, n: nat)
    requires n <= |LastN(rows, cap)|
    ensures |LastN(rows, cap)| <= |rows|
    ensures LastN(rows, cap)[n..] == rows[|rows| - |LastN(rows, cap)| + n..]
  {
  }

  lemma WindowAt(rows: seq<StoredAnnouncement>, cap: nat, i: nat)
    requires i < |rows|
    ensures var j := i - (|rows| - |LastN(rows, cap)|);
            (j >= 0 <==> |rows| <= i + cap) && (0 <= j < |LastN(rows, cap)| ==> LastN(rows, cap)[j] == rows[i])
  {
  }

  lemma RowsFrom(b58: Base58, slots: seq<nat>, log: seq<Note>, k: nat)
    requires |slots| == |log| && k <= |log|
    ensures Rows(b58, slots, log)[k..] == Rows(b58, slots[k..], log[k..])
    ensures k < |log| ==> Rows(b58, slots, log)[k].slot == slots[k]
  {
  }
}
