/**
  The indexer's bounded announcement store, and the paging client described for it in
  `docs/srfc/design/indexer-service.md`. `limit` is the limit the service has resolved, until
  the last section.
 */
module Indexer {
  import opened Results
  import opened Bytes
  import opened Wire
  import opened Sequences

  datatype StoredAnnouncement = StoredAnnouncement(
    slot: nat, schemeId: U16, ephemeralPub: string, viewTag: Byte, metadata: string)

  /** `from_note`; `b58` is the base58 encoder. */
  function FromNote(b58: seq<Byte> -> string, slot: nat, note: Note): StoredAnnouncement {
    StoredAnnouncement(slot, note.schemeId, b58(note.ephemeralPub), note.viewTag, b58(note.metadata))
  }

  /** The retained announcements with `slot >= since`, oldest first. */
  function Since(items: seq<StoredAnnouncement>, since: Option<nat>): seq<StoredAnnouncement> {
    if items == [] then []
    else
      (if since.None? || items[0].slot >= since.value then [items[0]] else []) + Since(items[1..], since)
  }

  /** `query`: the first `limit` of them. */
  function Query(items: seq<StoredAnnouncement>, since: Option<nat>, limit: nat): seq<StoredAnnouncement> {
    var found := Since(items, since);
    if |found| <= limit then found else found[..limit]
  }

  class AnnouncementStore {
    var items: seq<StoredAnnouncement>
    const cap: nat
    var dropped: nat
    /** Everything ever inserted, in order. */
    ghost var inserted: seq<StoredAnnouncement>

    /** The window is the most recent `cap` insertions, and every other one is counted as dropped. */
    ghost predicate Valid()
      reads this
    {
      cap >= 1 && items == LastN(inserted, cap) && dropped + |items| == |inserted|
    }

    constructor WithCap(cap: nat)
      ensures Valid() && inserted == [] && this.cap == if cap < 1 then 1 else cap
    {
      this.items := [];
      this.cap := if cap < 1 then 1 else cap;
      this.dropped := 0;
      this.inserted := [];
    }

    method Insert(b58: seq<Byte> -> string, slot: nat, note: Note)
      requires Valid()
      modifies this
      ensures Valid() && inserted == old(inserted) + [FromNote(b58, slot, note)]
    {
      var a := FromNote(b58, slot, note);
      items := items + [a];
      inserted := inserted + [a];
      ghost var all, before := items, dropped;
      while |items| > cap
        invariant inserted == old(inserted) + [a]
        invariant (items == all && dropped == before) ||
                  (|all| == cap + 1 && items == all[1..] && dropped == before + 1)
      {
        items := items[1..];
        dropped := dropped + 1;
      }
      WindowSnoc(old(inserted), a, cap);
    }

    /** `query`: of all that was ever inserted, only the last `cap` are looked at. */
    method QueryStored(since: Option<nat>, limit: nat) returns (page: seq<StoredAnnouncement>)
      requires Valid()
      ensures page == Query(LastN(inserted, cap), since, limit)
    {
      page := Query(items, since, limit);
    }

    /** `len`, which together with `dropped` makes up all insertions. */
    function Len(): (n: nat)
      reads this
      requires Valid()
      ensures n + dropped == |inserted| && n <= cap
      ensures dropped > 0 ==> n == cap
    {
      |items|
    }
  }

  /** The window after one more insertion. */
  lemma WindowSnoc(inserted: seq<StoredAnnouncement>, a: StoredAnnouncement, cap: nat)
    ensures var all := LastN(inserted, cap) + [a];
            LastN(inserted + [a], cap) == if |all| == cap + 1 then all[1..] else all
    ensures |LastN(inserted, cap)| <= cap
  {
  }

  // ---- Slot order ----

  ghost predicate SlotsAscend(items: seq<StoredAnnouncement>) {
    forall i, j | 0 <= i < j < |items| :: items[i].slot <= items[j].slot
  }

  /** A feed in slot order leaves a window in slot order. */
  lemma WindowInSlotOrder(inserted: seq<StoredAnnouncement>, cap: nat)
    requires SlotsAscend(inserted)
    ensures SlotsAscend(LastN(inserted, cap))
  {
  }

  /** In slot order, `since` selects a suffix. */
  lemma {:induction false} SinceIsSuffix(items: seq<StoredAnnouncement>, since: Option<nat>) returns (n: nat)
    requires SlotsAscend(items)
    ensures n <= |items| && Since(items, since) == items[n..]
    ensures forall i | 0 <= i < |items| :: i < n <==> since.Some? && items[i].slot < since.value
  {
    if items == [] {
      n := 0;
    } else if since.None? || items[0].slot >= since.value {
      n := 0;
      SinceAll(items, since);
    } else {
      var m := SinceIsSuffix(items[1..], since);
      n := m + 1;
      assert items[n..] == items[1..][m..];
      forall i | 0 <= i < |items|
        ensures i < n <==> since.Some? && items[i].slot < since.value
      {
        assert i > 0 ==> items[i] == items[1..][i - 1];
      }
    }
  }

  lemma {:induction false} SinceAll(items: seq<StoredAnnouncement>, since: Option<nat>)
    requires forall i | 0 <= i < |items| :: since.None? || items[i].slot >= since.value
    ensures Since(items, since) == items
  {
    if items != [] {
      SinceAll(items[1..], since);
      assert items == [items[0]] + items[1..];
    }
  }

  lemma {:induction false} SinceMembers(items: seq<StoredAnnouncement>, since: Option<nat>, a: StoredAnnouncement)
    ensures a in Since(items, since) <==> a in items && (since.None? || a.slot >= since.value)
  {
    if items != [] {
      SinceMembers(items[1..], since, a);
      assert items == [items[0]] + items[1..];
    }
  }

  // ---- The paging client ----

  const DEFAULT_LIMIT: nat := 1000
  const MAX_LIMIT: nat := 10_000

  /** What `get_announcements` makes of the limit asked for. */
  function Resolved(asked: Option<nat>): (limit: nat)
    ensures limit <= 10_000
    ensures asked.None? ==> limit == 1000
    ensures asked.Some? && asked.value <= 10_000 ==> limit == asked.value
  {
    var limit := if asked.Some? then asked.value else DEFAULT_LIMIT;
    if limit < MAX_LIMIT then limit else MAX_LIMIT
  }

  /** Where the next page starts: the last slot returned. */
  function NextSince(page: seq<StoredAnnouncement>, since: Option<nat>): Option<nat> {
    if page == [] then since else Some(page[|page| - 1].slot)
  }

  /** Everything fetched until a page comes back short; `None` if `rounds` pages do not suffice. */
  function Drained(items: seq<StoredAnnouncement>, since: Option<nat>, limit: nat, rounds: nat)
      : Option<seq<StoredAnnouncement>>
    decreases rounds
  {
    if rounds == 0 then None
    else
      var page := Query(items, since, limit);
      if |page| < limit then Some(page)
      else
        match Drained(items, NextSince(page, since), limit, rounds - 1)
        case None => None
        case Some(rest) => Some(page + rest)
  }

  /** Some slot from `since` on holds at least a whole page of retained announcements. */
  ghost predicate Crowded(items: seq<StoredAnnouncement>, since: Option<nat>, limit: nat) {
    limit == 0 ||
    exists i :: 0 <= i && CrowdedAt(items, since, limit, i)
  }

  /** The `limit` announcements starting at `i` share one slot. */
  predicate CrowdedAt(items: seq<StoredAnnouncement>, since: Option<nat>, limit: nat, i: nat) {
    0 < limit && i + limit <= |items| && items[i].slot == items[i + limit - 1].slot &&
    (since.None? || items[i].slot >= since.value)
  }

  /** A page is a stretch of the store, from the first announcement not before `since`. */
  lemma PageIs(items: seq<StoredAnnouncement>, since: Option<nat>, limit: nat) returns (n: nat)
    requires SlotsAscend(items)
    ensures n <= |items| && Since(items, since) == items[n..]
    ensures forall i | 0 <= i < |items| :: i < n <==> since.Some? && items[i].slot < since.value
    ensures Query(items, since, limit) == if |items| - n <= limit then items[n..] else items[n..n + limit]
  {
    n := SinceIsSuffix(items, since);
  }

  /** After a full page of `limit > 0`, the next one starts at the first announcement of its last slot. */
  lemma FullPage(items: seq<StoredAnnouncement>, since: Option<nat>, limit: nat) returns (n: nat, m: nat)
    requires SlotsAscend(items) && 0 < limit == |Query(items, since, limit)|
    ensures n <= m < n + limit <= |items| && Query(items, since, limit) == items[n..n + limit]
    ensures NextSince(Query(items, since, limit), since) == Some(items[n + limit - 1].slot)
    ensures Since(items, since) == items[n..] && Since(items, Some(items[n + limit - 1].slot)) == items[m..]
    ensures forall i | 0 <= i < |items| :: i < n <==> since.Some? && items[i].slot < since.value
    ensures forall i | 0 <= i < |items| :: i < m <==> items[i].slot < items[n + limit - 1].slot
  {
    hide Since;
    n := PageIs(items, since, limit);
    var page, last := Query(items, since, limit), n + limit - 1;
    assert page == items[n..n + limit] && page[limit - 1] == items[last];
    m := PageIs(items, Some(items[last].slot), limit);
    assert m <= last;
    assert n > 0 ==> items[n - 1].slot < items[last].slot;
  }

  lemma Stretches(items: seq<StoredAnnouncement>, n: nat, m: nat, e: nat)
    requires n <= m <= e <= |items|
    ensures items[n..e] == items[n..m] + items[m..e]
    ensures items[m..] == items[m..e] + items[e..]
    ensures items[n..] == items[n..m] + items[m..e] + items[e..]
  {
  }

  /** A drain that ends has fetched every retained announcement from `since` on, and nothing else. */
  lemma {:induction false} DrainCovers(items: seq<StoredAnnouncement>, since: Option<nat>, limit: nat, rounds: nat)
    requires SlotsAscend(items) && Drained(items, since, limit, rounds).Some?
    ensures forall a :: a in Drained(items, since, limit, rounds).value <==> a in Since(items, since)
    decreases rounds
  {
    hide Since, Query, SlotsAscend;
    var page := Query(items, since, limit);
    var first := PageIs(items, since, limit);
    if |page| >= limit {
      var next := NextSince(page, since);
      DrainCovers(items, next, limit, rounds - 1);
      if limit > 0 {
        var n, m := FullPage(items, since, limit);
        Stretches(items, n, m, n + limit);
      }
    }
  }

  /** The client gets to the end exactly when no slot from its start on is crowded. */
  lemma DrainEndsExactly(items: seq<StoredAnnouncement>, since: Option<nat>, limit: nat)
    requires SlotsAscend(items)
    ensures (exists rounds :: Drained(items, since, limit, rounds).Some?) <==> !Crowded(items, since, limit)
  {
    if Crowded(items, since, limit) {
      forall rounds: nat
        ensures Drained(items, since, limit, rounds).None?
      {
        CrowdedNeverEnds(items, since, limit, rounds);
      }
    } else {
      UncrowdedEnds(items, since, limit, |Since(items, since)| + 1);
    }
  }

  /** A crowded slot fills every page, and the client never gets past it. */
  lemma CrowdedStaysAhead(items: seq<StoredAnnouncement>, since: Option<nat>, limit: nat, i: nat)
    requires SlotsAscend(items) && CrowdedAt(items, since, limit, i)
    ensures |Query(items, since, limit)| == limit
    ensures CrowdedAt(items, NextSince(Query(items, since, limit), since), limit, i)
  {
    hide Since, Query, SlotsAscend, NextSince;
    var first := PageIs(items, since, limit);
    assert first <= i;
    var n, m := FullPage(items, since, limit);
    InOrder(items, n + limit - 1, i + limit - 1);
  }

  lemma InOrder(items: seq<StoredAnnouncement>, i: nat, j: nat)
    requires SlotsAscend(items) && i <= j < |items|
    ensures items[i].slot <= items[j].slot
  {
  }

  lemma {:induction false} CrowdedNeverEnds(items: seq<StoredAnnouncement>, since: Option<nat>, limit: nat, rounds: nat)
    requires SlotsAscend(items) && Crowded(items, since, limit)
    ensures Drained(items, since, limit, rounds).None?
    decreases rounds
  {
    hide Since, Query, SlotsAscend, CrowdedAt, NextSince;
    if rounds > 0 {
      if limit > 0 {
        var i :| 0 <= i && CrowdedAt(items, since, limit, i);
        CrowdedStaysAhead(items, since, limit, i);
      }
      CrowdedNeverEnds(items, NextSince(Query(items, since, limit), since), limit, rounds - 1);
    }
  }

  lemma {:induction false} UncrowdedEnds(items: seq<StoredAnnouncement>, since: Option<nat>, limit: nat, rounds: nat)
    requires SlotsAscend(items) && !Crowded(items, since, limit) && rounds > |Since(items, since)|
    ensures Drained(items, since, limit, rounds).Some?
    decreases rounds
  {
    hide Since, Query;
    var first := PageIs(items, since, limit);
    if |Query(items, since, limit)| >= limit {
      var n, m := FullPage(items, since, limit);
      var next := NextSince(Query(items, since, limit), since);
      assert !CrowdedAt(items, since, limit, n);
      assert m > n;
      if Crowded(items, next, limit) {
        var i :| 0 <= i && CrowdedAt(items, next, limit, i);
        assert CrowdedAt(items, since, limit, i);
      }
      UncrowdedEnds(items, next, limit, rounds - 1);
    }
  }

  /**
    Draining a store fed in slot order: the client reaches the end if and only if no slot from
    its start on is crowded, and then it has fetched exactly the announcements among the last
    `cap` inserted whose slot is not before the start.
   */
  lemma DrainOfStore(inserted: seq<StoredAnnouncement>, cap: nat, since: Option<nat>, limit: nat)
    requires SlotsAscend(inserted)
    ensures var items := LastN(inserted, cap);
            && ((exists rounds :: Drained(items, since, limit, rounds).Some?) <==> !Crowded(items, since, limit))
            && forall rounds, a | Drained(items, since, limit, rounds).Some? ::
                 a in Drained(items, since, limit, rounds).value <==>
                 a in items && (since.None? || a.slot >= since.value)
  {
    hide Since, Query, Drained, Crowded;
    var items := LastN(inserted, cap);
    WindowInSlotOrder(inserted, cap);
    hide SlotsAscend, LastN;
    DrainEndsExactly(items, since, limit);
    forall rounds, a | Drained(items, since, limit, rounds).Some?
      ensures a in Drained(items, since, limit, rounds).value <==>
              a in items && (since.None? || a.slot >= since.value)
    {
      DrainCovers(items, since, limit, rounds);
      SinceMembers(items, since, a);
    }
  }

  /** Two announcements of one slot stop a client that asks for two at a time. */
  lemma FullSlotNeverEnds(a: StoredAnnouncement, b: StoredAnnouncement, rounds: nat)
    requires a.slot == b.slot
    ensures Drained([a, b], Some(a.slot), 2, rounds).None?
  {
    assert CrowdedAt([a, b], Some(a.slot), 2, 0);
    CrowdedNeverEnds([a, b], Some(a.slot), 2, rounds);
  }

  // ---- The limit the service resolves ----

  /** A client that stops when a page is shorter than the limit it asked for. */
  function AskedDrained(items: seq<StoredAnnouncement>, since: Option<nat>, asked: nat, rounds: nat)
      : Option<seq<StoredAnnouncement>>
    decreases rounds
  {
    if rounds == 0 then None
    else
      var page := Query(items, since, Resolved(Some(asked)));
      if |page| < asked then Some(page)
      else
        match AskedDrained(items, NextSince(page, since), asked, rounds - 1)
        case None => None
        case Some(rest) => Some(page + rest)
  }

  lemma {:induction false} WithinMaximum(
      items: seq<StoredAnnouncement>, since: Option<nat>, asked: nat, rounds: nat)
    requires asked <= MAX_LIMIT
    ensures AskedDrained(items, since, asked, rounds) == Drained(items, since, asked, rounds)
    decreases rounds
  {
    hide Query;
    if rounds > 0 {
      WithinMaximum(items, NextSince(Query(items, since, asked), since), asked, rounds - 1);
    }
  }

  /**
    A client that asks for no more than the service's maximum drains as above. One that asks for
    more takes its first page for the last: it has the whole backlog if and only if that fits
    in one page of the maximum size, and otherwise loses everything after that page.
   */
  lemma AskingTooMuchExactly(items: seq<StoredAnnouncement>, since: Option<nat>, asked: nat, rounds: nat)
    requires rounds > 0
    ensures asked <= MAX_LIMIT ==>
              AskedDrained(items, since, asked, rounds) == Drained(items, since, asked, rounds)
    ensures asked > MAX_LIMIT ==>
              AskedDrained(items, since, asked, rounds) == Some(Query(items, since, MAX_LIMIT))
    ensures asked > MAX_LIMIT ==>
              (AskedDrained(items, since, asked, rounds) == Some(Since(items, since)) <==>
               |Since(items, since)| <= MAX_LIMIT)
  {
    hide Since;
    if asked <= MAX_LIMIT {
      WithinMaximum(items, since, asked, rounds);
    }
  }
}
