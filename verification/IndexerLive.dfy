/** The paging client on a store that inserts and evicts between two of its pages. */
module IndexerLive {
  import opened Results
  import opened Sequences
  import opened Indexer

  /** What has been inserted by the time of each page. */
  ghost predicate Feeds(feeds: seq<seq<StoredAnnouncement>>) {
    && (forall k | 0 <= k < |feeds| :: SlotsAscend(feeds[k]))
    && forall j, k | 0 <= j < k < |feeds| :: feeds[j] <= feeds[k]
  }

  /** A finished drain: everything fetched, and what had been inserted by its last page. */
  datatype LiveResult = LiveResult(fetched: seq<StoredAnnouncement>, inserted: seq<StoredAnnouncement>)

  /** The paging client on a store that inserts and evicts between pages; `None` if no page came back short. */
  function LiveDrained(feeds: seq<seq<StoredAnnouncement>>, cap: nat, since: Option<nat>, limit: nat)
      : Option<LiveResult> {
    if feeds == [] then None
    else
      var page := Query(LastN(feeds[0], cap), since, limit);
      if |page| < limit then Some(LiveResult(page, feeds[0]))
      else
        match LiveDrained(feeds[1..], cap, NextSince(page, since), limit)
        case None => None
        case Some(rest) => Some(LiveResult(page + rest.fetched, rest.inserted))
  }

  /** An announcement before the next page's slot that the store keeps was on this page. */
  lemma PassedWasFetched(
      before: seq<StoredAnnouncement>, after: seq<StoredAnnouncement>, cap: nat, since: Option<nat>, limit: nat,
      a: StoredAnnouncement)
    requires SlotsAscend(before) && SlotsAscend(after) && before <= after
    requires |Query(LastN(before, cap), since, limit)| >= limit
    requires a in LastN(after, cap) && (since.None? || a.slot >= since.value)
    ensures var page := Query(LastN(before, cap), since, limit);
            var next := NextSince(page, since);
            a in page || next.None? || a.slot >= next.value
  {
    hide Since, Query, SlotsAscend, LastN;
    var items := LastN(before, cap);
    var page := Query(items, since, limit);
    WindowInSlotOrder(before, cap);
    var n := PageIs(items, since, limit);
    if page != [] && a.slot < page[|page| - 1].slot {
      var i := PositionIn(after, cap, a);
      assert page == items[n..n + limit];
      var k := PlaceInWindow(before, after, cap, n + limit - 1, i);
      assert page[k - n] == a;
    }
  }

  /** An announcement earlier than one in the window, and not yet evicted, was in the window before it. */
  lemma PlaceInWindow(before: seq<StoredAnnouncement>, after: seq<StoredAnnouncement>, cap: nat, last: nat, i: nat)
    returns (k: nat)
    requires SlotsAscend(after) && before <= after && last < |LastN(before, cap)|
    requires i < |after| <= i + cap && after[i].slot < LastN(before, cap)[last].slot
    ensures k < last && LastN(before, cap)[k] == after[i]
  {
    var dropped := |before| - |LastN(before, cap)|;
    assert LastN(before, cap)[last] == before[dropped + last] == after[dropped + last];
    if i >= dropped + last {
      InOrder(after, dropped + last, i);
    }
    k := i - dropped;
    assert LastN(before, cap)[k] == before[i];
  }

  lemma PositionIn(s: seq<StoredAnnouncement>, cap: nat, a: StoredAnnouncement) returns (i: nat)
    requires a in LastN(s, cap)
    ensures i < |s| <= i + cap && s[i] == a
  {
    var w := LastN(s, cap);
    var k :| 0 <= k < |w| && w[k] == a;
    i := |s| - |w| + k;
  }

  lemma {:induction false} LiveDrainUpTo(feeds: seq<seq<StoredAnnouncement>>, cap: nat, since: Option<nat>, limit: nat)
    requires Feeds(feeds) && LiveDrained(feeds, cap, since, limit).Some?
    ensures var result := LiveDrained(feeds, cap, since, limit).value;
            result.inserted in feeds && SlotsAscend(result.inserted) && feeds[0] <= result.inserted
  {
    hide SlotsAscend, Query;
    if |Query(LastN(feeds[0], cap), since, limit)| >= limit {
      LiveDrainUpTo(feeds[1..], cap, NextSince(Query(LastN(feeds[0], cap), since, limit), since), limit);
    }
  }

  /**
    While the store inserts and evicts between pages: a drain that ends has fetched everything
    from its start on that the store then retains, inserted meanwhile or not, and nothing that
    was never inserted or lies before its start.
   */
  lemma {:induction false} LiveDrainCovers(
      feeds: seq<seq<StoredAnnouncement>>, cap: nat, since: Option<nat>, limit: nat, a: StoredAnnouncement)
    requires Feeds(feeds) && LiveDrained(feeds, cap, since, limit).Some?
    ensures var result := LiveDrained(feeds, cap, since, limit).value;
            && (a in LastN(result.inserted, cap) && (since.None? || a.slot >= since.value) ==> a in result.fetched)
            && (a in result.fetched ==> a in result.inserted && (since.None? || a.slot >= since.value))
  {
    hide Since, Query, SlotsAscend;
    var items := LastN(feeds[0], cap);
    var page := Query(items, since, limit);
    PageMembers(feeds[0], cap, since, limit, a);
    if |page| >= limit {
      var next := NextSince(page, since);
      LiveDrainCovers(feeds[1..], cap, next, limit, a);
      LiveDrainUpTo(feeds[1..], cap, next, limit);
      var rest := LiveDrained(feeds[1..], cap, next, limit).value;
      assert feeds[0] <= rest.inserted;
      if a in LastN(rest.inserted, cap) && (since.None? || a.slot >= since.value) {
        PassedWasFetched(feeds[0], rest.inserted, cap, since, limit, a);
      }
      assert page != [] ==> page[|page| - 1] in page;
    }
  }

  lemma PageMembers(inserted: seq<StoredAnnouncement>, cap: nat, since: Option<nat>, limit: nat, a: StoredAnnouncement)
    requires SlotsAscend(inserted)
    ensures var page := Query(LastN(inserted, cap), since, limit);
            && (a in page ==> a in inserted)
            && (forall b | b in page :: since.None? || b.slot >= since.value)
            && (|page| < limit && a in LastN(inserted, cap) && (since.None? || a.slot >= since.value) ==> a in page)
  {
    hide SlotsAscend;
    var items := LastN(inserted, cap);
    forall b
      ensures b in Since(items, since) <==> b in items && (since.None? || b.slot >= since.value)
    {
      SinceMembers(items, since, b);
    }
    hide Since;
    assert forall b | b in Query(items, since, limit) :: b in Since(items, since);
    assert a in items ==> a in inserted;
  }

  // ---- When it ends ----

  /** Crowding in what is retained is crowding in what was inserted. */
  lemma RetainedCrowding(
      before: seq<StoredAnnouncement>, last: seq<StoredAnnouncement>, cap: nat, since: Option<nat>, limit: nat, i: nat)
    requires before <= last && CrowdedAt(LastN(before, cap), since, limit, i)
    ensures CrowdedAt(last, since, limit, |before| - |LastN(before, cap)| + i)
  {
    var items := LastN(before, cap);
    var dropped := |before| - |items|;
    assert items[i] == before[dropped + i] == last[dropped + i];
    assert items[i + limit - 1] == before[dropped + i + limit - 1] == last[dropped + i + limit - 1];
  }

  /** A full page moves on by at least one announcement, unless a slot from `since` on is crowded. */
  lemma FullPageMovesOn(
      before: seq<StoredAnnouncement>, last: seq<StoredAnnouncement>, cap: nat, since: Option<nat>, limit: nat)
    requires SlotsAscend(last) && before <= last && !Crowded(last, since, limit)
    requires |Query(LastN(before, cap), since, limit)| >= limit
    ensures var next := NextSince(Query(LastN(before, cap), since, limit), since);
            |Since(last, next)| < |Since(last, since)| && !Crowded(last, next, limit)
  {
    hide Since, Query, CrowdedAt;
    var items := LastN(before, cap);
    BeforeInOrder(before, last);
    WindowInSlotOrder(before, cap);
    var first := PageIs(items, since, limit);
    var n, m := FullPage(items, since, limit);
    var next := items[n + limit - 1].slot;
    if CrowdedAt(items, since, limit, n) {
      RetainedCrowding(before, last, cap, since, limit, n);
    }
    StretchMovesOn(before, last, cap, since, limit, n);
    NotCrowdedLater(last, since, next, limit);
  }

  lemma BeforeInOrder(before: seq<StoredAnnouncement>, last: seq<StoredAnnouncement>)
    requires SlotsAscend(last) && before <= last
    ensures SlotsAscend(before)
  {
  }

  lemma StretchMovesOn(
      before: seq<StoredAnnouncement>, last: seq<StoredAnnouncement>, cap: nat, since: Option<nat>, limit: nat, n: nat)
    requires SlotsAscend(last) && before <= last && 0 < limit && n + limit <= |LastN(before, cap)|
    requires since.None? || LastN(before, cap)[n].slot >= since.value
    requires !CrowdedAt(LastN(before, cap), since, limit, n)
    ensures var next := LastN(before, cap)[n + limit - 1].slot;
            |Since(last, Some(next))| < |Since(last, since)| && (since.None? || next >= since.value)
  {
    hide Since;
    var items := LastN(before, cap);
    var next := items[n + limit - 1].slot;
    var p := |before| - |items| + n;
    assert last[p] == before[p] == items[n] && last[p + limit - 1] == before[p + limit - 1] == items[n + limit - 1];
    InOrder(last, p, p + limit - 1);
    assert last[p].slot < next;
    hide SlotsAscend, LastN, CrowdedAt;
    var j := PageIs(last, since, 0);
    var k := PageIs(last, Some(next), 0);
    assert j <= p < k;
  }

  lemma NotCrowdedLater(items: seq<StoredAnnouncement>, since: Option<nat>, next: nat, limit: nat)
    requires !Crowded(items, since, limit) && (since.None? || next >= since.value)
    ensures !Crowded(items, Some(next), limit)
  {
    if Crowded(items, Some(next), limit) {
      var i :| 0 <= i && CrowdedAt(items, Some(next), limit, i);
      assert CrowdedAt(items, since, limit, i);
    }
  }

  /**
    The client ends, however the store changes meanwhile, if no slot from its start on is
    crowded in all that was inserted: it needs at most one page more than there are
    announcements from its start on.
   */
  lemma {:induction false} LiveDrainEnds(
      feeds: seq<seq<StoredAnnouncement>>, last: seq<StoredAnnouncement>, cap: nat, since: Option<nat>, limit: nat)
    requires SlotsAscend(last) && !Crowded(last, since, limit)
    requires (forall k | 0 <= k < |feeds| :: feeds[k] <= last) && |feeds| > |Since(last, since)|
    ensures LiveDrained(feeds, cap, since, limit).Some?
  {
    hide Since, Query, SlotsAscend, Crowded, NextSince, LastN;
    var page := Query(LastN(feeds[0], cap), since, limit);
    if |page| >= limit {
      FullPageMovesOn(feeds[0], last, cap, since, limit);
      LiveDrainEnds(feeds[1..], last, cap, NextSince(page, since), limit);
    }
  }

  /**
    And it never ends while a crowded slot from its start on, here the one at `p`, stays in the
    store: then every page is full, for any number of pages.
   */
  lemma {:induction false} LiveDrainStuck(
      feeds: seq<seq<StoredAnnouncement>>, cap: nat, since: Option<nat>, limit: nat, p: nat)
    requires Feeds(feeds)
    requires forall k | 0 <= k < |feeds| :: CrowdedAt(feeds[k], since, limit, p) && |feeds[k]| <= p + cap
    ensures LiveDrained(feeds, cap, since, limit).None?
  {
    hide Query, NextSince, SlotsAscend;
    if feeds != [] {
      var items := LastN(feeds[0], cap);
      var i := p - (|feeds[0]| - |items|);
      WindowInSlotOrder(feeds[0], cap);
      assert items[i] == feeds[0][p] && items[i + limit - 1] == feeds[0][p + limit - 1];
      CrowdedStaysAhead(items, since, limit, i);
      var next := NextSince(Query(items, since, limit), since);
      forall k | 0 <= k < |feeds[1..]|
        ensures CrowdedAt(feeds[1..][k], next, limit, p) && |feeds[1..][k]| <= p + cap
      {
        assert feeds[0] <= feeds[k + 1] == feeds[1..][k];
      }
      LiveDrainStuck(feeds[1..], cap, next, limit, p);
    }
  }
}
