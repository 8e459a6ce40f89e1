/** Recipient-side deduplication of announcements by their ephemeral key `R` (section 5.8.2 of sRFC-0042). */
module Dedup {
  import opened Bytes
  import opened Wire

  predicate SeenIn(notes: seq<Note>, r: Bytes32) {
    exists i :: 0 <= i < |notes| && notes[i].ephemeralPub == r
  }

  /** How many of `notes` carry `r`. */
  function Count(notes: seq<Note>, r: Bytes32): nat {
    if notes == [] then 0
    else (if notes[0].ephemeralPub == r then 1 else 0) + Count(notes[1..], r)
  }

  /** Each note is kept when its `R` did not occur before it. */
  function Deduped(notes: seq<Note>): seq<Note> {
    if notes == [] then []
    else
      var before, last := notes[..|notes| - 1], notes[|notes| - 1];
      if SeenIn(before, last.ephemeralPub) then Deduped(before) else Deduped(before) + [last]
  }

  method DedupByEphemeralPub(announcements: seq<Note>) returns (out: seq<Note>)
    ensures out == Deduped(announcements)
  {
    var seen: set<Bytes32> := {};
    out := [];
    for i := 0 to |announcements|
      invariant forall r: Bytes32 :: r in seen <==> SeenIn(announcements[..i], r)
      invariant out == Deduped(announcements[..i])
    {
      var a := announcements[i];
      assert announcements[..i + 1] == announcements[..i] + [a];
      SeenSnoc(announcements[..i], a);
      assert announcements[..i + 1][..i] == announcements[..i];
      if a.ephemeralPub !in seen {
        seen := seen + {a.ephemeralPub};
        out := out + [a];
      }
    }
    assert announcements[..|announcements|] == announcements;
  }

  lemma SeenSnoc(notes: seq<Note>, n: Note)
    ensures forall r: Bytes32 :: SeenIn(notes + [n], r) <==> SeenIn(notes, r) || r == n.ephemeralPub
  {
    forall r: Bytes32
      ensures SeenIn(notes + [n], r) <==> SeenIn(notes, r) || r == n.ephemeralPub
    {
      SeenAppend(notes, [n], r);
      assert [n][0] == n;
    }
  }

  lemma SeenAppend(a: seq<Note>, b: seq<Note>, r: Bytes32)
    ensures SeenIn(a + b, r) <==> SeenIn(a, r) || SeenIn(b, r)
  {
    if SeenIn(a, r) {
      var i :| 0 <= i < |a| && a[i].ephemeralPub == r;
      assert (a + b)[i].ephemeralPub == r;
    }
    if SeenIn(b, r) {
      var i :| 0 <= i < |b| && b[i].ephemeralPub == r;
      assert (a + b)[|a| + i].ephemeralPub == r;
    }
  }

  lemma {:induction false} CountAppend(a: seq<Note>, b: seq<Note>, r: Bytes32)
    ensures Count(a + b, r) == Count(a, r) + Count(b, r)
  {
    if a == [] {
      assert a + b == b;
    } else {
      CountAppend(a[1..], b, r);
      assert (a + b)[1..] == a[1..] + b;
    }
  }

  lemma {:induction false} CountIsSeen(notes: seq<Note>, r: Bytes32)
    ensures Count(notes, r) > 0 <==> SeenIn(notes, r)
  {
    if notes != [] {
      CountIsSeen(notes[1..], r);
      SeenAppend([notes[0]], notes[1..], r);
      assert notes == [notes[0]] + notes[1..];
      assert [notes[0]][0] == notes[0];
    }
  }

  /** Position of the first note carrying `r`. */
  function FirstIndex(notes: seq<Note>, r: Bytes32): (i: nat)
    requires SeenIn(notes, r)
    ensures i < |notes| && notes[i].ephemeralPub == r
    ensures forall j | 0 <= j < i :: notes[j].ephemeralPub != r
  {
    if notes[0].ephemeralPub == r then 0
    else
      assert SeenIn(notes[1..], r) by {
        var k :| 0 <= k < |notes| && notes[k].ephemeralPub == r;
        assert notes[1..][k - 1] == notes[k];
      }
      1 + FirstIndex(notes[1..], r)
  }

  /** `n` is the first note of `notes` with its key. */
  predicate IsFirst(notes: seq<Note>, n: Note) {
    SeenIn(notes, n.ephemeralPub) && notes[FirstIndex(notes, n.ephemeralPub)] == n
  }

  lemma FirstIndexAppend(a: seq<Note>, b: seq<Note>, r: Bytes32)
    requires SeenIn(a, r)
    ensures SeenIn(a + b, r) && FirstIndex(a + b, r) == FirstIndex(a, r)
  {
    SeenAppend(a, b, r);
    var i, j := FirstIndex(a, r), FirstIndex(a + b, r);
    assert (a + b)[i] == a[i];
    assert j < |a| ==> (a + b)[j] == a[j];
  }

  lemma FirstIndexSnoc(before: seq<Note>, last: Note, r: Bytes32)
    requires SeenIn(before + [last], r)
    ensures FirstIndex(before + [last], r) == if SeenIn(before, r) then FirstIndex(before, r) else |before|
  {
    if SeenIn(before, r) {
      FirstIndexAppend(before, [last], r);
    } else {
      var i := FirstIndex(before + [last], r);
      assert forall k | 0 <= k < |before| :: (before + [last])[k] == before[k];
    }
  }

  /** The survivors are exactly the first occurrences. */
  lemma {:induction false} DedupedAreFirst(notes: seq<Note>, n: Note)
    ensures n in Deduped(notes) <==> IsFirst(notes, n)
  {
    if notes != [] {
      var before, last := notes[..|notes| - 1], notes[|notes| - 1];
      assert notes == before + [last];
      DedupedAreFirst(before, n);
      SeenSnoc(before, last);
      if SeenIn(notes, n.ephemeralPub) {
        FirstIndexSnoc(before, last, n.ephemeralPub);
      }
    }
  }

  /** They come in the order in which their keys were first seen. */
  lemma {:induction false} DedupedInOrder(notes: seq<Note>, i: nat, j: nat)
    requires i < j < |Deduped(notes)|
    ensures var d := Deduped(notes);
            IsFirst(notes, d[i]) && IsFirst(notes, d[j]) &&
            FirstIndex(notes, d[i].ephemeralPub) < FirstIndex(notes, d[j].ephemeralPub)
  {
    var before, last := notes[..|notes| - 1], notes[|notes| - 1];
    assert notes == before + [last];
    var d := Deduped(notes);
    DedupedAreFirst(notes, d[i]);
    DedupedAreFirst(notes, d[j]);
    DedupedAreFirst(before, d[i]);
    FirstIndexSnoc(before, last, d[i].ephemeralPub);
    FirstIndexSnoc(before, last, d[j].ephemeralPub);
    if j < |Deduped(before)| {
      DedupedInOrder(before, i, j);
    }
  }

  /** Every key seen survives exactly once. */
  lemma {:induction false} DedupedOncePerKey(notes: seq<Note>, r: Bytes32)
    ensures Count(Deduped(notes), r) == if SeenIn(notes, r) then 1 else 0
  {
    if notes != [] {
      var before, last := notes[..|notes| - 1], notes[|notes| - 1];
      assert notes == before + [last];
      DedupedOncePerKey(before, r);
      SeenSnoc(before, last);
      CountAppend(Deduped(before), [last], r);
      assert [last][1..] == [];
    }
  }

  /** The notes of `notes` whose key does not occur in `seen`. */
  function Unseen(notes: seq<Note>, seen: seq<Note>): seq<Note> {
    if notes == [] then []
    else (if SeenIn(seen, notes[0].ephemeralPub) then [] else [notes[0]]) + Unseen(notes[1..], seen)
  }

  lemma {:induction false} UnseenSnoc(notes: seq<Note>, n: Note, seen: seq<Note>)
    ensures Unseen(notes + [n], seen) ==
            Unseen(notes, seen) + if SeenIn(seen, n.ephemeralPub) then [] else [n]
  {
    if notes == [] {
      assert [n][1..] == [];
      assert notes + [n] == [n];
    } else {
      UnseenSnoc(notes[1..], n, seen);
      assert (notes + [n])[1..] == notes[1..] + [n];
    }
  }

  /** Deduplicating a stream piece by piece agrees with deduplicating it at once. */
  lemma {:induction false} DedupedAppend(a: seq<Note>, b: seq<Note>)
    ensures Deduped(a + b) == Deduped(a) + Unseen(Deduped(b), a)
  {
    if b == [] {
      assert a + b == a;
    } else {
      var before, last := b[..|b| - 1], b[|b| - 1];
      DedupedAppend(a, before);
      assert (a + b)[..|a + b| - 1] == a + before && (a + b)[|a + b| - 1] == last;
      SeenAppend(a, before, last.ephemeralPub);
      UnseenSnoc(Deduped(before), last, a);
    }
  }

  /** Deduplicating twice changes nothing. */
  lemma {:induction false} DedupedIdempotent(notes: seq<Note>)
    ensures Deduped(Deduped(notes)) == Deduped(notes)
  {
    if notes != [] {
      var before, last := notes[..|notes| - 1], notes[|notes| - 1];
      DedupedIdempotent(before);
      DedupedOncePerKey(before, last.ephemeralPub);
      CountIsSeen(Deduped(before), last.ephemeralPub);
      var d := Deduped(before) + [last];
      assert d[..|d| - 1] == Deduped(before);
    }
  }
}
