/**
 * The stored leaderboard: a list of finished games, each a shot count and
 * an opaque timestamp. At game over the new entry is appended, the list is
 * sorted by ascending score with a stable sort (the comparator subtracts
 * the scores), and only the first 50 entries are kept (game.js, lines
 * 282-286).
 */
module Leaderboard {
  const Capacity: nat := 50

  /** One finished game: its shot count and when it ended (kept opaque). */
  datatype Entry = Entry(score: int, at: string)

  predicate Sorted(s: seq<Entry>) {
    forall i, j :: 0 <= i < j < |s| ==> s[i].score <= s[j].score
  }

  /** Every entry scores at least b. */
  predicate AllAtLeast(s: seq<Entry>, b: int) {
    forall k :: 0 <= k < |s| ==> b <= s[k].score
  }

  /** Every entry scores at most b. */
  predicate AllAtMost(s: seq<Entry>, b: int) {
    forall k :: 0 <= k < |s| ==> s[k].score <= b
  }

  /** Put e just before the first entry that scores strictly more than it. */
  function Insert(s: seq<Entry>, e: Entry): (r: seq<Entry>)
    ensures multiset(r) == multiset(s) + multiset{e}
    ensures |r| == |s| + 1
  {
    if |s| == 0 then [e]
    else if e.score < s[0].score then [e] + s
    else
      assert s == [s[0]] + s[1..];
      [s[0]] + Insert(s[1..], e)
  }

  lemma {:induction false} InsertAtLeast(s: seq<Entry>, e: Entry, b: int)
    requires AllAtLeast(s, b) && b <= e.score
    ensures AllAtLeast(Insert(s, e), b)
  {
    if |s| > 0 && s[0].score <= e.score {
      InsertAtLeast(s[1..], e, b);
    }
  }

  /** Inserting into a sorted list keeps it sorted. */
  lemma {:induction false} InsertSorted(s: seq<Entry>, e: Entry)
    requires Sorted(s)
    ensures Sorted(Insert(s, e))
  {
    if |s| > 0 && s[0].score <= e.score {
      InsertSorted(s[1..], e);
      InsertAtLeast(s[1..], e, s[0].score);
    }
  }

  /** An entry that scores at least as much as every other goes last. */
  lemma {:induction false} InsertLast(s: seq<Entry>, e: Entry)
    requires AllAtMost(s, e.score)
    ensures Insert(s, e) == s + [e]
  {
    if |s| > 0 {
      InsertLast(s[1..], e);
    }
  }

  /** A stable sort by ascending score: insertion sort, one entry at a time from the front. */
  function SortByScore(s: seq<Entry>): (r: seq<Entry>)
    ensures multiset(r) == multiset(s)
    ensures |r| == |s|
  {
    if |s| == 0 then []
    else
      assert s == s[..|s| - 1] + [s[|s| - 1]];
      Insert(SortByScore(s[..|s| - 1]), s[|s| - 1])
  }

  /** The sort's result is sorted. */
  lemma {:induction false} SortIsSorted(s: seq<Entry>)
    ensures Sorted(SortByScore(s))
  {
    if |s| > 0 {
      SortIsSorted(s[..|s| - 1]);
      InsertSorted(SortByScore(s[..|s| - 1]), s[|s| - 1]);
    }
  }

  /** slice(0, n). */
  function Take(s: seq<Entry>, n: nat): seq<Entry>
  {
    if |s| <= n then s else s[..n]
  }

  /** What the stored leaderboard becomes when a game ends with entry e. */
  function Record(lb: seq<Entry>, e: Entry): seq<Entry>
  {
    Take(SortByScore(lb + [e]), Capacity)
  }

  /** The new list is sorted, holds min(|lb| + 1, 50) entries, and each came from lb or is e. */
  lemma RecordShape(lb: seq<Entry>, e: Entry)
    ensures var r := Record(lb, e);
      && Sorted(r)
      && |r| == (if |lb| + 1 <= Capacity then |lb| + 1 else Capacity)
      && multiset(r) <= multiset(lb) + multiset{e}
  {
    var all := SortByScore(lb + [e]);
    var r := Record(lb, e);
    SortIsSorted(lb + [e]);
    if |all| > Capacity {
      assert all == r + all[Capacity..];
      assert multiset(all) == multiset(r) + multiset(all[Capacity..]);
    }
  }

  /** In a sorted list, every entry of a prefix scores at most every entry after it. */
  lemma PrefixKeepsBest(all: seq<Entry>, n: nat)
    requires Sorted(all) && n <= |all|
    ensures forall x, y :: x in all[..n] && y in multiset(all) - multiset(all[..n]) ==> x.score <= y.score
  {
    assert all == all[..n] + all[n..];
    assert multiset(all) - multiset(all[..n]) == multiset(all[n..]);
    forall x, y | x in all[..n] && y in multiset(all) - multiset(all[..n])
      ensures x.score <= y.score
    {
      assert y in all[n..];
    }
  }

  /**
   * Only the worst entries are dropped: the new list is a prefix of the
   * sorted list, and every kept entry scores at most every entry of lb and
   * e that was dropped.
   */
  lemma RecordKeepsBest(lb: seq<Entry>, e: Entry)
    ensures var all, r := SortByScore(lb + [e]), Record(lb, e);
      && r == all[..|r|]
      && forall x, y :: x in r && y in multiset(lb + [e]) - multiset(r) ==> x.score <= y.score
  {
    var all, r := SortByScore(lb + [e]), Record(lb, e);
    SortIsSorted(lb + [e]);
    assert r == all[..|r|];
    PrefixKeepsBest(all, |r|);
  }

  /** While fewer than 50 games are stored, the new game is always kept. */
  lemma RecordKeepsNewEntry(lb: seq<Entry>, e: Entry)
    requires |lb| < Capacity
    ensures e in Record(lb, e)
  {
    var all := SortByScore(lb + [e]);
    assert e in multiset(lb + [e]);
    assert e in multiset(all);
  }

  /** Sorting a sorted list changes nothing. */
  lemma {:induction false} SortSorted(s: seq<Entry>)
    requires Sorted(s)
    ensures SortByScore(s) == s
  {
    if |s| > 0 {
      var n := |s| - 1;
      assert s == s[..n] + [s[n]];
      SortSorted(s[..n]);
      InsertLast(s[..n], s[n]);
    }
  }

  /**
   * When the stored list is already sorted, as every list this game writes
   * is, recording a game is a single insertion.
   */
  lemma {:induction false} RecordSorted(lb: seq<Entry>, e: Entry)
    requires Sorted(lb)
    ensures Record(lb, e) == Take(Insert(lb, e), Capacity)
  {
    SortSorted(lb);
    assert (lb + [e])[..|lb|] == lb;
  }
}
