/**
 The order in which bookings are listed: by `createdAt`, newest first
 (backend/routes/bookings.js, the `sort({ createdAt: -1 })` of the list
 handler), and the sequence facts the dashboard's list updates rely on.
 */
module Listing {
  import opened Bookings

  /** No booking is followed by a newer one. */
  predicate NewestFirst(s: seq<Booking>) {
    forall i, j :: 0 <= i < j < |s| ==> s[i].createdAt >= s[j].createdAt
  }

  /** `b` placed in front of the first booking that is not newer than it. */
  function Insert(b: Booking, s: seq<Booking>): (r: seq<Booking>)
    ensures |r| == |s| + 1
    ensures multiset(r) == multiset(s) + multiset{b}
    ensures r[0] == b || (s != [] && r[0] == s[0])
  {
    if s == [] || b.createdAt >= s[0].createdAt then
      [b] + s
    else
      assert s == [s[0]] + s[1..];
      [s[0]] + Insert(b, s[1..])
  }

  /**
   The bookings of `s` in newest-first order. Bookings with equal `createdAt`
   keep no promised order among themselves, as in the store's own sort.
   */
  function SortNewestFirst(s: seq<Booking>): (r: seq<Booking>)
    ensures |r| == |s|
    ensures multiset(r) == multiset(s)
    ensures NewestFirst(r)
  {
    if s == [] then []
    else
      assert s == [s[0]] + s[1..];
      InsertKeepsNewestFirst(s[0], SortNewestFirst(s[1..]));
      Insert(s[0], SortNewestFirst(s[1..]))
  }

  /** Dropping the head of a newest-first list keeps it newest first. */
  lemma TailNewestFirst(s: seq<Booking>)
    requires s != [] && NewestFirst(s)
    ensures NewestFirst(s[1..])
  {
    forall i, j | 0 <= i < j < |s| - 1 ensures s[1..][i].createdAt >= s[1..][j].createdAt {
      assert s[1..][i] == s[i + 1] && s[1..][j] == s[j + 1];
    }
  }

  /** No booking of `s` is newer than `t`. */
  predicate NoneNewerThan(s: seq<Booking>, t: Timestamp) {
    forall i :: 0 <= i < |s| ==> s[i].createdAt <= t
  }

  /** A booking no older than anything in a newest-first list may go in front of it. */
  lemma ConsNewestFirst(x: Booking, s: seq<Booking>)
    requires NewestFirst(s) && NoneNewerThan(s, x.createdAt)
    ensures NewestFirst([x] + s)
  {
    var r := [x] + s;
    forall i, j | 0 <= i < j < |r| ensures r[i].createdAt >= r[j].createdAt {
      assert r[j] == s[j - 1];
      if i > 0 {
        assert r[i] == s[i - 1];
      }
    }
  }

  /** Inserting a booking no newer than `t` into a list with none newer than `t` keeps it so. */
  lemma {:induction false} InsertNoneNewer(b: Booking, s: seq<Booking>, t: Timestamp)
    requires NoneNewerThan(s, t) && b.createdAt <= t
    ensures NoneNewerThan(Insert(b, s), t)
    decreases |s|
  {
    var r := Insert(b, s);
    if s == [] || b.createdAt >= s[0].createdAt {
      assert forall k :: 0 < k < |r| ==> r[k] == s[k - 1];
    } else {
      InsertNoneNewer(b, s[1..], t);
      var u := Insert(b, s[1..]);
      assert r == [s[0]] + u;
      assert forall k :: 0 < k < |r| ==> r[k] == u[k - 1];
    }
  }

  /** Inserting into a newest-first list keeps it newest first. */
  lemma {:induction false} InsertKeepsNewestFirst(b: Booking, s: seq<Booking>)
    requires NewestFirst(s)
    ensures NewestFirst(Insert(b, s))
    decreases |s|
  {
    if s == [] || b.createdAt >= s[0].createdAt {
      assert NoneNewerThan(s, b.createdAt) by {
        forall k | 0 < k < |s| ensures s[k].createdAt <= s[0].createdAt {
        }
      }
      assert Insert(b, s) == [b] + s;
      ConsNewestFirst(b, s);
    } else {
      TailNewestFirst(s);
      InsertKeepsNewestFirst(b, s[1..]);
      assert NoneNewerThan(s[1..], s[0].createdAt) by {
        forall k | 0 <= k < |s[1..]| ensures s[1..][k].createdAt <= s[0].createdAt {
          assert s[1..][k] == s[k + 1];
        }
      }
      InsertNoneNewer(b, s[1..], s[0].createdAt);
      assert Insert(b, s) == [s[0]] + Insert(b, s[1..]);
      ConsNewestFirst(s[0], Insert(b, s[1..]));
    }
  }

  /** `a` is `b` with some elements left out and the rest in their original order. */
  predicate IsSubsequence(a: seq<Booking>, b: seq<Booking>)
    decreases |b|
  {
    if a == [] then true
    else if b == [] then false
    else if a[0] == b[0] then IsSubsequence(a[1..], b[1..])
    else IsSubsequence(a, b[1..])
  }

  /** Leaving bookings out of a newest-first list keeps it newest first. */
  lemma {:induction false} SubsequenceKeepsNewestFirst(a: seq<Booking>, b: seq<Booking>)
    requires IsSubsequence(a, b) && NewestFirst(b)
    ensures NewestFirst(a)
    decreases |b|
  {
    if a != [] {
      assert b != [];
      TailNewestFirst(b);
      if a[0] == b[0] {
        SubsequenceKeepsNewestFirst(a[1..], b[1..]);
        SubsequenceElements(a[1..], b[1..]);
        forall i, j | 0 <= i < j < |a| ensures a[i].createdAt >= a[j].createdAt {
          if i == 0 {
            assert a[j] == a[1..][j - 1];
            assert a[j] in a[1..];
            assert a[j] in b[1..];
            var k :| 0 <= k < |b[1..]| && b[1..][k] == a[j];
            assert b[k + 1] == a[j];
          } else {
            assert a[i] == a[1..][i - 1] && a[j] == a[1..][j - 1];
          }
        }
      } else {
        SubsequenceKeepsNewestFirst(a, b[1..]);
      }
    }
  }

  /** Every element of a subsequence is an element of the whole. */
  lemma {:induction false} SubsequenceElements(a: seq<Booking>, b: seq<Booking>)
    requires IsSubsequence(a, b)
    ensures forall x :: x in a ==> x in b
    decreases |b|
  {
    if a != [] {
      if a[0] == b[0] {
        SubsequenceElements(a[1..], b[1..]);
        forall x | x in a ensures x in b {
          if x != a[0] {
            assert x in a[1..];
            assert x in b[1..];
          }
        }
      } else {
        SubsequenceElements(a, b[1..]);
      }
    }
  }

  /** A subsequence of the tail is a subsequence of the whole. */
  lemma {:induction false} SubsequenceOfCons(a: seq<Booking>, x: Booking, t: seq<Booking>)
    requires IsSubsequence(a, t)
    ensures IsSubsequence(a, [x] + t)
    decreases |t|, 1
  {
    var b := [x] + t;
    assert b[1..] == t;
    if a != [] && a[0] == x {
      SubsequenceDropHead(a, t);
    }
  }

  /** Leaving out the first element of a subsequence leaves a subsequence. */
  lemma {:induction false} SubsequenceDropHead(a: seq<Booking>, b: seq<Booking>)
    requires a != [] && IsSubsequence(a, b)
    ensures IsSubsequence(a[1..], b)
    decreases |b|, 0
  {
    assert b == [b[0]] + b[1..];
    if a[0] == b[0] {
      SubsequenceOfCons(a[1..], b[0], b[1..]);
    } else {
      SubsequenceDropHead(a, b[1..]);
      SubsequenceOfCons(a[1..], b[0], b[1..]);
    }
  }
}
