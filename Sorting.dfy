/**
 * sort_values on an aggregate table: an insertion sort by an integer rank,
 * specified only by sortedness and permutation (pandas promises no order
 * among equal values), plus the sums that a reordering keeps.
 */
module Sorting {

  /** s is in non-decreasing order of rank. */
  ghost predicate Ascending<T>(s: seq<T>, rank: T -> int)
  {
    forall i, j :: 0 <= i < j < |s| ==> rank(s[i]) <= rank(s[j])
  }

  /** Puts x before the first element of s whose rank is at least x's. */
  function Insert<T>(x: T, s: seq<T>, rank: T -> int): seq<T>
  {
    if s == [] || rank(x) <= rank(s[0]) then [x] + s
    else [s[0]] + Insert(x, s[1..], rank)
  }

  function SortBy<T>(s: seq<T>, rank: T -> int): seq<T>
  {
    if s == [] then [] else Insert(s[0], SortBy(s[1..], rank), rank)
  }

  /** The total of w over s. */
  function SumBy<T>(s: seq<T>, w: T -> int): int
  {
    if s == [] then 0 else w(s[0]) + SumBy(s[1..], w)
  }

  lemma {:induction false} InsertPermutes<T>(x: T, s: seq<T>, rank: T -> int)
    ensures multiset(Insert(x, s, rank)) == multiset(s) + multiset{x}
    ensures |Insert(x, s, rank)| == |s| + 1
  {
    if s != [] && rank(x) > rank(s[0]) {
      InsertPermutes(x, s[1..], rank);
      assert s == [s[0]] + s[1..];
    }
  }

  lemma {:induction false} InsertAscending<T>(x: T, s: seq<T>, rank: T -> int)
    requires Ascending(s, rank)
    ensures Ascending(Insert(x, s, rank), rank)
  {
    if s != [] && rank(x) > rank(s[0]) {
      var tail := s[1..];
      InsertAscending(x, tail, rank);
      InsertPermutes(x, tail, rank);
      var r := Insert(x, tail, rank);
      forall k | 0 <= k < |r| ensures rank(s[0]) <= rank(r[k]) {
        assert r[k] in multiset(r);
        if r[k] != x {
          assert r[k] in multiset(tail);
          var m :| 0 <= m < |tail| && tail[m] == r[k];
          assert s[m + 1] == r[k];
        }
      }
      var whole := [s[0]] + r;
      forall i, j | 0 <= i < j < |whole| ensures rank(whole[i]) <= rank(whole[j]) {
        if i > 0 { assert whole[i] == r[i - 1] && whole[j] == r[j - 1]; }
        else { assert whole[j] == r[j - 1]; }
      }
    }
  }

  lemma {:induction false} SortByPermutes<T>(s: seq<T>, rank: T -> int)
    ensures multiset(SortBy(s, rank)) == multiset(s)
    ensures |SortBy(s, rank)| == |s|
  {
    if s != [] {
      SortByPermutes(s[1..], rank);
      InsertPermutes(s[0], SortBy(s[1..], rank), rank);
      assert s == [s[0]] + s[1..];
    }
  }

  lemma {:induction false} SortByAscending<T>(s: seq<T>, rank: T -> int)
    ensures Ascending(SortBy(s, rank), rank)
  {
    if s != [] {
      SortByAscending(s[1..], rank);
      InsertAscending(s[0], SortBy(s[1..], rank), rank);
    }
  }

  /** SortBy returns a reordering of its input in non-decreasing rank. */
  lemma SortByCorrect<T>(s: seq<T>, rank: T -> int)
    ensures Ascending(SortBy(s, rank), rank)
    ensures multiset(SortBy(s, rank)) == multiset(s)
    ensures |SortBy(s, rank)| == |s|
  {
    SortByAscending(s, rank);
    SortByPermutes(s, rank);
  }

  lemma {:induction false} InsertSum<T>(x: T, s: seq<T>, rank: T -> int, w: T -> int)
    ensures SumBy(Insert(x, s, rank), w) == w(x) + SumBy(s, w)
  {
    if s != [] && rank(x) > rank(s[0]) {
      InsertSum(x, s[1..], rank, w);
      assert ([s[0]] + Insert(x, s[1..], rank))[1..] == Insert(x, s[1..], rank);
    } else {
      assert ([x] + s)[1..] == s;
    }
  }

  /** Reordering keeps the total: a sorted table sums to what the unsorted one does. */
  lemma {:induction false} SortBySum<T>(s: seq<T>, rank: T -> int, w: T -> int)
    ensures SumBy(SortBy(s, rank), w) == SumBy(s, w)
  {
    if s != [] {
      SortBySum(s[1..], rank, w);
      InsertSum(s[0], SortBy(s[1..], rank), rank, w);
    }
  }

  lemma {:induction false} SumBySplit<T>(a: seq<T>, b: seq<T>, w: T -> int)
    ensures SumBy(a + b, w) == SumBy(a, w) + SumBy(b, w)
  {
    if a != [] {
      SumBySplit(a[1..], b, w);
      assert (a + b)[1..] == a[1..] + b;
    } else {
      assert a + b == b;
    }
  }

  /** Cutting a table in two keeps its total. */
  lemma PrefixSplit<T>(s: seq<T>, n: nat, w: T -> int)
    requires n <= |s|
    ensures SumBy(s[..n], w) + SumBy(s[n..], w) == SumBy(s, w)
  {
    SumBySplit(s[..n], s[n..], w);
    assert s[..n] + s[n..] == s;
  }

  /** Two tables with the same weights position by position have the same total. */
  lemma {:induction false} SumByPointwise<A, B>(a: seq<A>, wa: A -> int, b: seq<B>, wb: B -> int)
    requires |a| == |b|
    requires forall i :: 0 <= i < |a| ==> wa(a[i]) == wb(b[i])
    ensures SumBy(a, wa) == SumBy(b, wb)
  {
    if a != [] {
      assert forall i :: 0 <= i < |a| - 1 ==> a[1..][i] == a[i + 1] && b[1..][i] == b[i + 1];
      SumByPointwise(a[1..], wa, b[1..], wb);
    }
  }
}
