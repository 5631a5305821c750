/**
 * groupby(key)[column].sum() as an association list: one entry per distinct
 * present key, in order of first appearance, holding the total of a measure
 * over the rows with that key. Rows whose key is missing are dropped, as
 * pandas' groupby drops NaN keys.
 */
module Grouping {
  import opened Wrappers
  import opened Records
  import opened Sorting

  function Value<K>(e: (K, int)): int
  {
    e.1
  }

  ghost predicate HasKey<K>(g: seq<(K, int)>, k: K)
  {
    exists i :: 0 <= i < |g| && g[i].0 == k
  }

  ghost predicate DistinctKeys<K>(g: seq<(K, int)>)
  {
    forall i, j :: 0 <= i < j < |g| ==> g[i].0 != g[j].0
  }

  /** The total stored under k, or 0 when k has no entry. */
  function Lookup<K(==)>(g: seq<(K, int)>, k: K): int
  {
    if g == [] then 0 else if g[0].0 == k then g[0].1 else Lookup(g[1..], k)
  }

  /** Adds v to k's entry, appending a new entry when k has none. */
  function Add<K(==)>(g: seq<(K, int)>, k: K, v: int): seq<(K, int)>
  {
    if g == [] then [(k, v)]
    else if g[0].0 == k then [(k, g[0].1 + v)] + g[1..]
    else [g[0]] + Add(g[1..], k, v)
  }

  /** Group the rows by key and total the measure w per group. */
  function GroupSum<K(==)>(rows: seq<Record>, key: Record -> Option<K>, w: Record -> int): seq<(K, int)>
  {
    if rows == [] then []
    else
      var g := GroupSum(rows[..|rows| - 1], key, w);
      var r := rows[|rows| - 1];
      if key(r).Some? then Add(g, key(r).value, w(r)) else g
  }

  /** The total of w over the rows whose key is k: the reference value of k's group. */
  function SumWhere<K(==)>(rows: seq<Record>, key: Record -> Option<K>, k: K, w: Record -> int): int
  {
    if rows == [] then 0
    else
      var r := rows[|rows| - 1];
      SumWhere(rows[..|rows| - 1], key, k, w) + (if key(r) == Some(k) then w(r) else 0)
  }

  /** The total of w over the rows whose key is present. */
  function SumKeyed<K>(rows: seq<Record>, key: Record -> Option<K>, w: Record -> int): int
  {
    if rows == [] then 0
    else
      var r := rows[|rows| - 1];
      SumKeyed(rows[..|rows| - 1], key, w) + (if key(r).Some? then w(r) else 0)
  }

  /** The grand total df['VALOR'].sum(): missing amounts are skipped. */
  function Total(rows: seq<Record>): int
  {
    if rows == [] then 0 else Total(rows[..|rows| - 1]) + ValorOf(rows[|rows| - 1])
  }

  ghost predicate Occurs<K>(rows: seq<Record>, key: Record -> Option<K>, k: K)
  {
    exists i :: 0 <= i < |rows| && key(rows[i]) == Some(k)
  }

  // ---- Add ----

  lemma {:induction false} AddLookup<K>(g: seq<(K, int)>, k: K, v: int, k': K)
    ensures Lookup(Add(g, k, v), k') == Lookup(g, k') + (if k' == k then v else 0)
  {
    if g != [] && g[0].0 != k {
      AddLookup(g[1..], k, v, k');
      assert ([g[0]] + Add(g[1..], k, v))[1..] == Add(g[1..], k, v);
    } else if g != [] {
      assert ([(k, g[0].1 + v)] + g[1..])[1..] == g[1..];
    }
  }

  lemma {:induction false} AddHasKey<K>(g: seq<(K, int)>, k: K, v: int, k': K)
    ensures HasKey(Add(g, k, v), k') <==> HasKey(g, k') || k' == k
  {
    var a := Add(g, k, v);
    if g == [] {
      assert a[0].0 == k;
    } else if g[0].0 == k {
      assert |a| == |g| && a[0].0 == g[0].0;
      assert forall i :: 0 < i < |g| ==> a[i] == g[i];
    } else {
      var rest := Add(g[1..], k, v);
      AddHasKey(g[1..], k, v, k');
      assert a == [g[0]] + rest;
      if HasKey(g, k') && k' != g[0].0 {
        var i :| 0 <= i < |g| && g[i].0 == k';
        assert g[1..][i - 1] == g[i];
      }
      if HasKey(a, k') && k' != g[0].0 {
        var i :| 0 <= i < |a| && a[i].0 == k';
        assert a[i] == rest[i - 1];
      }
      if HasKey(rest, k') {
        var i :| 0 <= i < |rest| && rest[i].0 == k';
        assert a[i + 1] == rest[i];
      }
      if HasKey(g[1..], k') {
        var i :| 0 <= i < |g[1..]| && g[1..][i].0 == k';
        assert g[i + 1] == g[1..][i];
      }
      if k' == g[0].0 {
        assert a[0].0 == k' && g[0].0 == k';
      }
    }
  }

  lemma {:induction false} AddDistinct<K>(g: seq<(K, int)>, k: K, v: int)
    requires DistinctKeys(g)
    ensures DistinctKeys(Add(g, k, v))
  {
    if g != [] && g[0].0 != k {
      var rest := Add(g[1..], k, v);
      AddDistinct(g[1..], k, v);
      var a := [g[0]] + rest;
      forall i, j | 0 <= i < j < |a| ensures a[i].0 != a[j].0 {
        if i == 0 {
          assert a[j] == rest[j - 1];
          forall m | 0 <= m < |g[1..]| ensures g[1..][m].0 != g[0].0 {
            assert g[1..][m] == g[m + 1];
          }
          AddHasKey(g[1..], k, v, g[0].0);
        } else {
          assert a[i] == rest[i - 1] && a[j] == rest[j - 1];
        }
      }
    } else if g != [] {
      var a := [(k, g[0].1 + v)] + g[1..];
      forall i, j | 0 <= i < j < |a| ensures a[i].0 != a[j].0 {
        assert a[j] == g[j];
        if i > 0 { assert a[i] == g[i]; }
      }
    }
  }

  lemma {:induction false} AddSum<K>(g: seq<(K, int)>, k: K, v: int)
    ensures SumBy(Add(g, k, v), Value) == SumBy(g, Value) + v
  {
    if g == [] {
      assert SumBy([(k, v)], Value) == v + SumBy([(k, v)][1..], Value);
    } else if g[0].0 == k {
      assert ([(k, g[0].1 + v)] + g[1..])[1..] == g[1..];
    } else {
      AddSum(g[1..], k, v);
      assert ([g[0]] + Add(g[1..], k, v))[1..] == Add(g[1..], k, v);
    }
  }

  /** With distinct keys, an entry's total is what Lookup finds for its key. */
  lemma {:induction false} EntryIsLookup<K>(g: seq<(K, int)>, i: nat)
    requires DistinctKeys(g)
    requires i < |g|
    ensures g[i].1 == Lookup(g, g[i].0)
  {
    if i > 0 {
      assert g[0].0 != g[i].0;
      assert DistinctKeys(g[1..]) by {
        forall a, b | 0 <= a < b < |g[1..]| ensures g[1..][a].0 != g[1..][b].0 {
          assert g[1..][a] == g[a + 1] && g[1..][b] == g[b + 1];
        }
      }
      EntryIsLookup(g[1..], i - 1);
    }
  }

  // ---- GroupSum ----

  /**
   * The group-by contract: one entry per distinct present key, each entry's
   * total is the total over exactly the rows with that key, and the entries
   * together total every row whose key is present (conservation).
   */
  lemma {:induction false} GroupSumCorrect<K>(rows: seq<Record>, key: Record -> Option<K>, w: Record -> int)
    ensures DistinctKeys(GroupSum(rows, key, w))
    ensures forall k :: HasKey(GroupSum(rows, key, w), k) <==> Occurs(rows, key, k)
    ensures forall k :: Lookup(GroupSum(rows, key, w), k) == SumWhere(rows, key, k, w)
    ensures SumBy(GroupSum(rows, key, w), Value) == SumKeyed(rows, key, w)
  {
    if rows != [] {
      var init := rows[..|rows| - 1];
      var r := rows[|rows| - 1];
      var g := GroupSum(init, key, w);
      GroupSumCorrect(init, key, w);
      forall k ensures Occurs(rows, key, k) <==> Occurs(init, key, k) || key(r) == Some(k) {
        if Occurs(init, key, k) {
          var i :| 0 <= i < |init| && key(init[i]) == Some(k);
          assert rows[i] == init[i];
        }
        if Occurs(rows, key, k) && key(r) != Some(k) {
          var i :| 0 <= i < |rows| && key(rows[i]) == Some(k);
          assert i < |init| && init[i] == rows[i];
        }
      }
      if key(r).Some? {
        var k0 := key(r).value;
        AddDistinct(g, k0, w(r));
        AddSum(g, k0, w(r));
        forall k ensures HasKey(Add(g, k0, w(r)), k) <==> Occurs(rows, key, k) {
          AddHasKey(g, k0, w(r), k);
        }
        forall k ensures Lookup(Add(g, k0, w(r)), k) == SumWhere(rows, key, k, w) {
          AddLookup(g, k0, w(r), k);
        }
      }
    }
  }

  /** When every row has its key present, the groups total the grand total. */
  lemma {:induction false} SumKeyedAll<K>(rows: seq<Record>, key: Record -> Option<K>)
    requires forall i :: 0 <= i < |rows| ==> key(rows[i]).Some?
    ensures SumKeyed(rows, key, ValorOf) == Total(rows)
  {
    if rows != [] {
      var init := rows[..|rows| - 1];
      assert forall i :: 0 <= i < |init| ==> init[i] == rows[i];
      SumKeyedAll(init, key);
    }
  }

  // ---- Reordering a grouped table ----

  lemma PermutationHasKey<K>(a: seq<(K, int)>, b: seq<(K, int)>, k: K)
    requires multiset(a) == multiset(b)
    ensures HasKey(a, k) <==> HasKey(b, k)
  {
    if HasKey(a, k) {
      var i :| 0 <= i < |a| && a[i].0 == k;
      assert a[i] in multiset(b);
      var j :| 0 <= j < |b| && b[j] == a[i];
    }
    if HasKey(b, k) {
      var j :| 0 <= j < |b| && b[j].0 == k;
      assert b[j] in multiset(a);
      var i :| 0 <= i < |a| && a[i] == b[j];
    }
  }

  lemma {:induction false} InsertDistinct<K>(x: (K, int), t: seq<(K, int)>, rank: ((K, int)) -> int)
    requires DistinctKeys(t)
    requires !HasKey(t, x.0)
    ensures DistinctKeys(Insert(x, t, rank))
  {
    if t == [] || rank(x) <= rank(t[0]) {
      var a := [x] + t;
      forall i, j | 0 <= i < j < |a| ensures a[i].0 != a[j].0 {
        assert a[j] == t[j - 1];
        if i > 0 { assert a[i] == t[i - 1]; }
      }
    } else {
      var tail := t[1..];
      assert DistinctKeys(tail) by {
        forall a, b | 0 <= a < b < |tail| ensures tail[a].0 != tail[b].0 {
          assert tail[a] == t[a + 1] && tail[b] == t[b + 1];
        }
      }
      forall m | 0 <= m < |tail| ensures tail[m].0 != x.0 && tail[m].0 != t[0].0 {
        assert t[m + 1] == tail[m];
      }
      InsertDistinct(x, tail, rank);
      var rest := Insert(x, tail, rank);
      InsertPermutes(x, tail, rank);
      assert t[0].0 != x.0;
      forall m | 0 <= m < |rest| ensures rest[m].0 != t[0].0 {
        assert rest[m] in multiset(rest);
        if rest[m] != x {
          assert rest[m] in multiset(tail);
          var n :| 0 <= n < |tail| && tail[n] == rest[m];
        }
      }
      var a := [t[0]] + rest;
      forall i, j | 0 <= i < j < |a| ensures a[i].0 != a[j].0 {
        assert a[j] == rest[j - 1];
        if i > 0 { assert a[i] == rest[i - 1]; }
      }
    }
  }

  /** Sorting a grouped table keeps its keys distinct. */
  lemma {:induction false} SortDistinct<K>(s: seq<(K, int)>, rank: ((K, int)) -> int)
    requires DistinctKeys(s)
    ensures DistinctKeys(SortBy(s, rank))
  {
    if s != [] {
      var tail := s[1..];
      assert DistinctKeys(tail) by {
        forall a, b | 0 <= a < b < |tail| ensures tail[a].0 != tail[b].0 {
          assert tail[a] == s[a + 1] && tail[b] == s[b + 1];
        }
      }
      SortDistinct(tail, rank);
      SortByCorrect(tail, rank);
      forall m | 0 <= m < |tail| ensures tail[m].0 != s[0].0 {
        assert s[m + 1] == tail[m];
      }
      PermutationHasKey(SortBy(tail, rank), tail, s[0].0);
      InsertDistinct(s[0], SortBy(tail, rank), rank);
    }
  }

  /** A key value that no row produces never becomes a group of the table. */
  lemma GroupKeysAvoid<K>(rows: seq<Record>, key: Record -> Option<K>, w: Record -> int, bad: K)
    requires forall r :: key(r) != Some(bad)
    ensures forall e :: e in GroupSum(rows, key, w) ==> e.0 != bad
  {
    var g := GroupSum(rows, key, w);
    GroupSumCorrect(rows, key, w);
    forall e | e in g ensures e.0 != bad {
      var i :| 0 <= i < |g| && g[i] == e;
      assert HasKey(g, e.0);
    }
  }

  /**
   * Everything a ranked aggregate view relies on: the grouped table sorted by
   * rank is in rank order, has one entry per distinct present key, every
   * entry holds its group's total, and the entries conserve the total.
   */
  lemma RankedGroups<K>(rows: seq<Record>, key: Record -> Option<K>, w: Record -> int, rank: ((K, int)) -> int)
    ensures Ascending(SortBy(GroupSum(rows, key, w), rank), rank)
    ensures DistinctKeys(SortBy(GroupSum(rows, key, w), rank))
    ensures forall k :: HasKey(SortBy(GroupSum(rows, key, w), rank), k) <==> Occurs(rows, key, k)
    ensures forall e :: e in SortBy(GroupSum(rows, key, w), rank) ==> e.1 == SumWhere(rows, key, e.0, w)
    ensures SumBy(SortBy(GroupSum(rows, key, w), rank), Value) == SumKeyed(rows, key, w)
  {
    var g := GroupSum(rows, key, w);
    var s := SortBy(g, rank);
    GroupSumCorrect(rows, key, w);
    SortByCorrect(g, rank);
    SortDistinct(g, rank);
    SortBySum(g, rank, Value);
    forall k ensures HasKey(s, k) <==> Occurs(rows, key, k) {
      PermutationHasKey(s, g, k);
    }
    forall e | e in s ensures e.1 == SumWhere(rows, key, e.0, w) {
      assert e in multiset(g);
      var i :| 0 <= i < |g| && g[i] == e;
      EntryIsLookup(g, i);
    }
  }
}
