/** Counting rows by key, as `value_counts()` and `groupby(...).size()` do,
    and sorting the resulting tables, as their default ordering and
    `sort_index()` do. */
module Counting {

  /** One line of a counts table: a key and the number of rows that carry it. */
  datatype Entry<K> = Entry(key: K, count: nat)

  /** The keys of a table, in table order. */
  function Keys<K>(t: seq<Entry<K>>): seq<K> {
    seq(|t|, i requires 0 <= i < |t| => t[i].key)
  }

  /** The sum of the counts of a table. */
  function Total<K>(t: seq<Entry<K>>): nat {
    if t == [] then 0 else Total(t[..|t| - 1]) + t[|t| - 1].count
  }

  ghost predicate DistinctKeys<K>(t: seq<Entry<K>>) {
    forall i, j :: 0 <= i < j < |t| ==> t[i].key != t[j].key
  }

  /** `t` counts the values of `s`: one entry per distinct value, holding the
      number of times that value occurs, and no entry for an absent value. */
  ghost predicate CountsOf<K>(t: seq<Entry<K>>, s: seq<K>) {
    && DistinctKeys(t)
    && (forall e :: e in t ==> 0 < e.count == multiset(s)[e.key])
    && (forall x :: x in s ==> x in Keys(t))
  }

  /** Position of the entry with key `k`, or `|t|` when there is none. */
  function Find<K(==)>(t: seq<Entry<K>>, k: K): (i: nat)
    ensures i <= |t|
    ensures i < |t| ==> t[i].key == k
    ensures forall j :: 0 <= j < i ==> t[j].key != k
  {
    if t == [] then 0 else if t[0].key == k then 0 else 1 + Find(t[1..], k)
  }

  /** Counts one more occurrence of `x`: adds one to its entry, or appends a
      new entry with count 1. */
  function Bump<K(==)>(t: seq<Entry<K>>, x: K): seq<Entry<K>> {
    var i := Find(t, x);
    if i < |t| then t[i := Entry(x, t[i].count + 1)] else t + [Entry(x, 1)]
  }

  /** The counts of `s` in order of first appearance: the hash table that
      `value_counts` fills before it sorts. */
  function Tally<K(==)>(s: seq<K>): seq<Entry<K>> {
    if s == [] then [] else Bump(Tally(s[..|s| - 1]), s[|s| - 1])
  }

  lemma {:induction false} TotalAppend<K>(t: seq<Entry<K>>, u: seq<Entry<K>>)
    ensures Total(t + u) == Total(t) + Total(u)
  {
    if u != [] {
      assert (t + u)[..|t + u| - 1] == t + u[..|u| - 1];
      TotalAppend(t, u[..|u| - 1]);
    } else {
      assert t + u == t;
    }
  }

  lemma TotalCons<K>(e: Entry<K>, t: seq<Entry<K>>)
    ensures Total([e] + t) == e.count + Total(t)
  {
    TotalAppend([e], t);
    assert [e][..0] == [];
  }

  lemma {:induction false} TotalUpdate<K>(t: seq<Entry<K>>, i: nat, e: Entry<K>)
    requires i < |t|
    ensures Total(t[i := e]) == Total(t) - t[i].count + e.count
  {
    if i < |t| - 1 {
      assert t[i := e][..|t| - 1] == t[..|t| - 1][i := e];
      TotalUpdate(t[..|t| - 1], i, e);
    } else {
      assert t[i := e][..|t| - 1] == t[..|t| - 1];
    }
  }

  lemma BumpExisting<K>(t: seq<Entry<K>>, p: seq<K>, x: K)
    requires CountsOf(t, p) && Total(t) == |p|
    requires Find(t, x) < |t|
    ensures CountsOf(Bump(t, x), p + [x]) && Total(Bump(t, x)) == |p| + 1
  {
    var s := p + [x];
    var i := Find(t, x);
    var r := Bump(t, x);
    assert r == t[i := Entry(x, t[i].count + 1)];
    assert multiset(s) == multiset(p) + multiset{x};
    TotalUpdate(t, i, Entry(x, t[i].count + 1));
    forall e | e in r
      ensures 0 < e.count == multiset(s)[e.key]
    {
      var j :| 0 <= j < |r| && r[j] == e;
      if j != i {
        assert e == t[j] && t[j].key != x;
      }
    }
    forall y | y in s
      ensures y in Keys(r)
    {
      if y != x {
        assert y in p;
        var j :| 0 <= j < |t| && Keys(t)[j] == y;
        assert Keys(r)[j] == y;
      } else {
        assert Keys(r)[i] == y;
      }
    }
  }

  lemma BumpNew<K>(t: seq<Entry<K>>, p: seq<K>, x: K)
    requires CountsOf(t, p) && Total(t) == |p|
    requires Find(t, x) == |t|
    ensures CountsOf(Bump(t, x), p + [x]) && Total(Bump(t, x)) == |p| + 1
  {
    var s := p + [x];
    var r := Bump(t, x);
    assert r == t + [Entry(x, 1)];
    assert multiset(s) == multiset(p) + multiset{x};
    TotalAppend(t, [Entry(x, 1)]);
    assert Total([Entry(x, 1)]) == 1 by {
      assert [Entry(x, 1)][..0] == [];
    }
    assert x !in p;
    forall e | e in r
      ensures 0 < e.count == multiset(s)[e.key]
    {
      if e != Entry(x, 1) {
        assert e in t;
      }
    }
    forall y | y in s
      ensures y in Keys(r)
    {
      if y != x {
        var j :| 0 <= j < |t| && Keys(t)[j] == y;
        assert Keys(r)[j] == y;
      } else {
        assert Keys(r)[|t|] == y;
      }
    }
  }

  /** The first-appearance table counts `s`, and its counts add up to `|s|`. */
  lemma {:induction false} TallyCounts<K>(s: seq<K>)
    ensures CountsOf(Tally(s), s)
    ensures Total(Tally(s)) == |s|
  {
    if s != [] {
      var p, x := s[..|s| - 1], s[|s| - 1];
      assert s == p + [x];
      TallyCounts(p);
      if Find(Tally(p), x) < |Tally(p)| {
        BumpExisting(Tally(p), p, x);
      } else {
        BumpNew(Tally(p), p, x);
      }
    }
  }

  /** `le` orders entries totally, ties allowed: a sort key. */
  ghost predicate TotalPreorder<K(!new)>(le: (Entry<K>, Entry<K>) -> bool) {
    && (forall a, b :: le(a, b) || le(b, a))
    && (forall a, b, c :: le(a, b) && le(b, c) ==> le(a, c))
  }

  ghost predicate Sorted<K>(t: seq<Entry<K>>, le: (Entry<K>, Entry<K>) -> bool) {
    forall i, j :: 0 <= i < j < |t| ==> le(t[i], t[j])
  }

  /** Places `x` after every entry of `t` that `le` puts at or before it. */
  function Insert<K>(t: seq<Entry<K>>, x: Entry<K>, le: (Entry<K>, Entry<K>) -> bool): (r: seq<Entry<K>>)
    ensures multiset(r) == multiset(t) + multiset{x}
    ensures |r| == |t| + 1
  {
    if t == [] then [x]
    else if !le(t[0], x) then [x] + t
    else
      assert t == [t[0]] + t[1..];
      [t[0]] + Insert(t[1..], x, le)
  }

  /** A stable insertion sort of a table by `le`. */
  function SortBy<K>(t: seq<Entry<K>>, le: (Entry<K>, Entry<K>) -> bool): (r: seq<Entry<K>>)
    ensures multiset(r) == multiset(t)
    ensures |r| == |t|
  {
    if t == [] then [] else
      assert t == t[..|t| - 1] + [t[|t| - 1]];
      Insert(SortBy(t[..|t| - 1], le), t[|t| - 1], le)
  }

  /** An entry that `le` puts before `t[0]` goes in front, and keeps the table sorted. */
  lemma InsertFrontSorted<K(!new)>(t: seq<Entry<K>>, x: Entry<K>, le: (Entry<K>, Entry<K>) -> bool)
    requires TotalPreorder(le) && Sorted(t, le)
    requires t != [] && !le(t[0], x)
    ensures Sorted(Insert(t, x, le), le)
  {
    var r := [x] + t;
    assert le(x, t[0]);
    forall i, j | 0 <= i < j < |r|
      ensures le(r[i], r[j])
    {
      if i == 0 {
        if j > 1 {
          assert le(t[0], t[j - 1]);
        }
      } else {
        assert r[i] == t[i - 1] && r[j] == t[j - 1];
      }
    }
  }

  /** Every entry of `Insert(t, x, le)` is an entry of `t` or `x` itself. */
  lemma InsertMembers<K>(t: seq<Entry<K>>, x: Entry<K>, le: (Entry<K>, Entry<K>) -> bool, y: Entry<K>)
    requires y in Insert(t, x, le)
    ensures y == x || y in t
  {
    assert y in multiset(Insert(t, x, le));
  }

  lemma {:induction false} InsertSorted<K(!new)>(t: seq<Entry<K>>, x: Entry<K>, le: (Entry<K>, Entry<K>) -> bool)
    requires TotalPreorder(le) && Sorted(t, le)
    ensures Sorted(Insert(t, x, le), le)
  {
    if t != [] {
      if !le(t[0], x) {
        InsertFrontSorted(t, x, le);
      } else {
        var u := Insert(t[1..], x, le);
        InsertSorted(t[1..], x, le);
        forall y | y in u
          ensures le(t[0], y)
        {
          InsertMembers(t[1..], x, le, y);
          if y != x {
            var j :| 0 <= j < |t[1..]| && t[1..][j] == y;
            assert t[j + 1] == y;
          }
        }
        var r := Insert(t, x, le);
        assert r == [t[0]] + u;
        forall i, j | 0 <= i < j < |r|
          ensures le(r[i], r[j])
        {
          if i == 0 {
            assert r[j] == u[j - 1];
          } else {
            assert r[i] == u[i - 1] && r[j] == u[j - 1];
          }
        }
      }
    }
  }

  lemma {:induction false} SortBySorted<K(!new)>(t: seq<Entry<K>>, le: (Entry<K>, Entry<K>) -> bool)
    requires TotalPreorder(le)
    ensures Sorted(SortBy(t, le), le)
  {
    if t != [] {
      SortBySorted(t[..|t| - 1], le);
      InsertSorted(SortBy(t[..|t| - 1], le), t[|t| - 1], le);
    }
  }

  lemma {:induction false} InsertTotal<K>(t: seq<Entry<K>>, x: Entry<K>, le: (Entry<K>, Entry<K>) -> bool)
    ensures Total(Insert(t, x, le)) == Total(t) + x.count
  {
    if t == [] {
      assert [x][..0] == [];
    } else if !le(t[0], x) {
      TotalCons(x, t);
    } else {
      InsertTotal(t[1..], x, le);
      TotalCons(t[0], Insert(t[1..], x, le));
      TotalCons(t[0], t[1..]);
      assert [t[0]] + t[1..] == t;
    }
  }

  lemma {:induction false} InsertDistinct<K>(t: seq<Entry<K>>, x: Entry<K>, le: (Entry<K>, Entry<K>) -> bool)
    requires DistinctKeys(t)
    requires forall e :: e in t ==> e.key != x.key
    ensures DistinctKeys(Insert(t, x, le))
  {
    if t != [] && le(t[0], x) {
      var u := Insert(t[1..], x, le);
      InsertDistinct(t[1..], x, le);
      var r := [t[0]] + u;
      forall j | 0 < j < |r|
        ensures r[0].key != r[j].key
      {
        assert r[j] in multiset(u);
        if r[j] != x {
          var k :| 0 <= k < |t[1..]| && t[1..][k] == r[j];
          assert t[k + 1] == r[j];
        }
      }
    }
  }

  lemma {:induction false} SortByDistinct<K>(t: seq<Entry<K>>, le: (Entry<K>, Entry<K>) -> bool)
    requires DistinctKeys(t)
    ensures DistinctKeys(SortBy(t, le))
  {
    if t != [] {
      var p, x := t[..|t| - 1], t[|t| - 1];
      SortByDistinct(p, le);
      forall e | e in SortBy(p, le)
        ensures e.key != x.key
      {
        assert e in multiset(SortBy(p, le));
        var k :| 0 <= k < |p| && p[k] == e;
      }
      InsertDistinct(SortBy(p, le), x, le);
    }
  }

  lemma {:induction false} SortByTotal<K>(t: seq<Entry<K>>, le: (Entry<K>, Entry<K>) -> bool)
    ensures Total(SortBy(t, le)) == Total(t)
  {
    if t != [] {
      var p, x := t[..|t| - 1], t[|t| - 1];
      SortByTotal(p, le);
      InsertTotal(SortBy(p, le), x, le);
    }
  }

  /** Sorting a counts table reorders it and nothing else: it still counts the
      same values with the same total, and is now in `le` order. */
  lemma SortByKeepsCounts<K>(t: seq<Entry<K>>, s: seq<K>, le: (Entry<K>, Entry<K>) -> bool)
    requires CountsOf(t, s) && Total(t) == |s|
    ensures CountsOf(SortBy(t, le), s) && Total(SortBy(t, le)) == |s|
  {
    var r := SortBy(t, le);
    SortByDistinct(t, le);
    SortByTotal(t, le);
    forall e | e in r
      ensures 0 < e.count == multiset(s)[e.key]
    {
      assert e in multiset(r);
    }
    forall x | x in s
      ensures x in Keys(r)
    {
      var j :| 0 <= j < |t| && Keys(t)[j] == x;
      assert t[j] in multiset(r);
      var k :| 0 <= k < |r| && r[k] == t[j];
      assert Keys(r)[k] == x;
    }
  }

  /** Larger counts first: the default order of `value_counts()`. */
  function ByCountDesc<K>(a: Entry<K>, b: Entry<K>): bool {
    a.count >= b.count
  }

  /** Ascending integer key: the order of `sort_index()` on a year index. */
  function ByIntKey(a: Entry<int>, b: Entry<int>): bool {
    a.key <= b.key
  }

  lemma ByCountDescIsPreorder<K(!new)>()
    ensures TotalPreorder(ByCountDesc<K>)
  {
  }

  lemma ByIntKeyIsPreorder()
    ensures TotalPreorder(ByIntKey)
  {
  }

  /** `value_counts()` with its default `sort=True`: counts, largest first. */
  function ValueCounts<K(==)>(s: seq<K>): seq<Entry<K>> {
    SortBy(Tally(s), ByCountDesc)
  }

  /** The value counts count `s`: one entry per distinct value with its number
      of occurrences (so at least one), all adding up to `|s|`, largest first. */
  lemma ValueCountsSpec<K(!new)>(s: seq<K>)
    ensures CountsOf(ValueCounts(s), s)
    ensures Total(ValueCounts(s)) == |s|
    ensures forall i, j :: 0 <= i < j < |ValueCounts(s)| ==> ValueCounts(s)[i].count >= ValueCounts(s)[j].count
  {
    TallyCounts(s);
    ByCountDescIsPreorder<K>();
    SortByKeepsCounts(Tally(s), s, ByCountDesc);
    SortBySorted(Tally(s), ByCountDesc);
  }

  /** `groupby(keys).size()` with its default `sort=True`: the counts of every
      key present, in ascending key order `le`. */
  function GroupSizes<K(==)>(s: seq<K>, le: (Entry<K>, Entry<K>) -> bool): seq<Entry<K>> {
    SortBy(Tally(s), le)
  }

  /** Whatever the key order, the group sizes count `s`. */
  lemma GroupSizesCounts<K>(s: seq<K>, le: (Entry<K>, Entry<K>) -> bool)
    ensures CountsOf(GroupSizes(s, le), s)
    ensures Total(GroupSizes(s, le)) == |s|
  {
    TallyCounts(s);
    SortByKeepsCounts(Tally(s), s, le);
  }

  lemma GroupSizesSpec<K(!new)>(s: seq<K>, le: (Entry<K>, Entry<K>) -> bool)
    requires TotalPreorder(le)
    ensures CountsOf(GroupSizes(s, le), s)
    ensures Total(GroupSizes(s, le)) == |s|
    ensures Sorted(GroupSizes(s, le), le)
  {
    GroupSizesCounts(s, le);
    SortBySorted(Tally(s), le);
  }

  /** `value_counts().sort_index()` on integer values: one entry per distinct
      value, keys strictly ascending, counts adding up to `|s|`. */
  lemma ValueCountsByIndexSpec(s: seq<int>)
    ensures CountsOf(SortBy(ValueCounts(s), ByIntKey), s)
    ensures Total(SortBy(ValueCounts(s), ByIntKey)) == |s|
    ensures forall i, j :: 0 <= i < j < |SortBy(ValueCounts(s), ByIntKey)| ==>
      SortBy(ValueCounts(s), ByIntKey)[i].key < SortBy(ValueCounts(s), ByIntKey)[j].key
  {
    ValueCountsSpec(s);
    ByIntKeyIsPreorder();
    SortByKeepsCounts(ValueCounts(s), s, ByIntKey);
    SortBySorted(ValueCounts(s), ByIntKey);
  }
}
