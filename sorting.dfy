/**
 * `sort_values` and `head(n)`.  A row is ordered by its rank; missing values
 * (NaN, NaT) are placed last whichever way the sort goes, as pandas does by
 * default.  The sort is stable.
 */
module Sorting {
  import opened Frames

  datatype Rank = Known(n: int) | Missing

  /** In a sort (descending when desc), a row ranked a may come before a row ranked b. */
  predicate InOrder(desc: bool, a: Rank, b: Rank) {
    match a
    case Missing => b.Missing?
    case Known(x) =>
      match b
      case Missing => true
      case Known(y) => if desc then x >= y else x <= y
  }

  lemma InOrderTotal(desc: bool, a: Rank, b: Rank)
    ensures InOrder(desc, a, b) || InOrder(desc, b, a)
  {
  }

  lemma InOrderTransitive(desc: bool, a: Rank, b: Rank, c: Rank)
    requires InOrder(desc, a, b) && InOrder(desc, b, c)
    ensures InOrder(desc, a, c)
  {
  }

  ghost predicate SortedBy<T>(s: seq<T>, rank: T -> Rank, desc: bool) {
    forall i, j :: 0 <= i < j < |s| ==> InOrder(desc, rank(s[i]), rank(s[j]))
  }

  /** Places x before the first element it may precede; the elements of s keep their order. */
  function Insert<T(==)>(x: T, s: seq<T>, rank: T -> Rank, desc: bool): (r: seq<T>)
    ensures |r| == |s| + 1
    ensures multiset(r) == multiset(s) + multiset{x}
  {
    if s == [] then [x]
    else if InOrder(desc, rank(x), rank(s[0])) then [x] + s
    else
      assert s == [s[0]] + s[1..];
      [s[0]] + Insert(x, s[1..], rank, desc)
  }

  lemma {:induction false} InsertSorted<T>(x: T, s: seq<T>, rank: T -> Rank, desc: bool)
    requires SortedBy(s, rank, desc)
    ensures SortedBy(Insert(x, s, rank, desc), rank, desc)
  {
    if s == [] {
    } else if InOrder(desc, rank(x), rank(s[0])) {
      forall y | y in s ensures InOrder(desc, rank(x), rank(y)) {
        var j :| 0 <= j < |s| && s[j] == y;
        if j > 0 { InOrderTransitive(desc, rank(x), rank(s[0]), rank(s[j])); }
      }
      SortedCons(x, s, rank, desc);
    } else {
      InOrderTotal(desc, rank(x), rank(s[0]));
      var tail := Insert(x, s[1..], rank, desc);
      InsertSorted(x, s[1..], rank, desc);
      FirstPrecedesInsert(x, s, rank, desc);
      SortedCons(s[0], tail, rank, desc);
    }
  }

  /** After x is inserted past the first element, that element still precedes everything behind it. */
  lemma FirstPrecedesInsert<T>(x: T, s: seq<T>, rank: T -> Rank, desc: bool)
    requires SortedBy(s, rank, desc) && s != [] && InOrder(desc, rank(s[0]), rank(x))
    ensures forall y :: y in Insert(x, s[1..], rank, desc) ==> InOrder(desc, rank(s[0]), rank(y))
  {
    forall y | y in Insert(x, s[1..], rank, desc) ensures InOrder(desc, rank(s[0]), rank(y)) {
      assert y in multiset(s[1..]) + multiset{x};
      if y != x {
        var j :| 0 <= j < |s[1..]| && s[1..][j] == y;
        assert s[j + 1] == y;
      }
    }
  }

  /** An element that may precede every element of a sorted sequence can be put in front of it. */
  lemma SortedCons<T>(a: T, t: seq<T>, rank: T -> Rank, desc: bool)
    requires SortedBy(t, rank, desc)
    requires forall y :: y in t ==> InOrder(desc, rank(a), rank(y))
    ensures SortedBy([a] + t, rank, desc)
  {
    var r := [a] + t;
    forall i, j | 0 <= i < j < |r| ensures InOrder(desc, rank(r[i]), rank(r[j])) {
      if i == 0 { assert r[j] == t[j - 1] && r[j] in t; }
      else { assert r[i] == t[i - 1] && r[j] == t[j - 1]; }
    }
  }

  lemma MultisetCons<T>(s: seq<T>)
    requires s != []
    ensures multiset(s) == multiset(s[1..]) + multiset{s[0]}
  {
    assert s == [s[0]] + s[1..];
  }

  /** `sort_values(ascending = !desc)`: a stable insertion sort. */
  function SortBy<T(==)>(s: seq<T>, rank: T -> Rank, desc: bool): (r: seq<T>)
    ensures multiset(r) == multiset(s)
    ensures |r| == |s|
    ensures SortedBy(r, rank, desc)
  {
    if s == [] then []
    else
      var r := SortBy(s[1..], rank, desc);
      InsertSorted(s[0], r, rank, desc);
      MultisetCons(s);
      Insert(s[0], r, rank, desc)
  }

  /** `head(n)`: the first n rows, or all of them when there are fewer. */
  function Head<T>(s: seq<T>, n: nat): (h: seq<T>)
    ensures |h| == if |s| <= n then |s| else n
    ensures h == s[..|h|]
  {
    if |s| <= n then s else s[..n]
  }

  /**
   * `sort_values(...).head(n)`: the first min(n, |s|) rows of the sorted
   * table, themselves sorted, drawn from s, and each of them may precede every
   * row of s that was left out.
   */
  lemma HeadOfSorted<T>(s: seq<T>, rank: T -> Rank, desc: bool, n: nat)
    ensures var h := Head(SortBy(s, rank, desc), n);
      && |h| == (if |s| <= n then |s| else n)
      && SortedBy(h, rank, desc)
      && multiset(h) <= multiset(s)
      && (forall x, y :: x in h && y in s && y !in h ==> InOrder(desc, rank(x), rank(y)))
  {
    var r := SortBy(s, rank, desc);
    var h := Head(r, n);
    assert r == h + r[|h|..];
    forall x, y | x in h && y in s && y !in h ensures InOrder(desc, rank(x), rank(y)) {
      assert y in multiset(r);
      var i :| 0 <= i < |h| && h[i] == x;
      var j :| 0 <= j < |r| && r[j] == y;
      if j < |h| { assert h[j] == y; }
    }
  }

  /** The order facts of a sorted head, read off a column with no missing values. */
  lemma OrderByColumn<T>(h: seq<T>, s: seq<T>, rank: T -> Rank, col: T -> int, desc: bool)
    requires forall x :: rank(x) == Known(col(x))
    requires SortedBy(h, rank, desc)
    requires forall x, y :: x in h && y in s && y !in h ==> InOrder(desc, rank(x), rank(y))
    ensures forall i, j :: 0 <= i < j < |h| ==> if desc then col(h[i]) >= col(h[j]) else col(h[i]) <= col(h[j])
    ensures forall x, y :: x in h && y in s && y !in h ==> if desc then col(x) >= col(y) else col(x) <= col(y)
  {
    forall i, j | 0 <= i < j < |h| ensures if desc then col(h[i]) >= col(h[j]) else col(h[i]) <= col(h[j]) {
      assert InOrder(desc, rank(h[i]), rank(h[j]));
    }
    forall x, y | x in h && y in s && y !in h ensures if desc then col(x) >= col(y) else col(x) <= col(y) {
      assert InOrder(desc, rank(x), rank(y));
    }
  }

  /** `sort_values(by=col).head(n)` on a column with no missing values, in terms of the column itself. */
  lemma HeadByColumn<T>(s: seq<T>, rank: T -> Rank, col: T -> int, desc: bool, n: nat)
    requires forall x :: rank(x) == Known(col(x))
    ensures var h := Head(SortBy(s, rank, desc), n);
      && |h| == (if |s| <= n then |s| else n)
      && (forall i, j :: 0 <= i < j < |h| ==> if desc then col(h[i]) >= col(h[j]) else col(h[i]) <= col(h[j]))
      && multiset(h) <= multiset(s)
      && (forall x, y :: x in h && y in s && y !in h ==> if desc then col(x) >= col(y) else col(x) <= col(y))
  {
    HeadOfSorted(s, rank, desc, n);
    OrderByColumn(Head(SortBy(s, rank, desc), n), s, rank, col, desc);
  }

  // ---------------------------------------------------------------------------
  // Top and bottom of a grouped series

  function ValueRank<K>(e: Entry<K>): Rank { Known(e.value) }

  /** The top (desc) or bottom n entries of g by value. */
  lemma HeadByValue<K>(g: seq<Entry<K>>, n: nat, desc: bool)
    ensures var h := Head(SortBy(g, ValueRank, desc), n);
      && |h| == (if |g| <= n then |g| else n)
      && (forall i, j :: 0 <= i < j < |h| ==> if desc then h[i].value >= h[j].value else h[i].value <= h[j].value)
      && multiset(h) <= multiset(g)
      && (forall e, e' :: e in h && e' in g && e' !in h ==>
            if desc then e.value >= e'.value else e.value <= e'.value)
  {
    var h := Head(SortBy(g, ValueRank, desc), n);
    HeadOfSorted(g, ValueRank, desc, n);
    forall i, j | 0 <= i < j < |h| ensures if desc then h[i].value >= h[j].value else h[i].value <= h[j].value {
      assert InOrder(desc, ValueRank(h[i]), ValueRank(h[j]));
    }
    forall e, e' | e in h && e' in g && e' !in h ensures if desc then e.value >= e'.value else e.value <= e'.value {
      assert InOrder(desc, ValueRank(e), ValueRank(e'));
    }
  }

  /**
   * h is a top-n list of the grouped series g: min(n, |g|) of its entries, in
   * non-increasing order, none smaller than an entry of g left out.
   */
  ghost predicate RankedTop<K>(h: seq<Entry<K>>, g: seq<Entry<K>>, n: nat) {
    && |h| == (if |g| <= n then |g| else n)
    && (forall i, j :: 0 <= i < j < |h| ==> h[i].value >= h[j].value)
    && multiset(h) <= multiset(g)
    && (forall e, e' :: e in h && e' in g && e' !in h ==> e.value >= e'.value)
  }

  /**
   * h is a bottom-n list of the grouped series g: min(n, |g|) of its entries,
   * in non-decreasing order, none larger than an entry of g left out.
   */
  ghost predicate RankedBottom<K>(h: seq<Entry<K>>, g: seq<Entry<K>>, n: nat) {
    && |h| == (if |g| <= n then |g| else n)
    && (forall i, j :: 0 <= i < j < |h| ==> h[i].value <= h[j].value)
    && multiset(h) <= multiset(g)
    && (forall e, e' :: e in h && e' in g && e' !in h ==> e.value <= e'.value)
  }

  /** `series.sort_values(ascending=False).head(n)` */
  function Top<K(==)>(g: seq<Entry<K>>, n: nat): (h: seq<Entry<K>>)
    ensures RankedTop(h, g, n)
  {
    HeadByValue(g, n, true);
    Head(SortBy(g, ValueRank, true), n)
  }

  /** `series.sort_values(ascending=True).head(n)` */
  function Bottom<K(==)>(g: seq<Entry<K>>, n: nat): (h: seq<Entry<K>>)
    ensures RankedBottom(h, g, n)
  {
    HeadByValue(g, n, false);
    Head(SortBy(g, ValueRank, false), n)
  }

  /** The first n entries of a series already in non-increasing order are its top n. */
  lemma HeadOfDescending<K>(q: seq<Entry<K>>, n: nat)
    requires forall i, j :: 0 <= i < j < |q| ==> q[i].value >= q[j].value
    ensures RankedTop(Head(q, n), q, n)
  {
    var b := Head(q, n);
    assert q == b + q[|b|..];
    forall e, e' | e in b && e' in q && e' !in b ensures e.value >= e'.value {
      var i :| 0 <= i < |b| && b[i] == e;
      var j :| 0 <= j < |q| && q[j] == e';
    }
  }

  /** `series.sort_values(ascending=False)`: a reordering of g, in non-increasing order. */
  function Descending<K(==)>(g: seq<Entry<K>>): (r: seq<Entry<K>>)
    ensures multiset(r) == multiset(g)
    ensures forall i, j :: 0 <= i < j < |r| ==> r[i].value >= r[j].value
  {
    var r := SortBy(g, ValueRank, true);
    assert forall i, j :: 0 <= i < j < |r| ==> InOrder(true, ValueRank(r[i]), ValueRank(r[j]));
    r
  }

  /** A reordering keeps the labels, and with them their uniqueness. */
  lemma ReorderedLabels<K>(g: seq<Entry<K>>, r: seq<Entry<K>>)
    requires multiset(r) == multiset(g) && UniqueKeys(g)
    ensures UniqueKeys(r)
    ensures Image(r, Key) == Image(g, Key)
  {
    ImagePermutation(r, g, Key);
    assert |r| == |multiset(r)| == |multiset(g)| == |g|;
    NoDuplicateLabels(g);
    UniqueWhenImageFull(r);
  }

  lemma {:induction false} NoDuplicateLabels<K>(g: seq<Entry<K>>)
    requires UniqueKeys(g)
    ensures |Image(g, Key)| == |g|
  {
    if g != [] {
      NoDuplicateLabels(g[1..]);
      assert Image(g, Key) == {Key(g[0])} + Image(g[1..], Key) by {
        assert g == [g[0]] + g[1..];
      }
      assert Key(g[0]) !in Image(g[1..], Key);
    }
  }

  /** No two entries of a grouped series hold the same value. */
  ghost predicate DistinctValues<K>(g: seq<Entry<K>>) {
    forall i, j :: 0 <= i < j < |g| ==> g[i].value != g[j].value
  }

  /**
   * When the values of a series are pairwise different and it has at least 2n
   * entries, its top n and its bottom n share no entry (d is the same series
   * in another order).  With a tie, or with fewer entries, they may.
   */
  lemma TopBottomDisjoint<K>(g: seq<Entry<K>>, d: seq<Entry<K>>, n: nat, t: seq<Entry<K>>, w: seq<Entry<K>>)
    requires multiset(d) == multiset(g) && UniqueKeys(g) && DistinctValues(g) && |g| >= 2 * n
    requires RankedTop(t, g, n) && RankedBottom(w, d, n)
    ensures forall e :: e in t ==> e !in w
  {
    forall e | e in t ensures e !in w {
      if e in w {
        assert e in g by { assert e in multiset(t); }
        AboveBottom(g, d, n, w, e);
        AboveTop(g, n, t, e);
      }
    }
  }

  lemma UniqueEntries<K>(g: seq<Entry<K>>)
    requires UniqueKeys(g)
    ensures |set x | x in g| == |g|
  {
    assert Distinct(g) by {
      forall i, j | 0 <= i < j < |g| ensures g[i] != g[j] {
        assert g[i].key != g[j].key;
      }
    }
    DistinctSize(g);
  }

  /** An entry of a bottom-n list is exceeded by every entry left out of it: at least |g| - n of them. */
  lemma AboveBottom<K>(g: seq<Entry<K>>, d: seq<Entry<K>>, n: nat, w: seq<Entry<K>>, e: Entry<K>)
    requires multiset(d) == multiset(g) && UniqueKeys(g) && DistinctValues(g)
    requires RankedBottom(w, d, n) && e in w && e in g
    ensures |set x | x in g && x.value > e.value| >= |g| - n
  {
    var all := set x | x in g;
    var inW := set x | x in w;
    UniqueEntries(g);
    SetOfSize(w);
    BottomDrawn(g, d, n, w);
    assert all == (all - inW) + inW;
    LeftOutAbove(g, d, n, w, e);
    SubsetSize(all - inW, set x | x in g && x.value > e.value);
  }

  lemma BottomDrawn<K>(g: seq<Entry<K>>, d: seq<Entry<K>>, n: nat, w: seq<Entry<K>>)
    requires multiset(d) == multiset(g) && RankedBottom(w, d, n)
    ensures (set x | x in w) <= (set x | x in g)
  {
    forall x | x in w ensures x in g { assert x in multiset(w) && x in multiset(d); }
  }

  /** Under distinct values, every entry left out of a bottom list lies strictly above each listed one. */
  lemma LeftOutAbove<K>(g: seq<Entry<K>>, d: seq<Entry<K>>, n: nat, w: seq<Entry<K>>, e: Entry<K>)
    requires multiset(d) == multiset(g) && DistinctValues(g)
    requires RankedBottom(w, d, n) && e in w && e in g
    ensures (set x | x in g) - (set x | x in w) <= set x | x in g && x.value > e.value
  {
    var j :| 0 <= j < |g| && g[j] == e;
    forall x | x in g && x !in w ensures x.value > e.value {
      assert x in multiset(d);
      assert e.value <= x.value;
      var i :| 0 <= i < |g| && g[i] == x;
      assert i != j;
      if i < j { assert g[i].value != g[j].value; } else { assert g[j].value != g[i].value; }
    }
  }

  /** An entry of a top-n list is exceeded only by other entries of that list: fewer than n of them. */
  lemma AboveTop<K>(g: seq<Entry<K>>, n: nat, t: seq<Entry<K>>, e: Entry<K>)
    requires RankedTop(t, g, n) && e in t
    ensures |set x | x in g && x.value > e.value| < n
  {
    var above := set x | x in g && x.value > e.value;
    var inT := (set x | x in t) - {e};
    assert above <= inT;
    SubsetSize(above, inT);
    SetOfSize(t);
  }
}
