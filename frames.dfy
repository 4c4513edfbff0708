/**
 * The small piece of pandas that the dashboard's derived tables are built from:
 * boolean-mask selection, column sums, distinct values, and `groupby(key)`
 * followed by `sum`, `count` or `nunique`.  A table is a sequence of rows and a
 * column is a function from a row to its value.
 */
module Frames {

  /** One group of a grouped series: the group label and its aggregate. */
  datatype Entry<K> = Entry(key: K, value: int)

  function Key<K>(e: Entry<K>): K { e.key }
  function Value<K>(e: Entry<K>): int { e.value }

  /** The constant-one column: `count()` of a non-null column is the sum of it. */
  function One<T>(x: T): int { 1 }

  ghost predicate Distinct<K>(s: seq<K>) {
    forall i, j :: 0 <= i < j < |s| ==> s[i] != s[j]
  }

  /** No two entries of a grouped series share a label. */
  ghost predicate UniqueKeys<K>(g: seq<Entry<K>>) {
    forall i, j :: 0 <= i < j < |g| ==> g[i].key != g[j].key
  }

  /** `df[df[key] == k]`: the rows whose key is k, in their original order. */
  function Where<T(==,!new), K(==,!new)>(rows: seq<T>, key: T -> K, k: K): (r: seq<T>)
    ensures |r| <= |rows|
    ensures forall x :: x in r <==> x in rows && key(x) == k
  {
    if rows == [] then []
    else if key(rows[0]) == k then [rows[0]] + Where(rows[1..], key, k)
    else Where(rows[1..], key, k)
  }

  /** `df[df[key].isin(ks)]`: the rows whose key is one of ks, in their original order. */
  function WhereIn<T(==,!new), K(==,!new)>(rows: seq<T>, key: T -> K, ks: seq<K>): (r: seq<T>)
    ensures |r| <= |rows|
    ensures forall x :: x in r <==> x in rows && key(x) in ks
  {
    if rows == [] then []
    else if key(rows[0]) in ks then [rows[0]] + WhereIn(rows[1..], key, ks)
    else WhereIn(rows[1..], key, ks)
  }

  /** `df[col].sum()`; the sum of no rows is 0. */
  function Sum<T>(rows: seq<T>, f: T -> int): int {
    if rows == [] then 0 else f(rows[0]) + Sum(rows[1..], f)
  }

  /** The distinct values of a column (`df[col].unique()` as a set). */
  function Image<T(==), U(==)>(rows: seq<T>, f: T -> U): set<U> {
    set x | x in rows :: f(x)
  }

  /** A column as a sequence of values. */
  function Column<T, K>(rows: seq<T>, key: T -> K): (c: seq<K>)
    ensures |c| == |rows|
    ensures forall i :: 0 <= i < |rows| ==> c[i] == key(rows[i])
  {
    seq(|rows|, i requires 0 <= i < |rows| => key(rows[i]))
  }

  /** The distinct values of s in the order in which each first occurs. */
  function FirstSeen<K(==,!new)>(s: seq<K>): (u: seq<K>)
    ensures forall x :: x in u <==> x in s
    ensures Distinct(u)
  {
    if s == [] then []
    else
      var u := FirstSeen(s[..|s| - 1]);
      assert s == s[..|s| - 1] + [s[|s| - 1]];
      if s[|s| - 1] in u then u else u + [s[|s| - 1]]
  }

  /** Appending a value adds it to the first-seen list unless it was seen already. */
  lemma FirstSeenSnoc<K(!new)>(s: seq<K>, x: K)
    ensures FirstSeen(s + [x]) == if x in FirstSeen(s) then FirstSeen(s) else FirstSeen(s) + [x]
  {
    assert (s + [x])[..|s|] == s;
  }

  /** The first-seen list of a prefix is a prefix of the first-seen list. */
  lemma {:induction false} FirstSeenPrefix<K(!new)>(s: seq<K>, k: nat)
    requires k <= |s|
    ensures FirstSeen(s[..k]) <= FirstSeen(s)
  {
    if k < |s| {
      var init := s[..|s| - 1];
      FirstSeenPrefix(init, k);
      assert init[..k] == s[..k];
      assert init == s[..|s| - 1];
    } else {
      assert s[..k] == s;
    }
  }

  /** The group labels of `df.groupby(key)`, in first-seen order. */
  function KeysOf<T(==,!new), K(==,!new)>(rows: seq<T>, key: T -> K): (ks: seq<K>)
    ensures Distinct(ks)
    ensures forall k :: k in ks <==> k in Image(rows, key)
  {
    var c := Column(rows, key);
    assert forall k :: k in c <==> k in Image(rows, key) by {
      forall k | k in Image(rows, key) ensures k in c {
        var x :| x in rows && key(x) == k;
        var i :| 0 <= i < |rows| && rows[i] == x;
        assert c[i] == k;
      }
    }
    FirstSeen(c)
  }

  /** For each label in ks, the sum of val over the rows with that label. */
  function TallySum<T(==,!new), K(==,!new)>(rows: seq<T>, key: T -> K, ks: seq<K>, val: T -> int): (g: seq<Entry<K>>)
    ensures |g| == |ks|
    ensures forall i :: 0 <= i < |ks| ==> g[i].key == ks[i]
  {
    if ks == [] then []
    else [Entry(ks[0], Sum(Where(rows, key, ks[0]), val))] + TallySum(rows, key, ks[1..], val)
  }

  /** For each label in ks, the number of distinct item values over the rows with that label. */
  function TallyDistinct<T(==,!new), K(==,!new), U(==)>(rows: seq<T>, key: T -> K, ks: seq<K>, item: T -> U): (g: seq<Entry<K>>)
    ensures |g| == |ks|
    ensures forall i :: 0 <= i < |ks| ==> g[i].key == ks[i]
  {
    if ks == [] then []
    else [Entry(ks[0], |Image(Where(rows, key, ks[0]), item)|)] + TallyDistinct(rows, key, ks[1..], item)
  }

  /** `df.groupby(key)[val].sum()` */
  function GroupSum<T(==,!new), K(==,!new)>(rows: seq<T>, key: T -> K, val: T -> int): seq<Entry<K>> {
    TallySum(rows, key, KeysOf(rows, key), val)
  }

  /** `df.groupby(key)[col].count()` for a column with no missing values. */
  function GroupCount<T(==,!new), K(==,!new)>(rows: seq<T>, key: T -> K): seq<Entry<K>> {
    GroupSum(rows, key, One)
  }

  /** `df.groupby(key)[item].nunique()` */
  function GroupDistinct<T(==,!new), K(==,!new), U(==)>(rows: seq<T>, key: T -> K, item: T -> U): seq<Entry<K>> {
    TallyDistinct(rows, key, KeysOf(rows, key), item)
  }

  /** Within the rows whose label is in ks, equal items always carry equal labels. */
  ghost predicate Determines<T, K, U>(rows: seq<T>, key: T -> K, ks: seq<K>, item: T -> U) {
    forall x, y :: x in rows && y in rows && key(x) in ks && key(y) in ks && item(x) == item(y) ==> key(x) == key(y)
  }

  // ---------------------------------------------------------------------------
  // Sums

  lemma SumAppend<T>(a: seq<T>, b: seq<T>, f: T -> int)
    ensures Sum(a + b, f) == Sum(a, f) + Sum(b, f)
  {
    if a != [] {
      assert (a + b)[0] == a[0];
      assert (a + b)[1..] == a[1..] + b;
      SumAppend(a[1..], b, f);
    } else {
      assert a + b == b;
    }
  }

  /** Two columns that agree position by position have the same sum. */
  lemma {:induction false} SumPointwise<A, B>(a: seq<A>, f: A -> int, b: seq<B>, g: B -> int)
    requires |a| == |b|
    requires forall i :: 0 <= i < |a| ==> f(a[i]) == g(b[i])
    ensures Sum(a, f) == Sum(b, g)
  {
    if a != [] {
      assert forall i :: 0 <= i < |a| - 1 ==> a[1..][i] == a[i + 1] && b[1..][i] == b[i + 1];
      SumPointwise(a[1..], f, b[1..], g);
    }
  }

  lemma {:induction false} SumOne<T>(rows: seq<T>)
    ensures Sum(rows, One) == |rows|
  {
    if rows != [] { SumOne(rows[1..]); }
  }

  /** Taking one row out of a column takes its value out of the sum. */
  lemma {:induction false} SumRemove<T>(b: seq<T>, i: nat, f: T -> int)
    requires i < |b|
    ensures Sum(b, f) == f(b[i]) + Sum(b[..i] + b[i + 1..], f)
  {
    if i == 0 {
      assert b[..0] + b[1..] == b[1..];
    } else {
      var c := b[1..];
      SumRemove(c, i - 1, f);
      var rest := b[..i] + b[i + 1..];
      assert rest[0] == b[0];
      assert rest[1..] == c[..i - 1] + c[i..];
    }
  }

  /** Taking one row out of a table takes it out of its multiset. */
  lemma MultisetSplit<T>(b: seq<T>, i: nat)
    requires i < |b|
    ensures multiset(b) == multiset(b[..i] + b[i + 1..]) + multiset{b[i]}
  {
    assert b == b[..i] + [b[i]] + b[i + 1..];
  }

  /** A sum does not depend on the order of the rows. */
  lemma {:induction false} SumPermutation<T>(a: seq<T>, b: seq<T>, f: T -> int)
    requires multiset(a) == multiset(b)
    ensures Sum(a, f) == Sum(b, f)
  {
    if a == [] {
      assert |b| == |multiset(b)| == 0;
    } else {
      var i := IndexIn(b, a[0]);
      var rest := b[..i] + b[i + 1..];
      MultisetRest(a, b, i);
      SumPermutation(a[1..], rest, f);
      SumRemove(b, i, f);
    }
  }

  /** Matching the first row of a with row i of b leaves two tables with the same rows. */
  lemma MultisetRest<T>(a: seq<T>, b: seq<T>, i: nat)
    requires a != [] && i < |b| && b[i] == a[0] && multiset(a) == multiset(b)
    ensures multiset(a[1..]) == multiset(b[..i] + b[i + 1..])
  {
    MultisetSplit(b, i);
    MultisetSplit(a, 0);
    assert a[..0] + a[1..] == a[1..];
    MultisetCancel(multiset(a[1..]), multiset(b[..i] + b[i + 1..]), a[0]);
  }

  lemma MultisetCancel<T>(p: multiset<T>, q: multiset<T>, x: T)
    requires p + multiset{x} == q + multiset{x}
    ensures p == q
  {
    assert forall y :: p[y] == (p + multiset{x})[y] - multiset{x}[y];
    assert forall y :: q[y] == (q + multiset{x})[y] - multiset{x}[y];
  }

  /** A position of a value that occurs in a sequence. */
  lemma IndexIn<T>(b: seq<T>, x: T) returns (i: nat)
    requires x in multiset(b)
    ensures i < |b| && b[i] == x
  {
    i :| 0 <= i < |b| && b[i] == x;
  }


  // ---------------------------------------------------------------------------
  // Selections

  lemma {:induction false} WhereInNone<T(!new), K(!new)>(rows: seq<T>, key: T -> K)
    ensures WhereIn(rows, key, []) == []
  {
    if rows != [] { WhereInNone(rows[1..], key); }
  }

  /** Selecting the label every row carries keeps the whole table. */
  lemma {:induction false} WhereAll<T(!new), K(!new)>(rows: seq<T>, key: T -> K, k: K)
    requires forall x :: x in rows ==> key(x) == k
    ensures Where(rows, key, k) == rows
  {
    if rows != [] {
      assert forall x :: x in rows[1..] ==> x in rows;
      WhereAll(rows[1..], key, k);
    }
  }

  /** Selecting on a set of labels that covers every row keeps the whole table. */
  lemma {:induction false} WhereInAll<T(!new), K(!new)>(rows: seq<T>, key: T -> K, ks: seq<K>)
    requires forall x :: x in rows ==> key(x) in ks
    ensures WhereIn(rows, key, ks) == rows
  {
    if rows != [] {
      assert forall x :: x in rows[1..] ==> x in rows;
      WhereInAll(rows[1..], key, ks);
      assert key(rows[0]) in ks;
      assert rows == [rows[0]] + rows[1..];
    }
  }

  lemma {:induction false} SumWhereSplit<T(!new), K(!new)>(rows: seq<T>, key: T -> K, k: K, ks: seq<K>, val: T -> int)
    requires k !in ks
    ensures Sum(WhereIn(rows, key, [k] + ks), val) == Sum(Where(rows, key, k), val) + Sum(WhereIn(rows, key, ks), val)
  {
    if rows != [] {
      SumWhereSplit(rows[1..], key, k, ks, val);
    }
  }

  lemma ImageUnion<T(!new), K(!new), U>(rows: seq<T>, key: T -> K, k: K, ks: seq<K>, item: T -> U)
    ensures Image(WhereIn(rows, key, [k] + ks), item) == Image(Where(rows, key, k), item) + Image(WhereIn(rows, key, ks), item)
  {
    var a := Image(WhereIn(rows, key, [k] + ks), item);
    var b := Image(Where(rows, key, k), item) + Image(WhereIn(rows, key, ks), item);
    forall y | y in a ensures y in b {
      var x :| x in WhereIn(rows, key, [k] + ks) && item(x) == y;
      if key(x) == k { assert x in Where(rows, key, k); } else { assert x in WhereIn(rows, key, ks); }
    }
    forall y | y in b ensures y in a {
      if y in Image(Where(rows, key, k), item) {
        var x :| x in Where(rows, key, k) && item(x) == y;
        assert x in WhereIn(rows, key, [k] + ks);
      } else {
        var x :| x in WhereIn(rows, key, ks) && item(x) == y;
        assert x in WhereIn(rows, key, [k] + ks);
      }
    }
  }

  /** There are never more distinct values than rows. */
  lemma {:induction false} ImageSize<T, U>(rows: seq<T>, f: T -> U)
    ensures |Image(rows, f)| <= |rows|
    ensures rows != [] ==> |Image(rows, f)| >= 1
  {
    if rows != [] {
      ImageSize(rows[1..], f);
      assert Image(rows, f) == {f(rows[0])} + Image(rows[1..], f) by {
        assert rows == [rows[0]] + rows[1..];
      }
      assert f(rows[0]) in Image(rows, f);
    }
  }

  // ---------------------------------------------------------------------------
  // Totals of a grouped series

  /**
   * Summing a tally over distinct labels gives the sum of the column over the
   * rows carrying one of those labels: no row is counted twice or lost.
   */
  lemma {:induction false} TallySumTotal<T(!new), K(!new)>(rows: seq<T>, key: T -> K, ks: seq<K>, val: T -> int)
    requires Distinct(ks)
    ensures Sum(TallySum(rows, key, ks, val), Value) == Sum(WhereIn(rows, key, ks), val)
  {
    if ks == [] {
      WhereInNone(rows, key);
    } else {
      assert ks == [ks[0]] + ks[1..];
      assert ks[0] !in ks[1..];
      TallySumTotal(rows, key, ks[1..], val);
      SumWhereSplit(rows, key, ks[0], ks[1..], val);
    }
  }

  /**
   * The distinct counts of a tally add up to at least the number of distinct
   * items overall, and to exactly that number when an item never appears under
   * two labels.
   */
  lemma {:induction false} TallyDistinctTotal<T(!new), K(!new), U>(rows: seq<T>, key: T -> K, ks: seq<K>, item: T -> U)
    requires Distinct(ks)
    ensures Sum(TallyDistinct(rows, key, ks, item), Value) >= |Image(WhereIn(rows, key, ks), item)|
    ensures Determines(rows, key, ks, item) ==>
      Sum(TallyDistinct(rows, key, ks, item), Value) == |Image(WhereIn(rows, key, ks), item)|
  {
    if ks == [] {
      WhereInNone(rows, key);
      assert Image([], item) == {};
    } else {
      var k, rest := ks[0], ks[1..];
      assert ks == [k] + rest;
      assert k !in rest;
      TallyDistinctTotal(rows, key, rest, item);
      ImageUnion(rows, key, k, rest, item);
      var a := Image(Where(rows, key, k), item);
      var b := Image(WhereIn(rows, key, rest), item);
      if Determines(rows, key, ks, item) {
        assert Determines(rows, key, rest, item);
        forall y | y in a ensures y !in b {
          var x1 :| x1 in Where(rows, key, k) && item(x1) == y;
          forall x2 | x2 in WhereIn(rows, key, rest) ensures item(x2) != y {
            assert key(x2) != key(x1);
          }
        }
        assert a * b == {};
      }
    }
  }

  // ---------------------------------------------------------------------------
  // What a grouped series contains

  /**
   * `groupby(key)[val].sum()`: exactly one entry per distinct label present,
   * each holding the sum of val over that label's rows; the entries add up to
   * the column total.
   */
  lemma GroupSumSpec<T(!new), K(!new)>(rows: seq<T>, key: T -> K, val: T -> int)
    ensures UniqueKeys(GroupSum(rows, key, val))
    ensures |GroupSum(rows, key, val)| == |Image(rows, key)|
    ensures Image(GroupSum(rows, key, val), Key) == Image(rows, key)
    ensures forall e :: e in GroupSum(rows, key, val) ==> e.value == Sum(Where(rows, key, e.key), val)
    ensures Sum(GroupSum(rows, key, val), Value) == Sum(rows, val)
  {
    var ks := KeysOf(rows, key);
    GroupLabels(rows, key, GroupSum(rows, key, val));
    TallyContents(rows, key, ks, val);
    TallySumTotal(rows, key, ks, val);
    CoveringKeys(rows, key);
  }

  /** `groupby(key)[col].count()`: one entry per label, each the (positive) number of its rows; the counts add up to the row count. */
  lemma GroupCountSpec<T(!new), K(!new)>(rows: seq<T>, key: T -> K)
    ensures UniqueKeys(GroupCount(rows, key))
    ensures |GroupCount(rows, key)| == |Image(rows, key)|
    ensures Image(GroupCount(rows, key), Key) == Image(rows, key)
    ensures forall e :: e in GroupCount(rows, key) ==> e.value == |Where(rows, key, e.key)| >= 1
    ensures Sum(GroupCount(rows, key), Value) == |rows|
  {
    GroupSumSpec(rows, key, One);
    SumOne(rows);
    var g := GroupCount(rows, key);
    forall e | e in g ensures e.value == |Where(rows, key, e.key)| >= 1 {
      SumOne(Where(rows, key, e.key));
      LabelHasRow(rows, key, g, e);
    }
  }

  /**
   * `groupby(key)[item].nunique()`: one entry per label, each the number of
   * distinct items among its rows, at least 1 and at most its row count. The
   * counts add up to at least the number of distinct items, and to exactly it
   * when no item appears under two labels.
   */
  lemma GroupDistinctSpec<T(!new), K(!new), U>(rows: seq<T>, key: T -> K, item: T -> U)
    ensures UniqueKeys(GroupDistinct(rows, key, item))
    ensures |GroupDistinct(rows, key, item)| == |Image(rows, key)|
    ensures Image(GroupDistinct(rows, key, item), Key) == Image(rows, key)
    ensures forall e :: e in GroupDistinct(rows, key, item) ==>
      e.value == |Image(Where(rows, key, e.key), item)| && 1 <= e.value <= |Where(rows, key, e.key)|
    ensures Sum(GroupDistinct(rows, key, item), Value) >= |Image(rows, item)|
    ensures Determines(rows, key, KeysOf(rows, key), item) ==>
      Sum(GroupDistinct(rows, key, item), Value) == |Image(rows, item)|
  {
    var ks := KeysOf(rows, key);
    var g := GroupDistinct(rows, key, item);
    GroupLabels(rows, key, g);
    DistinctContents(rows, key, ks, item);
    TallyDistinctTotal(rows, key, ks, item);
    CoveringKeys(rows, key);
    forall e | e in g ensures 1 <= e.value <= |Where(rows, key, e.key)| {
      LabelHasRow(rows, key, g, e);
      ImageSize(Where(rows, key, e.key), item);
    }
  }

  // ---------------------------------------------------------------------------
  // Helpers for the three specifications above

  lemma {:induction false} TallyContents<T(!new), K(!new)>(rows: seq<T>, key: T -> K, ks: seq<K>, val: T -> int)
    ensures forall e :: e in TallySum(rows, key, ks, val) ==> e.value == Sum(Where(rows, key, e.key), val)
  {
    if ks != [] { TallyContents(rows, key, ks[1..], val); }
  }

  lemma {:induction false} DistinctContents<T(!new), K(!new), U>(rows: seq<T>, key: T -> K, ks: seq<K>, item: T -> U)
    ensures forall e :: e in TallyDistinct(rows, key, ks, item) ==> e.value == |Image(Where(rows, key, e.key), item)|
  {
    if ks != [] { DistinctContents(rows, key, ks[1..], item); }
  }

  /** A series labelled, position by position, by the group labels of the table. */
  lemma GroupLabels<T(!new), K(!new)>(rows: seq<T>, key: T -> K, g: seq<Entry<K>>)
    requires |g| == |KeysOf(rows, key)|
    requires forall i :: 0 <= i < |g| ==> g[i].key == KeysOf(rows, key)[i]
    ensures UniqueKeys(g)
    ensures |g| == |Image(rows, key)|
    ensures Image(g, Key) == Image(rows, key)
  {
    var ks := KeysOf(rows, key);
    KeyImage(g, ks);
    DistinctSize(ks);
    assert (set k | k in ks) == Image(rows, key);
  }

  /** The group labels cover every row, so selecting on all of them keeps the table. */
  lemma CoveringKeys<T(!new), K(!new)>(rows: seq<T>, key: T -> K)
    ensures WhereIn(rows, key, KeysOf(rows, key)) == rows
  {
    forall x | x in rows ensures key(x) in KeysOf(rows, key) {
      assert key(x) in Image(rows, key);
    }
    WhereInAll(rows, key, KeysOf(rows, key));
  }

  /** Every label of a grouped series has at least one row. */
  lemma LabelHasRow<T(!new), K(!new)>(rows: seq<T>, key: T -> K, g: seq<Entry<K>>, e: Entry<K>)
    requires Image(g, Key) == Image(rows, key) && e in g
    ensures |Where(rows, key, e.key)| >= 1
  {
    assert Key(e) in Image(g, Key);
    var x :| x in rows && key(x) == e.key;
    assert x in Where(rows, key, e.key);
  }

  /** A series whose labels are, position by position, the distinct labels ks. */
  lemma KeyImage<K>(g: seq<Entry<K>>, ks: seq<K>)
    requires |g| == |ks| && Distinct(ks)
    requires forall i :: 0 <= i < |ks| ==> g[i].key == ks[i]
    ensures UniqueKeys(g)
    ensures Image(g, Key) == set k | k in ks
  {
    forall k | k in ks ensures k in Image(g, Key) {
      var i :| 0 <= i < |ks| && ks[i] == k;
      assert Key(g[i]) == k;
    }
  }

  lemma {:induction false} DistinctSize<K>(ks: seq<K>)
    requires Distinct(ks)
    ensures |set k | k in ks| == |ks|
  {
    if ks != [] {
      DistinctSize(ks[1..]);
      assert (set k | k in ks) == {ks[0]} + (set k | k in ks[1..]) by {
        assert ks == [ks[0]] + ks[1..];
      }
      assert ks[0] !in (set k | k in ks[1..]);
    }
  }

  lemma {:induction false} SetOfSize<K>(s: seq<K>)
    ensures |set k | k in s| <= |s|
  {
    if s != [] {
      SetOfSize(s[1..]);
      assert (set k | k in s) == {s[0]} + (set k | k in s[1..]) by {
        assert s == [s[0]] + s[1..];
      }
    }
  }

  /** A list shorter than a list without repeats misses one of its elements. */
  lemma SomeLeftOut<K>(h: seq<K>, t: seq<K>)
    requires Distinct(t) && |h| < |t|
    ensures exists y :: y in t && y !in h
  {
    if forall y :: y in t ==> y in h {
      DistinctSize(t);
      SetOfSize(h);
      SubsetSize(set y | y in t, set y | y in h);
    }
  }

  lemma SubsetSize<U>(a: set<U>, b: set<U>)
    requires a <= b
    ensures |a| <= |b|
  {
    assert b == a + (b - a);
  }

  /** Two tables with the same rows (in any order) have the same distinct values. */
  lemma ImagePermutation<T, U>(a: seq<T>, b: seq<T>, f: T -> U)
    requires multiset(a) == multiset(b)
    ensures Image(a, f) == Image(b, f)
  {
    forall y | y in Image(a, f) ensures y in Image(b, f) {
      var x :| x in a && f(x) == y;
      assert x in multiset(b);
    }
    forall y | y in Image(b, f) ensures y in Image(a, f) {
      var x :| x in b && f(x) == y;
      assert x in multiset(a);
    }
  }

  /** A sequence carries each label at most once exactly when it has as many distinct labels as entries. */
  lemma {:induction false} UniqueWhenImageFull<K>(g: seq<Entry<K>>)
    requires |Image(g, Key)| == |g|
    ensures UniqueKeys(g)
  {
    if !UniqueKeys(g) {
      var i, j :| 0 <= i < j < |g| && g[i].key == g[j].key;
      var g' := g[..j] + g[j + 1..];
      assert g == g[..j] + [g[j]] + g[j + 1..];
      forall y | y in Image(g, Key) ensures y in Image(g', Key) {
        var x :| x in g && Key(x) == y;
        if x == g[j] {
          assert g'[i] == g[i] && g'[i] in g' && Key(g'[i]) == y;
        } else {
          assert x in g';
        }
      }
      ImageSize(g', Key);
      SubsetSize(Image(g, Key), Image(g', Key));
      assert false;
    }
  }
}
