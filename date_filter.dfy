/**
 * Preparing the order-fact table (dashboard/dashboard.py:59-61) and the
 * sidebar's date-range filter (78-79).
 */
module DateFilter {
  import opened Wrappers
  import opened Frames
  import opened Sorting
  import opened Records

  function ApprovalRank(r: OrderLine): Rank {
    match r.approvedAt
    case None => Missing
    case Some(t) => Known(t)
  }

  /**
   * `all_df.sort_values(by="order_approved_at")` followed by a fresh index:
   * the same rows, approved ones in non-decreasing order of approval and
   * unapproved ones at the end.
   */
  function SortByApproval(rows: seq<OrderLine>): (r: seq<OrderLine>)
    ensures multiset(r) == multiset(rows)
    ensures forall i, j :: 0 <= i < j < |r| && r[j].approvedAt.Some? ==>
      r[i].approvedAt.Some? && r[i].approvedAt.value <= r[j].approvedAt.value
  {
    var r := SortBy(rows, ApprovalRank, false);
    assert forall i, j :: 0 <= i < j < |r| ==> InOrder(false, ApprovalRank(r[i]), ApprovalRank(r[j]));
    r
  }

  /**
   * `start_date <= order_approved_at <= end_date`, each date converted by
   * `pd.to_datetime` to its midnight.  A NaT timestamp compares false.
   */
  predicate InWindow(r: OrderLine, startDay: int, endDay: int) {
    match r.approvedAt
    case None => false
    case Some(t) => Midnight(startDay) <= t <= Midnight(endDay)
  }

  /** `main_df`: the rows inside the chosen window, in their original order. */
  function FilterByDate(rows: seq<OrderLine>, startDay: int, endDay: int): (r: seq<OrderLine>)
    ensures |r| <= |rows|
    ensures forall x :: x in r <==> x in rows && InWindow(x, startDay, endDay)
    ensures startDay > endDay ==> r == []
  {
    if rows == [] then []
    else if InWindow(rows[0], startDay, endDay) then [rows[0]] + FilterByDate(rows[1..], startDay, endDay)
    else FilterByDate(rows[1..], startDay, endDay)
  }

  /** The positions of the input at which the filter keeps a row. */
  function Positions(rows: seq<OrderLine>, startDay: int, endDay: int): (p: seq<int>)
    ensures |p| == |FilterByDate(rows, startDay, endDay)|
  {
    if rows == [] then []
    else
      var tail := Shift(Positions(rows[1..], startDay, endDay));
      if InWindow(rows[0], startDay, endDay) then [0] + tail else tail
  }

  function Shift(p: seq<int>): (r: seq<int>)
    ensures |r| == |p| && forall k :: 0 <= k < |p| ==> r[k] == p[k] + 1
  {
    seq(|p|, k requires 0 <= k < |p| => p[k] + 1)
  }

  lemma {:induction false} PositionsBounded(rows: seq<OrderLine>, startDay: int, endDay: int)
    ensures forall k :: 0 <= k < |Positions(rows, startDay, endDay)| ==> 0 <= Positions(rows, startDay, endDay)[k] < |rows|
  {
    if rows != [] {
      var rest := rows[1..];
      PositionsBounded(rest, startDay, endDay);
      var p := Positions(rows, startDay, endDay);
      var tail := Shift(Positions(rest, startDay, endDay));
      assert forall k :: 0 <= k < |tail| ==> 1 <= tail[k] < |rows|;
      if InWindow(rows[0], startDay, endDay) {
        assert p == [0] + tail;
      } else {
        assert p == tail;
      }
    }
  }

  lemma {:induction false} PositionsIncrease(rows: seq<OrderLine>, startDay: int, endDay: int)
    ensures forall k, l :: 0 <= k < l < |Positions(rows, startDay, endDay)| ==>
      Positions(rows, startDay, endDay)[k] < Positions(rows, startDay, endDay)[l]
  {
    if rows != [] {
      var rest := rows[1..];
      PositionsIncrease(rest, startDay, endDay);
      PositionsBounded(rest, startDay, endDay);
      var p := Positions(rows, startDay, endDay);
      var tail := Shift(Positions(rest, startDay, endDay));
      assert forall k, l :: 0 <= k < l < |tail| ==> tail[k] < tail[l];
      if InWindow(rows[0], startDay, endDay) {
        assert p == [0] + tail;
        assert forall k :: 1 <= k < |p| ==> p[k] == tail[k - 1] >= 1;
      } else {
        assert p == tail;
      }
    }
  }

  lemma {:induction false} PositionsPick(rows: seq<OrderLine>, startDay: int, endDay: int)
    ensures forall k :: 0 <= k < |Positions(rows, startDay, endDay)| && 0 <= Positions(rows, startDay, endDay)[k] < |rows| ==>
      FilterByDate(rows, startDay, endDay)[k] == rows[Positions(rows, startDay, endDay)[k]]
  {
    if rows != [] {
      var rest := rows[1..];
      PositionsPick(rest, startDay, endDay);
      PositionsBounded(rest, startDay, endDay);
      var p, f := Positions(rows, startDay, endDay), FilterByDate(rows, startDay, endDay);
      var tp, ft := Positions(rest, startDay, endDay), FilterByDate(rest, startDay, endDay);
      var tail := Shift(tp);
      forall k | 0 <= k < |p| && 0 <= p[k] < |rows| ensures f[k] == rows[p[k]] {
        if InWindow(rows[0], startDay, endDay) {
          assert p == [0] + tail && f == [rows[0]] + ft;
          if k > 0 {
            assert p[k] == tail[k - 1] == tp[k - 1] + 1;
            assert f[k] == ft[k - 1] == rest[tp[k - 1]];
          }
        } else {
          assert p == tail && f == ft;
          assert p[k] == tp[k] + 1;
          assert f[k] == rest[tp[k]];
        }
      }
    }
  }

  lemma {:induction false} PositionsCover(rows: seq<OrderLine>, startDay: int, endDay: int)
    ensures forall j :: 0 <= j < |rows| && InWindow(rows[j], startDay, endDay) ==> j in Positions(rows, startDay, endDay)
  {
    if rows != [] {
      var rest := rows[1..];
      PositionsCover(rest, startDay, endDay);
      var p := Positions(rows, startDay, endDay);
      var tail := Shift(Positions(rest, startDay, endDay));
      forall j | 1 <= j < |rows| && InWindow(rows[j], startDay, endDay) ensures j in p {
        assert rest[j - 1] == rows[j];
        var k :| 0 <= k < |Positions(rest, startDay, endDay)| && Positions(rest, startDay, endDay)[k] == j - 1;
        assert tail[k] == j;
      }
    }
  }

  /**
   * The filter keeps exactly the rows inside the window and drops the others
   * without reordering: the kept rows sit at strictly increasing positions of
   * the input, and every position holding a row inside the window is kept.
   */
  lemma FilterKeepsOrder(rows: seq<OrderLine>, startDay: int, endDay: int) returns (idx: seq<int>)
    ensures |idx| == |FilterByDate(rows, startDay, endDay)|
    ensures forall k :: 0 <= k < |idx| ==> 0 <= idx[k] < |rows| && FilterByDate(rows, startDay, endDay)[k] == rows[idx[k]]
    ensures forall k, l :: 0 <= k < l < |idx| ==> idx[k] < idx[l]
    ensures forall j :: 0 <= j < |rows| && InWindow(rows[j], startDay, endDay) ==> j in idx
  {
    idx := Positions(rows, startDay, endDay);
    PositionsBounded(rows, startDay, endDay);
    PositionsIncrease(rows, startDay, endDay);
    PositionsPick(rows, startDay, endDay);
    PositionsCover(rows, startDay, endDay);
  }

  /**
   * Every kept row falls on a day from startDay to endDay; on the end day
   * itself only a row approved exactly at midnight is kept.
   */
  lemma FilterDays(rows: seq<OrderLine>, startDay: int, endDay: int)
    ensures forall x :: x in FilterByDate(rows, startDay, endDay) ==>
      x.approvedAt.Some? && startDay <= Day(x.approvedAt.value) <= endDay
      && (Day(x.approvedAt.value) == endDay ==> x.approvedAt.value == Midnight(endDay))
  {
    forall x | x in FilterByDate(rows, startDay, endDay)
      ensures x.approvedAt.Some? && startDay <= Day(x.approvedAt.value) <= endDay
      ensures Day(x.approvedAt.value) == endDay ==> x.approvedAt.value == Midnight(endDay)
    {
      DayBounds(x.approvedAt.value);
    }
  }

  /** `main_df` as the dashboard builds it: the sorted table, filtered. */
  function MainFrame(all: seq<OrderLine>, startDay: int, endDay: int): seq<OrderLine> {
    FilterByDate(SortByApproval(all), startDay, endDay)
  }

  /** The rows of `main_df` are all approved, and in non-decreasing order of approval. */
  lemma MainFrameSorted(all: seq<OrderLine>, startDay: int, endDay: int)
    ensures var m := MainFrame(all, startDay, endDay);
      && (forall x :: x in m ==> x.approvedAt.Some?)
      && (forall i, j :: 0 <= i < j < |m| ==> m[i].approvedAt.value <= m[j].approvedAt.value)
  {
    var s := SortByApproval(all);
    var m := MainFrame(all, startDay, endDay);
    var idx := FilterKeepsOrder(s, startDay, endDay);
    assert forall x :: x in m ==> x.approvedAt.Some?;
    forall i, j | 0 <= i < j < |m| ensures m[i].approvedAt.value <= m[j].approvedAt.value {
      assert m[i] in m && m[j] in m;
      var a, b := idx[i], idx[j];
      assert a < b && m[i] == s[a] && m[j] == s[b];
      assert s[b].approvedAt.Some?;
    }
  }
}
