/**
 * `create_daily_orders_df` (dashboard/dashboard.py:12-23) and the two totals
 * shown above the daily-orders chart (96, 100).
 */
module DailyOrders {
  import opened Wrappers
  import opened Frames
  import opened Records
  import opened DateFilter

  /** One row of `daily_orders_df`: a calendar day, its distinct orders and its revenue. */
  datatype DayBucket = DayBucket(day: int, orderCount: int, revenue: int)

  function OrderCount(b: DayBucket): int { b.orderCount }
  function Revenue(b: DayBucket): int { b.revenue }

  /** The rows approved on day d. */
  function OnDay(rows: seq<OrderLine>, d: int): seq<OrderLine> {
    Where(rows, ApprovalDay, Some(d))
  }

  /** The rows `resample(on="order_approved_at")` looks at: those whose timestamp is not NaT. */
  function Approved(rows: seq<OrderLine>): seq<OrderLine> {
    Where(rows, IsApproved, true)
  }

  /** The labels of n consecutive days starting at first. */
  function DayKeys(first: int, n: nat): (ks: seq<Option<int>>)
    ensures |ks| == n
    ensures forall i :: 0 <= i < n ==> ks[i] == Some(first + i)
  {
    seq(n, i requires 0 <= i < n => Some(first + i))
  }

  /** The bucket of day d: the distinct orders and the sum of prices of the rows approved that day. */
  function Bucket(rows: seq<OrderLine>, d: int): DayBucket {
    DayBucket(d, |Image(OnDay(rows, d), OrderId)|, Sum(OnDay(rows, d), Price))
  }

  /** One bucket per day from first to first + n - 1. */
  function Buckets(rows: seq<OrderLine>, first: int, n: nat): seq<DayBucket>
    decreases n
  {
    if n == 0 then [] else [Bucket(rows, first)] + Buckets(rows, first + 1, n - 1)
  }

  /** The earliest approval is never after the latest. */
  lemma ApprovalSpan(rows: seq<OrderLine>)
    ensures EarliestApproval(rows).Some? <==> LatestApproval(rows).Some?
    ensures EarliestApproval(rows).Some? ==> EarliestApproval(rows).value <= LatestApproval(rows).value
  {
    if EarliestApproval(rows).Some? {
      var r :| r in rows && r.approvedAt == EarliestApproval(rows);
    }
  }

  /**
   * `df.resample(rule='D', on='order_approved_at').agg(...)`: one bucket for
   * every calendar day from the day of the earliest approval to the day of the
   * latest, none when no row is approved.
   */
  function DailyOrders(rows: seq<OrderLine>): seq<DayBucket> {
    Buckets(rows, FirstDay(rows), DayCount(rows))
  }

  /** The day of the earliest approval (0 when there is none). */
  function FirstDay(rows: seq<OrderLine>): int {
    match EarliestApproval(rows)
    case None => 0
    case Some(lo) => Day(lo)
  }

  /** The number of days from the earliest approval's to the latest's, both included; 0 when none is approved. */
  function DayCount(rows: seq<OrderLine>): nat {
    var lo := EarliestApproval(rows);
    var hi := LatestApproval(rows);
    if lo.None? || hi.None? then 0
    else
      ApprovalSpan(rows);
      DayMonotone(lo.value, hi.value);
      Day(hi.value) - Day(lo.value) + 1
  }

  /** `daily_orders_df.order_count.sum()` */
  function TotalOrders(b: seq<DayBucket>): int { Sum(b, OrderCount) }

  /** `daily_orders_df.revenue.sum()`, before currency formatting. */
  function TotalRevenue(b: seq<DayBucket>): int { Sum(b, Revenue) }

  // ---------------------------------------------------------------------------
  // What the rollup contains

  lemma {:induction false} BucketsContents(rows: seq<OrderLine>, first: int, n: nat)
    ensures |Buckets(rows, first, n)| == n
    ensures forall i :: 0 <= i < n ==> Buckets(rows, first, n)[i] == Bucket(rows, first + i)
    decreases n
  {
    if n > 0 {
      BucketsContents(rows, first + 1, n - 1);
      var b := Buckets(rows, first, n);
      assert forall i :: 1 <= i < n ==> b[i] == Buckets(rows, first + 1, n - 1)[i - 1];
    }
  }

  /** FirstDay and DayCount in terms of the earliest and latest approvals. */
  lemma SpanEnds(rows: seq<OrderLine>)
    requires EarliestApproval(rows).Some?
    ensures LatestApproval(rows).Some?
    ensures FirstDay(rows) == Day(EarliestApproval(rows).value)
    ensures DayCount(rows) == Day(LatestApproval(rows).value) - Day(EarliestApproval(rows).value) + 1
  {
    ApprovalSpan(rows);
  }

  /** Every approved row's day lies between the days of the earliest and the latest approval. */
  lemma SpanCovers(rows: seq<OrderLine>, lo: int, hi: int)
    requires EarliestApproval(rows) == Some(lo) && LatestApproval(rows) == Some(hi)
    ensures forall x :: x in rows && IsApproved(x) ==> Day(lo) <= Day(x.approvedAt.value) <= Day(hi)
  {
    forall x | x in rows && IsApproved(x) ensures Day(lo) <= Day(x.approvedAt.value) <= Day(hi) {
      DayMonotone(lo, x.approvedAt.value);
      DayMonotone(x.approvedAt.value, hi);
    }
  }

  /** The rollup spans no day only when no row is approved. */
  lemma RollupEmpty(rows: seq<OrderLine>)
    ensures DayCount(rows) == 0 ==> forall x :: x in rows ==> !IsApproved(x)
  {
  }

  /** The span of days the rollup covers takes in the day of every approved row. */
  lemma RollupCovers(rows: seq<OrderLine>)
    ensures forall x :: x in rows && IsApproved(x) ==> FirstDay(rows) <= Day(x.approvedAt.value) < FirstDay(rows) + DayCount(rows)
  {
    if EarliestApproval(rows).Some? {
      SpanEnds(rows);
      SpanCovers(rows, EarliestApproval(rows).value, LatestApproval(rows).value);
    }
  }

  /** The first and the last day of a non-empty span each hold an approved row. */
  lemma RollupEnds(rows: seq<OrderLine>)
    ensures DayCount(rows) > 0 ==> exists x :: x in rows && ApprovalDay(x) == Some(FirstDay(rows))
    ensures DayCount(rows) > 0 ==> exists x :: x in rows && ApprovalDay(x) == Some(FirstDay(rows) + DayCount(rows) - 1)
  {
    if EarliestApproval(rows).Some? {
      SpanEnds(rows);
      var lo, hi := EarliestApproval(rows).value, LatestApproval(rows).value;
      var r1 :| r1 in rows && r1.approvedAt == Some(lo);
      var r2 :| r2 in rows && r2.approvedAt == Some(hi);
      var dh := Day(hi);
      assert FirstDay(rows) + DayCount(rows) - 1 == dh;
      assert ApprovalDay(r1) == Some(FirstDay(rows));
      assert ApprovalDay(r2) == Some(dh);
    }
  }

  /** The days of n buckets from first are first, first + 1, ... */
  lemma BucketDays(rows: seq<OrderLine>, first: int, n: nat)
    ensures |Buckets(rows, first, n)| == n
    ensures forall i :: 0 <= i < n ==> Buckets(rows, first, n)[i].day == first + i
  {
    BucketsContents(rows, first, n);
  }

  /** The rollup is empty exactly when no row is approved. */
  lemma DailyOrdersEmpty(rows: seq<OrderLine>)
    ensures DailyOrders(rows) == [] <==> forall x :: x in rows ==> !IsApproved(x)
  {
    BucketDays(rows, FirstDay(rows), DayCount(rows));
    RollupEmpty(rows);
    if DayCount(rows) > 0 {
      RollupEnds(rows);
    }
  }

  /** The days of the rollup are consecutive and ascending. */
  lemma DailyOrdersDays(rows: seq<OrderLine>)
    ensures forall i :: 0 <= i < |DailyOrders(rows)| ==> DailyOrders(rows)[i].day == DailyOrders(rows)[0].day + i
  {
    BucketDays(rows, FirstDay(rows), DayCount(rows));
  }

  /** The first and the last day of the rollup each hold an approved row. */
  lemma DailyOrdersEnds(rows: seq<OrderLine>)
    ensures DailyOrders(rows) != [] ==> exists x :: x in rows && ApprovalDay(x) == Some(DailyOrders(rows)[0].day)
    ensures DailyOrders(rows) != [] ==>
      exists x :: x in rows && ApprovalDay(x) == Some(DailyOrders(rows)[|DailyOrders(rows)| - 1].day)
  {
    var first, n := FirstDay(rows), DayCount(rows);
    RollupEnds(rows);
    BucketEnds(rows, first, n);
  }

  lemma BucketEnds(rows: seq<OrderLine>, first: int, n: nat)
    ensures n > 0 ==> Buckets(rows, first, n)[0].day == first
    ensures n > 0 ==> |Buckets(rows, first, n)| == n && Buckets(rows, first, n)[n - 1].day == first + n - 1
  {
    BucketDays(rows, first, n);
  }

  /** The day of every approved row is a day of the rollup. */
  lemma DailyOrdersCovers(rows: seq<OrderLine>)
    ensures forall x :: x in rows && IsApproved(x) ==>
      exists i :: 0 <= i < |DailyOrders(rows)| && DailyOrders(rows)[i].day == Day(x.approvedAt.value)
  {
    var first, n := FirstDay(rows), DayCount(rows);
    BucketDays(rows, first, n);
    RollupCovers(rows);
    var b := DailyOrders(rows);
    forall x | x in rows && IsApproved(x) ensures exists i :: 0 <= i < |b| && b[i].day == Day(x.approvedAt.value) {
      var i := Day(x.approvedAt.value) - first;
      assert b[i].day == Day(x.approvedAt.value);
    }
  }

  /**
   * Each bucket holds the number of distinct orders and the sum of prices of
   * that day's rows; a day without rows gets zero orders and zero revenue.
   */
  lemma DailyOrdersBuckets(rows: seq<OrderLine>)
    ensures forall i :: 0 <= i < |DailyOrders(rows)| ==>
      DailyOrders(rows)[i].orderCount == |Image(OnDay(rows, DailyOrders(rows)[i].day), OrderId)|
    ensures forall i :: 0 <= i < |DailyOrders(rows)| ==>
      DailyOrders(rows)[i].revenue == Sum(OnDay(rows, DailyOrders(rows)[i].day), Price)
    ensures forall i :: 0 <= i < |DailyOrders(rows)| && OnDay(rows, DailyOrders(rows)[i].day) == [] ==>
      DailyOrders(rows)[i].orderCount == 0 && DailyOrders(rows)[i].revenue == 0
  {
    BucketsMeaning(rows, FirstDay(rows), DayCount(rows));
  }

  lemma BucketsMeaning(rows: seq<OrderLine>, first: int, n: nat)
    ensures forall i :: 0 <= i < |Buckets(rows, first, n)| ==>
      Buckets(rows, first, n)[i].orderCount == |Image(OnDay(rows, Buckets(rows, first, n)[i].day), OrderId)|
    ensures forall i :: 0 <= i < |Buckets(rows, first, n)| ==>
      Buckets(rows, first, n)[i].revenue == Sum(OnDay(rows, Buckets(rows, first, n)[i].day), Price)
    ensures forall i :: 0 <= i < |Buckets(rows, first, n)| && OnDay(rows, Buckets(rows, first, n)[i].day) == [] ==>
      Buckets(rows, first, n)[i].orderCount == 0 && Buckets(rows, first, n)[i].revenue == 0
  {
    BucketsContents(rows, first, n);
  }

  // ---------------------------------------------------------------------------
  // The totals

  /** Every approved row falls on one of the rollup's days. */
  lemma {:induction false} CoveredDays(rows: seq<OrderLine>, first: int, n: nat)
    requires forall x :: x in rows && IsApproved(x) ==> first <= Day(x.approvedAt.value) < first + n
    ensures WhereIn(rows, ApprovalDay, DayKeys(first, n)) == Approved(rows)
  {
    if rows != [] {
      CoveredDays(rows[1..], first, n);
      var x := rows[0];
      if IsApproved(x) {
        assert DayKeys(first, n)[Day(x.approvedAt.value) - first] == ApprovalDay(x);
      }
    }
  }

  /** The days of the rollup, as the labels it grouped by. */
  lemma RollupKeys(rows: seq<OrderLine>) returns (first: int, n: nat)
    ensures DailyOrders(rows) == Buckets(rows, first, n)
    ensures Distinct(DayKeys(first, n))
    ensures WhereIn(rows, ApprovalDay, DayKeys(first, n)) == Approved(rows)
  {
    RollupCovers(rows);
    first, n := FirstDay(rows), DayCount(rows);
    CoveredDays(rows, first, n);
  }

  /** Total revenue is the sum of `price` over the approved rows: no row is lost or counted twice. */
  lemma TotalRevenueSpec(rows: seq<OrderLine>)
    ensures TotalRevenue(DailyOrders(rows)) == Sum(Approved(rows), Price)
  {
    var first, n := RollupKeys(rows);
    var ks := DayKeys(first, n);
    BucketsContents(rows, first, n);
    TallyContents(rows, ApprovalDay, ks, Price);
    var revenue := TallySum(rows, ApprovalDay, ks, Price);
    forall i | 0 <= i < n ensures Revenue(DailyOrders(rows)[i]) == Value(revenue[i]) {
      assert revenue[i] in revenue;
    }
    SumPointwise(DailyOrders(rows), Revenue, revenue, Value);
    TallySumTotal(rows, ApprovalDay, ks, Price);
  }

  /** Every order has all its approved rows on one calendar day. */
  ghost predicate OneApprovalDay(rows: seq<OrderLine>) {
    forall x, y :: x in rows && y in rows && IsApproved(x) && IsApproved(y) && OrderId(x) == OrderId(y) ==>
      ApprovalDay(x) == ApprovalDay(y)
  }

  /**
   * Total orders counts every approved order at least once; it is exactly the
   * number of distinct approved orders when no order spans two days.
   */
  lemma TotalOrdersSpec(rows: seq<OrderLine>)
    ensures TotalOrders(DailyOrders(rows)) >= |Image(Approved(rows), OrderId)|
    ensures OneApprovalDay(rows) ==> TotalOrders(DailyOrders(rows)) == |Image(Approved(rows), OrderId)|
  {
    var first, n := RollupKeys(rows);
    var ks := DayKeys(first, n);
    BucketsContents(rows, first, n);
    DistinctContents(rows, ApprovalDay, ks, OrderId);
    var counts := TallyDistinct(rows, ApprovalDay, ks, OrderId);
    forall i | 0 <= i < n ensures OrderCount(DailyOrders(rows)[i]) == Value(counts[i]) {
      assert counts[i] in counts;
    }
    SumPointwise(DailyOrders(rows), OrderCount, counts, Value);
    TallyDistinctTotal(rows, ApprovalDay, ks, OrderId);
    if OneApprovalDay(rows) {
      forall x, y | x in rows && y in rows && ApprovalDay(x) in ks && ApprovalDay(y) in ks && OrderId(x) == OrderId(y)
        ensures ApprovalDay(x) == ApprovalDay(y)
      {
        assert IsApproved(x) && IsApproved(y);
      }
    }
  }

  /** On `main_df` every row is approved, so the totals are over all its rows. */
  lemma MainFrameTotals(all: seq<OrderLine>, startDay: int, endDay: int)
    ensures TotalRevenue(DailyOrders(MainFrame(all, startDay, endDay))) == Sum(MainFrame(all, startDay, endDay), Price)
    ensures TotalOrders(DailyOrders(MainFrame(all, startDay, endDay))) >= |Image(MainFrame(all, startDay, endDay), OrderId)|
  {
    var m := MainFrame(all, startDay, endDay);
    assert forall x :: x in m ==> IsApproved(x);
    WhereAll(m, IsApproved, true);
    TotalRevenueSpec(m);
    TotalOrdersSpec(m);
  }

  /** When every approved row falls on a day from startDay to endDay, so does every day of the rollup. */
  lemma RollupWithin(rows: seq<OrderLine>, startDay: int, endDay: int)
    requires forall x :: x in rows && IsApproved(x) ==> startDay <= Day(x.approvedAt.value) <= endDay
    ensures forall i :: 0 <= i < |DailyOrders(rows)| ==> startDay <= DailyOrders(rows)[i].day <= endDay
  {
    var first, n := FirstDay(rows), DayCount(rows);
    if n > 0 {
      RollupEnds(rows);
      var x :| x in rows && ApprovalDay(x) == Some(first);
      var y :| y in rows && ApprovalDay(y) == Some(first + n - 1);
      assert startDay <= first && first + n - 1 <= endDay;
    }
    BucketsWithin(rows, first, n, startDay, endDay);
  }

  lemma BucketsWithin(rows: seq<OrderLine>, first: int, n: nat, startDay: int, endDay: int)
    requires n > 0 ==> startDay <= first && first + n - 1 <= endDay
    ensures forall i :: 0 <= i < |Buckets(rows, first, n)| ==> startDay <= Buckets(rows, first, n)[i].day <= endDay
  {
    BucketDays(rows, first, n);
  }

  /** Every day of the rollup of `main_df` lies in the chosen window. */
  lemma MainFrameDays(all: seq<OrderLine>, startDay: int, endDay: int)
    ensures forall i :: 0 <= i < |DailyOrders(MainFrame(all, startDay, endDay))| ==>
      startDay <= DailyOrders(MainFrame(all, startDay, endDay))[i].day <= endDay
  {
    FilterDays(SortByApproval(all), startDay, endDay);
    RollupWithin(MainFrame(all, startDay, endDay), startDay, endDay);
  }
}
