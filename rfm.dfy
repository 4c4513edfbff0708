/**
 * The RFM table: per customer, how long ago they last ordered (recency), how
 * many distinct orders they placed (frequency) and how much they paid
 * (monetary).  `create_rfm_df` builds it from `main_df`
 * (dashboard/dashboard.py:39-52); the RFM section rebuilds it from `all_df`
 * with a different recency (576-584) and lists the top five customers by
 * each metric (605-627).
 */
module Rfm {
  import opened Wrappers
  import opened Frames
  import opened Sorting
  import opened Records

  /** One row of `rfm_df`; recency is None where pandas would hold NaN. */
  datatype RfmRow = RfmRow(customerId: string, recency: Option<int>, frequency: int, monetary: int)

  /**
   * How recency is measured.  `create_rfm_df` subtracts calendar dates
   * (`.dt.date`); the RFM section subtracts timestamps and keeps the whole
   * days of the difference (`Timedelta.days`).
   */
  datatype RecencyRule = CalendarDays | ElapsedDays

  /** The days from latest to reference under the rule; None when either is NaT. */
  function Recency(rule: RecencyRule, reference: Option<int>, latest: Option<int>): Option<int> {
    if reference.None? || latest.None? then None
    else
      match rule
      case CalendarDays => Some(Day(reference.value) - Day(latest.value))
      case ElapsedDays => Some((reference.value - latest.value) / 86400)
  }

  /** The rows of customer c. */
  function CustomerRows(rows: seq<OrderLine>, c: string): seq<OrderLine> {
    Where(rows, CustomerId, c)
  }

  /** The aggregate of one customer's rows; the reference is the table's latest approval. */
  function RfmOf(rows: seq<OrderLine>, rule: RecencyRule, c: string): RfmRow {
    var mine := CustomerRows(rows, c);
    RfmRow(c, Recency(rule, LatestApproval(rows), LatestApproval(mine)), |Image(mine, OrderId)|, Sum(mine, PaymentValue))
  }

  function RfmRows(rows: seq<OrderLine>, rule: RecencyRule, ks: seq<string>): seq<RfmRow> {
    if ks == [] then [] else [RfmOf(rows, rule, ks[0])] + RfmRows(rows, rule, ks[1..])
  }

  /**
   * `groupby('customer_id').agg({'order_approved_at': max, 'order_id':
   * 'nunique', 'payment_value': 'sum'})` with recency derived from the max.
   */
  function RfmTable(rows: seq<OrderLine>, rule: RecencyRule): seq<RfmRow> {
    RfmRows(rows, rule, KeysOf(rows, CustomerId))
  }

  function Frequency(r: RfmRow): int { r.frequency }
  function Monetary(r: RfmRow): int { r.monetary }
  function CustomerOf(r: RfmRow): string { r.customerId }

  lemma {:induction false} RfmRowsContents(rows: seq<OrderLine>, rule: RecencyRule, ks: seq<string>)
    ensures |RfmRows(rows, rule, ks)| == |ks|
    ensures forall i :: 0 <= i < |ks| ==> RfmRows(rows, rule, ks)[i] == RfmOf(rows, rule, ks[i])
  {
    if ks != [] {
      RfmRowsContents(rows, rule, ks[1..]);
      var t := RfmRows(rows, rule, ks);
      assert forall i :: 1 <= i < |ks| ==> t[i] == RfmRows(rows, rule, ks[1..])[i - 1];
    }
  }

  // ---------------------------------------------------------------------------
  // What the table holds

  /** The table's rows are for the labels it grouped by, in their order. */
  lemma RfmRowsIds(rows: seq<OrderLine>, rule: RecencyRule, ks: seq<string>)
    ensures |RfmRows(rows, rule, ks)| == |ks|
    ensures forall i :: 0 <= i < |ks| ==> RfmRows(rows, rule, ks)[i].customerId == ks[i]
  {
    RfmRowsContents(rows, rule, ks);
  }

  /** One row per distinct customer of the input, and no two for one customer. */
  lemma RfmCustomers(rows: seq<OrderLine>, rule: RecencyRule)
    ensures |RfmTable(rows, rule)| == |Image(rows, CustomerId)|
    ensures forall i, j :: 0 <= i < j < |RfmTable(rows, rule)| ==>
      RfmTable(rows, rule)[i].customerId != RfmTable(rows, rule)[j].customerId
  {
    var ks := KeysOf(rows, CustomerId);
    RfmRowsIds(rows, rule, ks);
    DistinctSize(ks);
    assert (set k | k in ks) == Image(rows, CustomerId);
  }

  /** Every customer of the input has a row, and every row is for a customer of the input. */
  lemma RfmCoversCustomers(rows: seq<OrderLine>, rule: RecencyRule)
    ensures Image(RfmTable(rows, rule), CustomerOf) == Image(rows, CustomerId)
  {
    var ks := KeysOf(rows, CustomerId);
    var t := RfmTable(rows, rule);
    RfmRowsIds(rows, rule, ks);
    forall c | c in Image(rows, CustomerId) ensures c in Image(t, CustomerOf) {
      var i :| 0 <= i < |ks| && ks[i] == c;
      assert CustomerOf(t[i]) == c;
    }
    forall c | c in Image(t, CustomerOf) ensures c in Image(rows, CustomerId) {
      var r :| r in t && CustomerOf(r) == c;
      var i :| 0 <= i < |t| && t[i] == r;
      assert ks[i] == c;
    }
  }

  /**
   * Frequency is the customer's number of distinct orders, at least one and at
   * most their row count; monetary is the sum of their `payment_value`.
   */
  lemma RfmMetrics(rows: seq<OrderLine>, rule: RecencyRule)
    ensures forall i :: 0 <= i < |RfmTable(rows, rule)| ==>
      var r := RfmTable(rows, rule)[i];
      && r.frequency == |Image(CustomerRows(rows, r.customerId), OrderId)|
      && 1 <= r.frequency <= |CustomerRows(rows, r.customerId)|
      && r.monetary == Sum(CustomerRows(rows, r.customerId), PaymentValue)
  {
    var ks := KeysOf(rows, CustomerId);
    var t := RfmTable(rows, rule);
    RfmRowsContents(rows, rule, ks);
    forall i | 0 <= i < |t|
      ensures t[i].frequency == |Image(CustomerRows(rows, t[i].customerId), OrderId)|
      ensures 1 <= t[i].frequency <= |CustomerRows(rows, t[i].customerId)|
      ensures t[i].monetary == Sum(CustomerRows(rows, t[i].customerId), PaymentValue)
    {
      var mine := CustomerRows(rows, ks[i]);
      assert t[i] == RfmOf(rows, rule, ks[i]);
      assert ks[i] in Image(rows, CustomerId);
      var x :| x in rows && CustomerId(x) == ks[i];
      assert x in mine;
      ImageSize(mine, OrderId);
    }
  }

  /** The monetary column adds up to the total of `payment_value`. */
  lemma RfmMonetaryTotal(rows: seq<OrderLine>, rule: RecencyRule)
    ensures Sum(RfmTable(rows, rule), Monetary) == Sum(rows, PaymentValue)
  {
    var ks := KeysOf(rows, CustomerId);
    var t := RfmTable(rows, rule);
    var g := TallySum(rows, CustomerId, ks, PaymentValue);
    RfmRowsContents(rows, rule, ks);
    TallyContents(rows, CustomerId, ks, PaymentValue);
    forall i | 0 <= i < |t| ensures Monetary(t[i]) == Value(g[i]) {
      assert g[i] in g;
    }
    SumPointwise(t, Monetary, g, Value);
    TallySumTotal(rows, CustomerId, ks, PaymentValue);
    CoveringKeys(rows, CustomerId);
  }

  /**
   * Recency is known exactly for the customers with an approved row, and then
   * it is never negative.
   */
  lemma RfmRecencyKnown(rows: seq<OrderLine>, rule: RecencyRule)
    ensures forall i :: 0 <= i < |RfmTable(rows, rule)| ==>
      var r := RfmTable(rows, rule)[i];
      (r.recency.Some? <==> exists x :: x in CustomerRows(rows, r.customerId) && IsApproved(x))
    ensures forall i :: 0 <= i < |RfmTable(rows, rule)| && RfmTable(rows, rule)[i].recency.Some? ==>
      RfmTable(rows, rule)[i].recency.value >= 0
  {
    var ks := KeysOf(rows, CustomerId);
    var t := RfmTable(rows, rule);
    RfmRowsContents(rows, rule, ks);
    forall i | 0 <= i < |t|
      ensures t[i].recency.Some? <==> exists x :: x in CustomerRows(rows, t[i].customerId) && IsApproved(x)
      ensures t[i].recency.Some? ==> t[i].recency.value >= 0
    {
      assert t[i] == RfmOf(rows, rule, ks[i]);
      RecencyOf(rows, rule, ks[i]);
    }
  }

  /**
   * The value of a known recency: under `create_rfm_df` the calendar days
   * from the customer's latest approval day to the table's latest approval
   * day (`(recent_date - x).days` on dates); in the RFM section the whole
   * days of the time from the customer's latest approval to the table's
   * (`(current_date - max).days` on timestamps).
   */
  lemma RfmRecencyValue(rows: seq<OrderLine>, rule: RecencyRule)
    ensures forall i :: 0 <= i < |RfmTable(rows, rule)| && RfmTable(rows, rule)[i].recency.Some? ==>
      var r := RfmTable(rows, rule)[i];
      var latest := LatestApproval(CustomerRows(rows, r.customerId));
      && LatestApproval(rows).Some? && latest.Some?
      && (rule == CalendarDays ==> r.recency.value == Day(LatestApproval(rows).value) - Day(latest.value))
      && (rule == ElapsedDays ==> r.recency.value == (LatestApproval(rows).value - latest.value) / 86400)
  {
    var ks := KeysOf(rows, CustomerId);
    var t := RfmTable(rows, rule);
    RfmRowsContents(rows, rule, ks);
    forall i | 0 <= i < |t| && t[i].recency.Some?
      ensures LatestApproval(rows).Some? && LatestApproval(CustomerRows(rows, t[i].customerId)).Some?
    {
      assert t[i] == RfmOf(rows, rule, ks[i]);
    }
  }

  /**
   * A customer last approved at 20:00 on 2023-01-02 (day 19359), with the
   * table's latest approval at 01:00 on 2023-01-10 (day 19367): eight
   * calendar days apart, but only seven whole days of elapsed time.
   */
  lemma RecencyExample()
    ensures Recency(CalendarDays, Some(19367 * 86400 + 3600), Some(19359 * 86400 + 72000)) == Some(8)
    ensures Recency(ElapsedDays, Some(19367 * 86400 + 3600), Some(19359 * 86400 + 72000)) == Some(7)
  {
    assert Day(19367 * 86400 + 3600) == 19367;
    assert Day(19359 * 86400 + 72000) == 19359;
    assert (19367 * 86400 + 3600) - (19359 * 86400 + 72000) == 622800;
  }

  lemma RecencyOf(rows: seq<OrderLine>, rule: RecencyRule, c: string)
    ensures RfmOf(rows, rule, c).recency.Some? <==> exists x :: x in CustomerRows(rows, c) && IsApproved(x)
    ensures RfmOf(rows, rule, c).recency.Some? ==>
      && LatestApproval(rows).Some? && LatestApproval(CustomerRows(rows, c)).Some?
      && LatestApproval(CustomerRows(rows, c)).value <= LatestApproval(rows).value
      && RfmOf(rows, rule, c).recency.value >= 0
  {
    var mine := CustomerRows(rows, c);
    var latest := LatestApproval(mine);
    if latest.Some? {
      var x :| x in mine && x.approvedAt == latest;
      assert x in rows;
      var reference := LatestApproval(rows);
      assert reference.Some? && latest.value <= reference.value;
      DayMonotone(latest.value, reference.value);
    }
  }

  /**
   * `create_rfm_df`: recency is 0 exactly when the customer's latest approval
   * falls on the day of the table's latest approval.
   */
  lemma CalendarRecencyZero(rows: seq<OrderLine>)
    ensures forall i :: 0 <= i < |RfmTable(rows, CalendarDays)| && RfmTable(rows, CalendarDays)[i].recency.Some? ==>
      var r := RfmTable(rows, CalendarDays)[i];
      && LatestApproval(rows).Some? && LatestApproval(CustomerRows(rows, r.customerId)).Some?
      && (r.recency.value == 0 <==>
           Day(LatestApproval(CustomerRows(rows, r.customerId)).value) == Day(LatestApproval(rows).value))
  {
    var ks := KeysOf(rows, CustomerId);
    var t := RfmTable(rows, CalendarDays);
    RfmRowsContents(rows, CalendarDays, ks);
    forall i | 0 <= i < |t| && t[i].recency.Some?
      ensures LatestApproval(rows).Some? && LatestApproval(CustomerRows(rows, t[i].customerId)).Some?
      ensures t[i].recency.value == 0 <==>
        Day(LatestApproval(CustomerRows(rows, t[i].customerId)).value) == Day(LatestApproval(rows).value)
    {
      assert t[i] == RfmOf(rows, CalendarDays, ks[i]);
    }
  }

  /**
   * The RFM section: recency is 0 exactly when the customer's latest approval
   * is less than a full day before the table's latest approval.
   */
  lemma ElapsedRecencyZero(rows: seq<OrderLine>)
    ensures forall i :: 0 <= i < |RfmTable(rows, ElapsedDays)| && RfmTable(rows, ElapsedDays)[i].recency.Some? ==>
      var r := RfmTable(rows, ElapsedDays)[i];
      && LatestApproval(rows).Some? && LatestApproval(CustomerRows(rows, r.customerId)).Some?
      && (r.recency.value == 0 <==>
           LatestApproval(rows).value - LatestApproval(CustomerRows(rows, r.customerId)).value < 86400)
  {
    var ks := KeysOf(rows, CustomerId);
    var t := RfmTable(rows, ElapsedDays);
    RfmRowsContents(rows, ElapsedDays, ks);
    forall i | 0 <= i < |t| && t[i].recency.Some?
      ensures LatestApproval(rows).Some? && LatestApproval(CustomerRows(rows, t[i].customerId)).Some?
      ensures t[i].recency.value == 0 <==>
        LatestApproval(rows).value - LatestApproval(CustomerRows(rows, t[i].customerId)).value < 86400
    {
      assert t[i] == RfmOf(rows, ElapsedDays, ks[i]);
      ElapsedZeroOf(rows, ks[i]);
    }
  }

  lemma ElapsedZeroOf(rows: seq<OrderLine>, c: string)
    requires RfmOf(rows, ElapsedDays, c).recency.Some?
    ensures LatestApproval(rows).Some? && LatestApproval(CustomerRows(rows, c)).Some?
    ensures RfmOf(rows, ElapsedDays, c).recency.value == 0 <==>
      LatestApproval(rows).value - LatestApproval(CustomerRows(rows, c)).value < 86400
  {
    RecencyOf(rows, ElapsedDays, c);
    var gap := LatestApproval(rows).value - LatestApproval(CustomerRows(rows, c)).value;
    assert gap >= 0;
    assert RfmOf(rows, ElapsedDays, c).recency.value == gap / 86400;
  }

  // ---------------------------------------------------------------------------
  // The top five customers by each metric (dashboard/dashboard.py:605-627)

  function FrequencyRank(r: RfmRow): Rank { Known(r.frequency) }
  function MonetaryRank(r: RfmRow): Rank { Known(r.monetary) }

  /** A missing recency (NaN) sorts last whichever way the sort goes. */
  function RecencyRank(r: RfmRow): Rank {
    match r.recency
    case None => Missing
    case Some(d) => Known(d)
  }

  /**
   * `rfm_df.sort_values(by="frequency", ascending=False).head(5)`: five rows
   * of the table (fewer if it is shorter), by non-increasing frequency, none
   * with a lower frequency than a row left out.
   */
  function TopByFrequency(t: seq<RfmRow>): (h: seq<RfmRow>)
    ensures |h| == if |t| <= 5 then |t| else 5
    ensures multiset(h) <= multiset(t)
    ensures forall i, j :: 0 <= i < j < |h| ==> h[i].frequency >= h[j].frequency
    ensures forall x, y :: x in h && y in t && y !in h ==> Frequency(x) >= Frequency(y)
  {
    HeadByColumn(t, FrequencyRank, Frequency, true, 5);
    Head(SortBy(t, FrequencyRank, true), 5)
  }

  /** `rfm_df.sort_values(by="monetary", ascending=False).head(5)` */
  function TopByMonetary(t: seq<RfmRow>): (h: seq<RfmRow>)
    ensures |h| == if |t| <= 5 then |t| else 5
    ensures multiset(h) <= multiset(t)
    ensures forall i, j :: 0 <= i < j < |h| ==> h[i].monetary >= h[j].monetary
    ensures forall x, y :: x in h && y in t && y !in h ==> Monetary(x) >= Monetary(y)
  {
    HeadByColumn(t, MonetaryRank, Monetary, true, 5);
    Head(SortBy(t, MonetaryRank, true), 5)
  }

  /** `sort_values(by="recency", ascending=!desc).head(n)` in terms of the recency column. */
  lemma HeadByRecency(t: seq<RfmRow>, desc: bool, n: nat)
    ensures var h := Head(SortBy(t, RecencyRank, desc), n);
      && |h| == (if |t| <= n then |t| else n)
      && multiset(h) <= multiset(t)
      && (forall i, j :: 0 <= i < j < |h| && h[j].recency.Some? ==>
            h[i].recency.Some? && if desc then h[i].recency.value >= h[j].recency.value else h[i].recency.value <= h[j].recency.value)
      && (forall x, y :: x in h && y in t && y !in h && y.recency.Some? ==>
            x.recency.Some? && if desc then x.recency.value >= y.recency.value else x.recency.value <= y.recency.value)
  {
    var h := Head(SortBy(t, RecencyRank, desc), n);
    HeadOfSorted(t, RecencyRank, desc, n);
    forall i, j | 0 <= i < j < |h| && h[j].recency.Some?
      ensures h[i].recency.Some? && if desc then h[i].recency.value >= h[j].recency.value else h[i].recency.value <= h[j].recency.value
    {
      assert InOrder(desc, RecencyRank(h[i]), RecencyRank(h[j]));
    }
    forall x, y | x in h && y in t && y !in h && y.recency.Some?
      ensures x.recency.Some? && if desc then x.recency.value >= y.recency.value else x.recency.value <= y.recency.value
    {
      assert InOrder(desc, RecencyRank(x), RecencyRank(y));
    }
  }

  /**
   * The recency chart as written: `rfm_df.sort_values(by="recency",
   * ascending=False).head(5)` lists the customers whose last order is oldest,
   * by non-increasing recency: each listed recency is at least every known
   * recency left out.
   */
  function RecencyListAsWritten(t: seq<RfmRow>): (h: seq<RfmRow>)
    ensures |h| == if |t| <= 5 then |t| else 5
    ensures multiset(h) <= multiset(t)
    ensures forall i, j :: 0 <= i < j < |h| && h[j].recency.Some? ==>
      h[i].recency.Some? && h[i].recency.value >= h[j].recency.value
    ensures forall x, y :: x in h && y in t && y !in h && y.recency.Some? ==>
      x.recency.Some? && x.recency.value >= y.recency.value
  {
    HeadByRecency(t, true, 5);
    Head(SortBy(t, RecencyRank, true), 5)
  }

  /**
   * The recency chart as its comment intends ("lowest values are better"):
   * `sort_values(by="recency", ascending=True).head(5)`, the most recent
   * customers, by non-decreasing recency: each listed recency is known and at
   * most every known recency left out, so a customer with unknown recency is
   * listed only when fewer than five have a known one.
   */
  function MostRecentCustomers(t: seq<RfmRow>): (h: seq<RfmRow>)
    ensures |h| == if |t| <= 5 then |t| else 5
    ensures multiset(h) <= multiset(t)
    ensures forall i, j :: 0 <= i < j < |h| && h[j].recency.Some? ==>
      h[i].recency.Some? && h[i].recency.value <= h[j].recency.value
    ensures forall x, y :: x in h && y in t && y !in h && y.recency.Some? ==>
      x.recency.Some? && x.recency.value <= y.recency.value
  {
    HeadByRecency(t, false, 5);
    Head(SortBy(t, RecencyRank, false), 5)
  }

  /**
   * A customer who ordered more recently than every other of at least five
   * distinct customers: the chart as written leaves them out.
   */
  lemma RecencyListMissesMostRecent(t: seq<RfmRow>)
    requires |t| > 5 && Distinct(t) && t[0].recency.Some?
    requires forall y :: y in t && y != t[0] ==> y.recency.Some? && y.recency.value > t[0].recency.value
    ensures t[0] !in RecencyListAsWritten(t)
  {
    var h := RecencyListAsWritten(t);
    if t[0] in h {
      SomeLeftOut(h, t);
      assert false;
    }
  }

  /** The same customer is listed by the intended chart. */
  lemma MostRecentListed(t: seq<RfmRow>)
    requires |t| > 5 && t[0].recency.Some?
    requires forall y :: y in t && y != t[0] ==> y.recency.Some? && y.recency.value > t[0].recency.value
    ensures t[0] in MostRecentCustomers(t)
  {
    var m := MostRecentCustomers(t);
    assert m[0] in multiset(m);
  }

  /**
   * Six customers, one who ordered on the reference day and five who last
   * ordered thirty to thirty-four days before it, meet the conditions above.
   */
  lemma StaleSample() returns (t: seq<RfmRow>)
    ensures |t| == 6 && Distinct(t) && t[0] == Customer("a", 0)
    ensures forall y :: y in t && y != t[0] ==> y.recency.Some? && y.recency.value > t[0].recency.value
  {
    t := [Customer("a", 0), Customer("b", 30), Customer("c", 31), Customer("d", 32), Customer("e", 33), Customer("f", 34)];
  }

  /** On the six-customer table, customer "a" is off the chart as written and on the intended one. */
  lemma StaleSampleFinding() returns (t: seq<RfmRow>)
    ensures |t| == 6 && t[0] == Customer("a", 0)
    ensures t[0] !in RecencyListAsWritten(t)
    ensures t[0] in MostRecentCustomers(t)
  {
    t := StaleSample();
    RecencyListMissesMostRecent(t);
    MostRecentListed(t);
  }

  function Customer(id: string, recency: int): RfmRow {
    RfmRow(id, Some(recency), 1, 0)
  }
}
