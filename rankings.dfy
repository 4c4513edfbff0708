/**
 * The grouped, sorted and truncated series behind the dashboard's bar charts:
 * product quantities (dashboard/dashboard.py:25-29, 123, 131), customers per
 * state and per city (31-37, 478-480, 502), order counts per seller city,
 * product and payment type (339-341, 398-399, 549), and the satisfaction
 * table's review scores and delivery statuses per seller city (154-157,
 * 200-206, 228-234).
 */
module Rankings {
  import opened Frames
  import opened Sorting
  import opened Records

  // ---------------------------------------------------------------------------
  // What a grouped series says about its table

  /** g has one entry for each label of the table, and no other. */
  ghost predicate Labelled<T, K>(g: seq<Entry<K>>, rows: seq<T>, key: T -> K) {
    UniqueKeys(g) && |g| == |Image(rows, key)| && Image(g, Key) == Image(rows, key)
  }

  /** `groupby(key)[val].sum()`, in any order. */
  ghost predicate SumSeries<T(!new), K(!new)>(g: seq<Entry<K>>, rows: seq<T>, key: T -> K, val: T -> int) {
    Labelled(g, rows, key) && forall e :: e in g ==> e.value == Sum(Where(rows, key, e.key), val)
  }

  /** `groupby(key)[col].count()`, in any order: every label counts its rows, at least one. */
  ghost predicate CountSeries<T(!new), K(!new)>(g: seq<Entry<K>>, rows: seq<T>, key: T -> K) {
    Labelled(g, rows, key) && forall e :: e in g ==> e.value == |Where(rows, key, e.key)| >= 1
  }

  /** `groupby(key)[item].nunique()`, in any order: at least one and at most the label's row count. */
  ghost predicate DistinctSeries<T(!new), K(!new), U>(g: seq<Entry<K>>, rows: seq<T>, key: T -> K, item: T -> U) {
    && Labelled(g, rows, key)
    && forall e :: e in g ==>
         e.value == |Image(Where(rows, key, e.key), item)| && 1 <= e.value <= |Where(rows, key, e.key)|
  }

  /** A reordered series has the same entries, so the same labels. */
  lemma Reordered<K>(g: seq<Entry<K>>, q: seq<Entry<K>>)
    requires multiset(q) == multiset(g) && UniqueKeys(g)
    ensures forall e :: e in q <==> e in g
    ensures |q| == |g| && UniqueKeys(q) && Image(q, Key) == Image(g, Key)
    ensures Sum(q, Value) == Sum(g, Value)
  {
    forall e ensures e in q <==> e in g {
      assert e in q <==> e in multiset(q);
    }
    assert |q| == |multiset(q)| == |multiset(g)| == |g|;
    ReorderedLabels(g, q);
    SumPermutation(q, g, Value);
  }

  /** The entries of a top or bottom list come from its series. */
  lemma Drawn<K>(h: seq<Entry<K>>, g: seq<Entry<K>>)
    requires multiset(h) <= multiset(g)
    ensures forall e :: e in h ==> e in g
  {
    forall e | e in h ensures e in g {
      assert e in multiset(h);
    }
  }

  // ---------------------------------------------------------------------------
  // Products (dashboard/dashboard.py:25-29, 123, 131)

  /**
   * `create_sum_order_items_df`: per product label, the sum of `order_item_id`
   * (the dataset's stand-in for a quantity), largest first; the quantities add
   * up to the column's total.
   */
  function ProductQuantities(rows: seq<OrderLine>): (q: seq<Entry<string>>)
    ensures SumSeries(q, rows, ProductName, OrderItemId)
    ensures forall i, j :: 0 <= i < j < |q| ==> q[i].value >= q[j].value
    ensures Sum(q, Value) == Sum(rows, OrderItemId)
  {
    var g := GroupSum(rows, ProductName, OrderItemId);
    GroupSumSpec(rows, ProductName, OrderItemId);
    var q := Descending(g);
    Reordered(g, q);
    q
  }

  /** `sum_order_items_df.head(5)`: the first five rows of the ranking, which are its top five. */
  function BestProducts(rows: seq<OrderLine>): (b: seq<Entry<string>>)
    ensures RankedTop(b, ProductQuantities(rows), 5)
    ensures b == ProductQuantities(rows)[..|b|]
  {
    HeadOfDescending(ProductQuantities(rows), 5);
    Head(ProductQuantities(rows), 5)
  }

  /** `sum_order_items_df.sort_values(by="quantity", ascending=True).head(5)` */
  function WorstProducts(rows: seq<OrderLine>): (w: seq<Entry<string>>)
    ensures RankedBottom(w, ProductQuantities(rows), 5)
  {
    Bottom(ProductQuantities(rows), 5)
  }

  /**
   * With at least ten products whose quantities all differ, no product is both
   * among the best five and among the worst five.
   */
  lemma BestWorstDisjoint(rows: seq<OrderLine>)
    requires |Image(rows, ProductName)| >= 10
    requires DistinctValues(ProductQuantities(rows))
    ensures forall e :: e in BestProducts(rows) ==> e !in WorstProducts(rows)
  {
    var q := ProductQuantities(rows);
    TopBottomDisjoint(q, q, 5, BestProducts(rows), WorstProducts(rows));
  }

  // ---------------------------------------------------------------------------
  // Customers per state and per city (dashboard/dashboard.py:31-37, 478-480, 502)

  /** `create_bystate_df`: per state, the number of distinct customers seen there. */
  function CustomersByState(rows: seq<OrderLine>): (g: seq<Entry<string>>)
    ensures DistinctSeries(g, rows, CustomerState, CustomerId)
  {
    GroupDistinctSpec(rows, CustomerState, CustomerId);
    GroupDistinct(rows, CustomerState, CustomerId)
  }

  /** Every customer lives in one state. */
  ghost predicate OneStatePerCustomer(rows: seq<OrderLine>) {
    forall x, y :: x in rows && y in rows && CustomerId(x) == CustomerId(y) ==> CustomerState(x) == CustomerState(y)
  }

  /**
   * The state counts add up to at least the number of distinct customers, and
   * to exactly that number when no customer appears under two states.
   */
  lemma CustomersByStateTotal(rows: seq<OrderLine>)
    ensures Sum(CustomersByState(rows), Value) >= |Image(rows, CustomerId)|
    ensures OneStatePerCustomer(rows) ==> Sum(CustomersByState(rows), Value) == |Image(rows, CustomerId)|
  {
    GroupDistinctSpec(rows, CustomerState, CustomerId);
  }

  /** `groupby('customer_state')['customer_id'].nunique().sort_values(ascending=False)` */
  function StatesByCustomers(rows: seq<OrderLine>): (q: seq<Entry<string>>)
    ensures DistinctSeries(q, rows, CustomerState, CustomerId)
    ensures forall i, j :: 0 <= i < j < |q| ==> q[i].value >= q[j].value
  {
    var g := CustomersByState(rows);
    var q := Descending(g);
    Reordered(g, q);
    q
  }

  /** `groupby('customer_city')['customer_id'].nunique()` */
  function CustomersByCity(rows: seq<OrderLine>): (g: seq<Entry<string>>)
    ensures DistinctSeries(g, rows, CustomerCity, CustomerId)
  {
    GroupDistinctSpec(rows, CustomerCity, CustomerId);
    GroupDistinct(rows, CustomerCity, CustomerId)
  }

  /** The ten cities with the most distinct customers. */
  function TopCustomerCities(rows: seq<OrderLine>): (t: seq<Entry<string>>)
    ensures RankedTop(t, CustomersByCity(rows), 10)
    ensures forall e :: e in t ==> e.value == |Image(Where(rows, CustomerCity, e.key), CustomerId)| >= 1
  {
    var t := Top(CustomersByCity(rows), 10);
    Drawn(t, CustomersByCity(rows));
    t
  }

  /** The ten cities with the fewest distinct customers. */
  function BottomCustomerCities(rows: seq<OrderLine>): (t: seq<Entry<string>>)
    ensures RankedBottom(t, CustomersByCity(rows), 10)
    ensures forall e :: e in t ==> e.value == |Image(Where(rows, CustomerCity, e.key), CustomerId)| >= 1
  {
    var t := Bottom(CustomersByCity(rows), 10);
    Drawn(t, CustomersByCity(rows));
    t
  }

  // ---------------------------------------------------------------------------
  // Order-line counts (dashboard/dashboard.py:339-341, 398-399, 549)

  /** `groupby('seller_city')['order_item_id'].count()`: the order lines per seller city, adding up to the table's size. */
  function LinesBySellerCity(rows: seq<OrderLine>): (g: seq<Entry<string>>)
    ensures CountSeries(g, rows, SellerCity)
    ensures Sum(g, Value) == |rows|
  {
    GroupCountSpec(rows, SellerCity);
    GroupCount(rows, SellerCity)
  }

  function TopSellerCities(rows: seq<OrderLine>): (t: seq<Entry<string>>)
    ensures RankedTop(t, LinesBySellerCity(rows), 10)
    ensures forall e :: e in t ==> e.value == |Where(rows, SellerCity, e.key)| >= 1
  {
    var t := Top(LinesBySellerCity(rows), 10);
    Drawn(t, LinesBySellerCity(rows));
    t
  }

  function BottomSellerCities(rows: seq<OrderLine>): (t: seq<Entry<string>>)
    ensures RankedBottom(t, LinesBySellerCity(rows), 10)
    ensures forall e :: e in t ==> e.value == |Where(rows, SellerCity, e.key)| >= 1
  {
    var t := Bottom(LinesBySellerCity(rows), 10);
    Drawn(t, LinesBySellerCity(rows));
    t
  }

  /** `groupby('name_product')['order_item_id'].count()`: the order lines per product, adding up to the table's size. */
  function LinesByProduct(rows: seq<OrderLine>): (g: seq<Entry<string>>)
    ensures CountSeries(g, rows, ProductName)
    ensures Sum(g, Value) == |rows|
  {
    GroupCountSpec(rows, ProductName);
    GroupCount(rows, ProductName)
  }

  function TopProductsByLines(rows: seq<OrderLine>): (t: seq<Entry<string>>)
    ensures RankedTop(t, LinesByProduct(rows), 10)
    ensures forall e :: e in t ==> e.value == |Where(rows, ProductName, e.key)| >= 1
  {
    var t := Top(LinesByProduct(rows), 10);
    Drawn(t, LinesByProduct(rows));
    t
  }

  function BottomProductsByLines(rows: seq<OrderLine>): (t: seq<Entry<string>>)
    ensures RankedBottom(t, LinesByProduct(rows), 10)
    ensures forall e :: e in t ==> e.value == |Where(rows, ProductName, e.key)| >= 1
  {
    var t := Bottom(LinesByProduct(rows), 10);
    Drawn(t, LinesByProduct(rows));
    t
  }

  /** `groupby('payment_type')['order_id'].count().sort_values(ascending=False)` */
  function PaymentTypeCounts(rows: seq<OrderLine>): (q: seq<Entry<string>>)
    ensures CountSeries(q, rows, PaymentType)
    ensures forall i, j :: 0 <= i < j < |q| ==> q[i].value >= q[j].value
    ensures Sum(q, Value) == |rows|
  {
    var g := GroupCount(rows, PaymentType);
    GroupCountSpec(rows, PaymentType);
    var q := Descending(g);
    Reordered(g, q);
    q
  }

  // ---------------------------------------------------------------------------
  // The satisfaction table (dashboard/dashboard.py:154-157, 200-206, 228-234)

  /** `satisfaction_df.groupby('seller_city')['review_score'].sum()`, whose scores add up to the column's total. */
  function ReviewScoreByCity(sat: seq<SatisfactionRow>): (g: seq<Entry<string>>)
    ensures SumSeries(g, sat, SatisfactionCity, ReviewScore)
    ensures Sum(g, Value) == Sum(sat, ReviewScore)
  {
    GroupSumSpec(sat, SatisfactionCity, ReviewScore);
    GroupSum(sat, SatisfactionCity, ReviewScore)
  }

  function TopReviewCities(sat: seq<SatisfactionRow>): (t: seq<Entry<string>>)
    ensures RankedTop(t, ReviewScoreByCity(sat), 10)
    ensures forall e :: e in t ==> e.value == Sum(Where(sat, SatisfactionCity, e.key), ReviewScore)
  {
    var t := Top(ReviewScoreByCity(sat), 10);
    Drawn(t, ReviewScoreByCity(sat));
    t
  }

  function BottomReviewCities(sat: seq<SatisfactionRow>): (t: seq<Entry<string>>)
    ensures RankedBottom(t, ReviewScoreByCity(sat), 10)
    ensures forall e :: e in t ==> e.value == Sum(Where(sat, SatisfactionCity, e.key), ReviewScore)
  {
    var t := Bottom(ReviewScoreByCity(sat), 10);
    Drawn(t, ReviewScoreByCity(sat));
    t
  }

  const Late := "Late"
  const OnTime := "On Time"

  /**
   * `satisfaction_df[satisfaction_df['delivery_status'] == status]
   * .groupby('seller_city')['delivery_status'].count()`: exactly the cities
   * with a delivery of that status, each with its number of such deliveries.
   */
  function StatusByCity(sat: seq<SatisfactionRow>, status: string): (g: seq<Entry<string>>)
    ensures CountSeries(g, Where(sat, DeliveryStatus, status), SatisfactionCity)
    ensures forall e :: e in g ==> exists x :: x in sat && x.deliveryStatus == status && x.sellerCity == e.key
    ensures forall x :: x in sat && x.deliveryStatus == status ==> exists e :: e in g && e.key == x.sellerCity
  {
    var s := Where(sat, DeliveryStatus, status);
    GroupCountSpec(s, SatisfactionCity);
    var g := GroupCount(s, SatisfactionCity);
    forall e | e in g ensures exists x :: x in sat && x.deliveryStatus == status && x.sellerCity == e.key {
      LabelHasRow(s, SatisfactionCity, g, e);
      var x := Where(s, SatisfactionCity, e.key)[0];
      assert x in Where(s, SatisfactionCity, e.key);
    }
    forall x | x in sat && x.deliveryStatus == status ensures exists e :: e in g && e.key == x.sellerCity {
      assert SatisfactionCity(x) in Image(g, Key);
    }
    g
  }

  function TopLateCities(sat: seq<SatisfactionRow>): (t: seq<Entry<string>>)
    ensures RankedTop(t, StatusByCity(sat, Late), 10)
    ensures forall e :: e in t ==> e.value == |Where(Where(sat, DeliveryStatus, Late), SatisfactionCity, e.key)| >= 1
  {
    var t := Top(StatusByCity(sat, Late), 10);
    Drawn(t, StatusByCity(sat, Late));
    t
  }

  function BottomLateCities(sat: seq<SatisfactionRow>): (t: seq<Entry<string>>)
    ensures RankedBottom(t, StatusByCity(sat, Late), 10)
    ensures forall e :: e in t ==> e.value == |Where(Where(sat, DeliveryStatus, Late), SatisfactionCity, e.key)| >= 1
  {
    var t := Bottom(StatusByCity(sat, Late), 10);
    Drawn(t, StatusByCity(sat, Late));
    t
  }

  function TopOnTimeCities(sat: seq<SatisfactionRow>): (t: seq<Entry<string>>)
    ensures RankedTop(t, StatusByCity(sat, OnTime), 10)
    ensures forall e :: e in t ==> e.value == |Where(Where(sat, DeliveryStatus, OnTime), SatisfactionCity, e.key)| >= 1
  {
    var t := Top(StatusByCity(sat, OnTime), 10);
    Drawn(t, StatusByCity(sat, OnTime));
    t
  }

  function BottomOnTimeCities(sat: seq<SatisfactionRow>): (t: seq<Entry<string>>)
    ensures RankedBottom(t, StatusByCity(sat, OnTime), 10)
    ensures forall e :: e in t ==> e.value == |Where(Where(sat, DeliveryStatus, OnTime), SatisfactionCity, e.key)| >= 1
  {
    var t := Bottom(StatusByCity(sat, OnTime), 10);
    Drawn(t, StatusByCity(sat, OnTime));
    t
  }
}
