/**
 * The fact tables the dashboard reads, already parsed: money is in integer
 * cents, timestamps are whole seconds since the epoch, and a timestamp that
 * pandas would hold as NaT is None.
 */
module Records {
  import opened Wrappers

  /** One row of the order-fact table: an order line joined with its customer, seller, payment and product. */
  datatype OrderLine = OrderLine(
    orderId: string,
    orderItemId: int,          // the line's sequence number within its order
    customerId: string,
    customerCity: string,
    customerState: string,
    sellerCity: string,
    approvedAt: Option<int>,   // None for an order that was never approved
    price: int,
    paymentType: string,
    paymentValue: int,
    productName: string)

  /** One row of the satisfaction table: a delivery observed for a seller city. */
  datatype SatisfactionRow = SatisfactionRow(sellerCity: string, reviewScore: int, deliveryStatus: string)

  /** The calendar day of a timestamp (`.dt.date`, or midnight of it); floors for times before 1970 too. */
  function Day(t: int): int { t / 86400 }

  /** Midnight at the start of a day, as a timestamp: a day has 86400 seconds. */
  function Midnight(d: int): int { d * 86400 }

  lemma DayMonotone(a: int, b: int)
    requires a <= b
    ensures Day(a) <= Day(b)
  {
  }

  /** The day starts at its midnight and ends before the next one. */
  lemma DayBounds(t: int)
    ensures Midnight(Day(t)) <= t < Midnight(Day(t) + 1)
  {
  }

  // Columns of the order-fact table.
  function OrderId(r: OrderLine): string { r.orderId }
  function OrderItemId(r: OrderLine): int { r.orderItemId }
  function CustomerId(r: OrderLine): string { r.customerId }
  function CustomerCity(r: OrderLine): string { r.customerCity }
  function CustomerState(r: OrderLine): string { r.customerState }
  function SellerCity(r: OrderLine): string { r.sellerCity }
  function Price(r: OrderLine): int { r.price }
  function PaymentType(r: OrderLine): string { r.paymentType }
  function PaymentValue(r: OrderLine): int { r.paymentValue }
  function ProductName(r: OrderLine): string { r.productName }

  /** Whether the row's order was approved (`order_approved_at` is not NaT). */
  function IsApproved(r: OrderLine): bool { r.approvedAt.Some? }

  /** The approval day of a row, None when it was never approved. */
  function ApprovalDay(r: OrderLine): Option<int> {
    match r.approvedAt
    case None => None
    case Some(t) => Some(Day(t))
  }

  // Columns of the satisfaction table.
  function SatisfactionCity(r: SatisfactionRow): string { r.sellerCity }
  function ReviewScore(r: SatisfactionRow): int { r.reviewScore }
  function DeliveryStatus(r: SatisfactionRow): string { r.deliveryStatus }

  /**
   * The latest approval timestamp among the rows (`df["order_approved_at"].max()`,
   * which skips NaT); None when no row was approved.
   */
  function LatestApproval(rows: seq<OrderLine>): (m: Option<int>)
    ensures m.None? <==> forall r :: r in rows ==> r.approvedAt.None?
    ensures m.Some? ==> exists r :: r in rows && r.approvedAt == m
    ensures m.Some? ==> forall r :: r in rows && r.approvedAt.Some? ==> r.approvedAt.value <= m.value
  {
    if rows == [] then None
    else
      var rest := LatestApproval(rows[1..]);
      assert forall r :: r in rows <==> r == rows[0] || r in rows[1..];
      match rows[0].approvedAt
      case None => rest
      case Some(t) =>
        if rest.Some? && rest.value >= t then rest else Some(t)
  }

  /** The earliest approval timestamp among the rows (`.min()`, skipping NaT); None when no row was approved. */
  function EarliestApproval(rows: seq<OrderLine>): (m: Option<int>)
    ensures m.None? <==> forall r :: r in rows ==> r.approvedAt.None?
    ensures m.Some? ==> exists r :: r in rows && r.approvedAt == m
    ensures m.Some? ==> forall r :: r in rows && r.approvedAt.Some? ==> m.value <= r.approvedAt.value
  {
    if rows == [] then None
    else
      var rest := EarliestApproval(rows[1..]);
      assert forall r :: r in rows <==> r == rows[0] || r in rows[1..];
      match rows[0].approvedAt
      case None => rest
      case Some(t) =>
        if rest.Some? && rest.value <= t then rest else Some(t)
  }
}
