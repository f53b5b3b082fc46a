/**
 * What a normalized payment event does to the books: payments, orders,
 * refund facts, and what an order grants. One application, one provider
 * connection. An event that throws changes nothing.
 */
module PaymentEvents {
  import opened Wrappers

  const MAX_AMOUNT: int := 9007199254740991

  datatype PaymentStatus = Pending | Succeeded | Failed | Refunded

  datatype OrderStatus = OrderPending | OrderFailed | OrderPaid | OrderRefunded

  datatype RefundStatus = RefundPending | RefundSucceeded | RefundFailed | RefundSuperseded

  datatype Payment = Payment(status: PaymentStatus, amount: int, currency: string, order: Option<string>,
                             customer: Option<string>)

  /** `grantsAccess`: the order's products are configured to grant entitlements. */
  datatype Order = Order(status: OrderStatus, total: int, currency: string, oneTime: bool, grantsAccess: bool)

  datatype Refund = Refund(id: string, payment: string, status: RefundStatus, amount: Option<int>)

  datatype Entitlement = Entitlement(active: bool, validFrom: int)

  datatype Books = Books(
    payments: map<string, Payment>,
    orders: map<string, Order>,
    refunds: seq<Refund>,
    entitlements: map<string, Entitlement>,   // by order
    credited: set<string>,                    // orders whose configured credits were granted
    customers: set<string>)

  datatype EventKind = Succeeding | Failing | Refunding

  /** Currencies are canonical (upper case). */
  datatype Event = Event(
    id: string,
    kind: EventKind,
    payment: Option<string>,
    order: Option<string>,
    customer: Option<string>,
    currency: Option<string>,
    amount: Option<int>,
    refund: Option<string>,
    occurredAt: int)

  datatype PaymentError =
    | InvalidAmount
    | MissingPayment
    | OrderConflict
    | CustomerConflict
    | CurrencyMismatch
    | MissingAmountOrCurrency
    | InvalidRefundAmount
    | RefundBelongsElsewhere
    | RefundAmountConflict
    | EntitlementConflict
    | CheckViolation           // the table's check that a refund amount is not negative

  datatype Outcome = Threw(error: PaymentError) | Ignored(books: Books) | Applied(books: Books)

  /** The books after the event, whatever became of it. */
  function After(books: Books, e: Event): Books {
    match Apply(books, e)
    case Threw(_) => books
    case Ignored(after) => after
    case Applied(after) => after
  }

  // ---- admission: what the event is about ----

  datatype Context = Context(payment: string, order: Option<string>, amount: int, currency: string)

  function Existing(books: Books, id: string): Option<Payment> {
    if id in books.payments then Some(books.payments[id]) else None
  }

  /** The order the event names, else the one recorded with the payment. */
  function OrderOf(books: Books, e: Event, existing: Option<Payment>): (order: Option<string>)
    ensures order.Some? ==> order.value in books.orders
  {
    if e.order.Some? && e.order.value in books.orders then e.order
    else if existing.Some? && existing.value.order.Some? && existing.value.order.value in books.orders
      then existing.value.order
    else None
  }

  function Else<T>(x: Option<T>, y: Option<T>): Option<T> {
    if x.Some? then x else y
  }

  function Admit(books: Books, e: Event): (r: Result<Context, PaymentError>)
    ensures r.Success? ==> e.payment == Some(r.value.payment)
                           && r.value.order == OrderOf(books, e, Existing(books, r.value.payment))
  {
    if e.amount.Some? && !(0 <= e.amount.value <= MAX_AMOUNT) then Failure(InvalidAmount)
    else if e.payment.None? then Failure(MissingPayment)
    else
      var existing := Existing(books, e.payment.value);
      if existing.Some? && existing.value.order.Some? && e.order.Some? && existing.value.order != e.order
      then Failure(OrderConflict)
      else if existing.Some? && existing.value.customer.Some? && e.customer.Some?
        && existing.value.customer != e.customer
      then Failure(CustomerConflict)
      else
        var order := OrderOf(books, e, existing);
        var orderCurrency := if order.Some? then Some(books.orders[order.value].currency) else None;
        var orderTotal := if order.Some? then Some(books.orders[order.value].total) else None;
        var paidCurrency := if existing.Some? then Some(existing.value.currency) else None;
        var paidAmount := if existing.Some? then Some(existing.value.amount) else None;
        var expected := Else(orderCurrency, paidCurrency);
        if e.currency.Some? && expected.Some? && e.currency != expected then Failure(CurrencyMismatch)
        else
          var amount := if e.kind.Refunding? && existing.None? then Else(orderTotal, e.amount)
                        else Else(e.amount, Else(orderTotal, paidAmount));
          var currency := Else(e.currency, expected);
          if amount.None? || currency.None? then Failure(MissingAmountOrCurrency)
          else Success(Context(e.payment.value, order, amount.value, currency.value))
  }

  // ---- refund planning ----

  const SYNTHETIC_PREFIX := "refund:"

  function FallbackId(e: Event): string {
    "event:" + e.id
  }

  function RefundId(e: Event): string {
    if e.refund.Some? then e.refund.value else FallbackId(e)
  }

  function FindRefund(rows: seq<Refund>, id: string): (i: Option<nat>)
    ensures i.Some? ==> i.value < |rows| && rows[i.value].id == id
    ensures i.None? ==> forall j :: 0 <= j < |rows| ==> rows[j].id != id
  {
    if rows == [] then None
    else if rows[|rows| - 1].id == id then Some(|rows| - 1)
    else FindRefund(rows[..|rows| - 1], id)
  }

  /** A provisional row written without the provider's refund id. */
  predicate Synthetic(row: Refund, payment: string) {
    row.payment == payment && row.status.RefundPending? && SYNTHETIC_PREFIX <= row.id
  }

  function Superseded(rows: seq<Refund>, payment: string): (r: seq<Refund>)
    ensures |r| == |rows|
    ensures forall i :: 0 <= i < |rows| ==>
              r[i] == if Synthetic(rows[i], payment) then rows[i].(status := RefundSuperseded) else rows[i]
  {
    seq(|rows|, i requires 0 <= i < |rows| =>
          if Synthetic(rows[i], payment) then rows[i].(status := RefundSuperseded) else rows[i])
  }

  /**
   * What the refund rows of a payment add up to: pending and succeeded,
   * succeeded only, and whether an amount is missing.
   */
  datatype Tally = Tally(reserved: int, confirmed: int, unknown: bool)

  predicate Counts(row: Refund, payment: string, skip: Option<string>) {
    row.payment == payment && (row.status.RefundPending? || row.status.RefundSucceeded?) && Some(row.id) != skip
  }

  function TallyTo(rows: seq<Refund>, payment: string, skip: Option<string>, n: nat): Tally
    requires n <= |rows|
  {
    if n == 0 then Tally(0, 0, false)
    else
      var before := TallyTo(rows, payment, skip, n - 1);
      var row := rows[n - 1];
      if !Counts(row, payment, skip) then before
      else if row.amount.None? then before.(unknown := true)
      else Tally(before.reserved + row.amount.value,
                 before.confirmed + if row.status.RefundSucceeded? then row.amount.value else 0,
                 before.unknown)
  }

  function TallyOf(rows: seq<Refund>, payment: string, skip: Option<string>): Tally {
    TallyTo(rows, payment, skip, |rows|)
  }

  datatype Plan =
    | Refused(error: PaymentError)
    | AlreadyRecorded
    | NothingLeft(rows: seq<Refund>)
    | Planned(rows: seq<Refund>, amount: int, full: bool)

  function PlanRefund(books: Books, e: Event, c: Context): Plan {
    var existing := Existing(books, c.payment);
    var recorded := if e.refund.Some? then FindRefund(books.refunds, e.refund.value) else None;
    if e.amount.Some? && e.amount.value <= 0 then Refused(InvalidRefundAmount)
    else if recorded.Some? && (existing.None? || books.refunds[recorded.value].payment != c.payment)
      then Refused(RefundBelongsElsewhere)
    else if recorded.Some? && books.refunds[recorded.value].status.RefundSucceeded? then
      var amount := books.refunds[recorded.value].amount;
      if amount.None? || e.amount.None? || amount == e.amount then AlreadyRecorded else Refused(RefundAmountConflict)
    else
      var upgrading := recorded.Some? && books.refunds[recorded.value].status.RefundPending?;
      var rows := if e.refund.Some? && recorded.None? && existing.Some? then Superseded(books.refunds, c.payment)
        else books.refunds;
      var captured := if existing.Some? then existing.value.amount else c.amount;
      var tally := if existing.Some? then TallyOf(rows, c.payment, if upgrading then e.refund else None)
        else Tally(0, 0, false);
      var remaining := if tally.unknown then 0 else captured - tally.reserved;
      if upgrading then
        var confirmed := Else(Else(e.amount, books.refunds[recorded.value].amount), Some(remaining)).value;
        if confirmed < 0 then Refused(CheckViolation)
        else Planned(rows, confirmed, captured <= tally.confirmed + confirmed)
      else if remaining <= 0 then NothingLeft(rows)
      else
        var applied := if e.amount.None? then remaining else Min(e.amount.value, remaining);
        Planned(rows, applied, captured <= tally.confirmed + applied)
  }

  /** The upsert of the refund fact: a row that exists keeps its payment. */
  function PutRefund(rows: seq<Refund>, id: string, payment: string, amount: int): seq<Refund> {
    match FindRefund(rows, id)
    case Some(i) => rows[i := rows[i].(status := RefundSucceeded, amount := Some(amount))]
    case None => rows + [Refund(id, payment, RefundSucceeded, Some(amount))]
  }

  // ---- payment, order, grants ----

  function NextStatus(kind: EventKind, existing: Option<Payment>, full: bool): PaymentStatus {
    match kind
    case Succeeding => Succeeded
    case Failing => if existing.None? || existing.value.status.Pending? then Failed else existing.value.status
    case Refunding => if full then Refunded else if existing.Some? then existing.value.status else Succeeded
  }

  /** The upsert of the payment row: amount and currency are written once, references are only ever filled in. */
  function PutPayment(books: Books, e: Event, c: Context, status: PaymentStatus): map<string, Payment> {
    var customer := if e.customer.Some? && e.customer.value in books.customers then e.customer else None;
    match Existing(books, c.payment)
    case None => books.payments[c.payment := Payment(status, c.amount, c.currency, c.order, customer)]
    case Some(p) =>
      books.payments[c.payment := p.(status := status, order := Else(c.order, p.order),
                                     customer := Else(customer, p.customer))]
  }

  function NextOrderStatus(kind: EventKind, status: OrderStatus, full: bool): OrderStatus {
    match kind
    case Succeeding => if status.OrderRefunded? then OrderRefunded else OrderPaid
    case Failing => if status.OrderPending? then OrderFailed else status
    case Refunding => if full then OrderRefunded else status
  }

  /** The sources a transition is allowed from; the update does nothing from any other. */
  predicate Allowed(next: OrderStatus, from: OrderStatus) {
    match next
    case OrderPaid => from.OrderPending? || from.OrderFailed?
    case OrderFailed => from.OrderPending?
    case OrderRefunded => from.OrderPending? || from.OrderPaid? || from.OrderRefunded?
    case OrderPending => false
  }

  function PutOrder(orders: map<string, Order>, order: Option<string>, kind: EventKind, full: bool): map<string, Order>
    requires order.Some? ==> order.value in orders
  {
    if order.None? then orders
    else
      var o := orders[order.value];
      var next := NextOrderStatus(kind, o.status, full);
      if next != o.status && Allowed(next, o.status) then orders[order.value := o.(status := next)] else orders
  }

  /** Granting again with the same start is a no-op, with another start a conflict. */
  predicate GrantConflicts(books: Books, order: string, validFrom: int)
    requires order in books.orders
  {
    && books.orders[order].oneTime && books.orders[order].grantsAccess
    && order in books.entitlements && books.entitlements[order].validFrom != validFrom
  }

  function Granted(books: Books, order: string, validFrom: int): Books
    requires order in books.orders
  {
    if !books.orders[order].oneTime then books
    else
      books.(
        entitlements := if books.orders[order].grantsAccess && order !in books.entitlements
                        then books.entitlements[order := Entitlement(true, validFrom)] else books.entitlements,
        credited := books.credited + {order})
  }

  function Revoked(entitlements: map<string, Entitlement>, order: string): map<string, Entitlement> {
    if order in entitlements then entitlements[order := entitlements[order].(active := false)] else entitlements
  }

  // ---- the three events ----

  function ApplySuccess(books: Books, e: Event, c: Context): Outcome
    requires c.order.Some? ==> c.order.value in books.orders
  {
    var existing := Existing(books, c.payment);
    var settled := c.order.None? || books.orders[c.order.value].status.OrderPaid?
      || books.orders[c.order.value].status.OrderRefunded?;
    if existing.Some? && existing.value.status.Succeeded? && settled then Ignored(books)
    else if existing.Some? && existing.value.status.Refunded? then Ignored(books)
    else if c.order.Some? && GrantConflicts(books, c.order.value, e.occurredAt) then Threw(EntitlementConflict)
    else
      var booked := books.(payments := PutPayment(books, e, c, NextStatus(Succeeding, existing, false)),
                           orders := PutOrder(books.orders, c.order, Succeeding, false));
      Applied(if c.order.Some? then Granted(booked, c.order.value, e.occurredAt) else booked)
  }

  function ApplyFailure(books: Books, e: Event, c: Context): Outcome
    requires c.order.Some? ==> c.order.value in books.orders
  {
    var existing := Existing(books, c.payment);
    if existing.Some? && (existing.value.status.Succeeded? || existing.value.status.Refunded?) then Ignored(books)
    else
      Applied(books.(payments := PutPayment(books, e, c, NextStatus(Failing, existing, false)),
                     orders := PutOrder(books.orders, c.order, Failing, false)))
  }

  function ApplyRefund(books: Books, e: Event, c: Context): Outcome
    requires c.order.Some? ==> c.order.value in books.orders
  {
    match PlanRefund(books, e, c)
    case Refused(error) => Threw(error)
    case AlreadyRecorded => Ignored(books)
    case NothingLeft(rows) => Ignored(books.(refunds := rows))
    case Planned(rows, amount, full) =>
      Applied(books.(payments := PutPayment(books, e, c, NextStatus(Refunding, Existing(books, c.payment), full)),
                     orders := PutOrder(books.orders, c.order, Refunding, full),
                     refunds := PutRefund(rows, RefundId(e), c.payment, amount),
                     entitlements := if full && c.order.Some? then Revoked(books.entitlements, c.order.value)
                       else books.entitlements))
  }

  function Apply(books: Books, e: Event): Outcome {
    match Admit(books, e)
    case Failure(error) => Threw(error)
    case Success(c) =>
      match e.kind
      case Succeeding => ApplySuccess(books, e, c)
      case Failing => ApplyFailure(books, e, c)
      case Refunding => ApplyRefund(books, e, c)
  }
}
