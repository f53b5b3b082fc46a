/**
 * The payment event handler as the service runs it: rows updated one after
 * the other, a loop over the payment's refund rows, and a rollback when a
 * later statement throws. It is proved to compute what PaymentEvents says.
 */
module PaymentStore {
  import opened Wrappers
  import opened PaymentEvents

  class Store {
    var payments: map<string, Payment>
    var orders: map<string, Order>
    var refunds: seq<PaymentEvents.Refund>
    var entitlements: map<string, Entitlement>
    var credited: set<string>
    const customers: set<string>

    constructor (customers: set<string>, orders: map<string, Order>)
      ensures Snapshot() == Books(map[], orders, [], map[], {}, customers)
    {
      payments, this.orders, refunds, entitlements, credited := map[], orders, [], map[], {};
      this.customers := customers;
    }

    function Snapshot(): Books
      reads this
    {
      Books(payments, orders, refunds, entitlements, credited, customers)
    }

    /** UPDATE refunds SET status = 'superseded' for the payment's provisional rows. */
    method Supersede(payment: string)
      modifies this`refunds
      ensures refunds == Superseded(old(refunds), payment)
    {
      var i := 0;
      while i < |refunds|
        invariant i <= |refunds| == |old(refunds)|
        invariant forall k :: 0 <= k < i ==> refunds[k] == Superseded(old(refunds), payment)[k]
        invariant forall k :: i <= k < |refunds| ==> refunds[k] == old(refunds)[k]
      {
        if Synthetic(refunds[i], payment) {
          refunds := refunds[i := refunds[i].(status := RefundSuperseded)];
        }
        i := i + 1;
      }
    }

    /** reservedRefunded, confirmedRefunded and unknownRefundAmount over the payment's rows. */
    method CountRefunds(payment: string, upgrading: Option<string>) returns (tally: Tally)
      ensures tally == TallyOf(refunds, payment, upgrading)
    {
      var reservedRefunded, confirmedRefunded, unknownRefundAmount := 0, 0, false;
      var i := 0;
      while i < |refunds|
        invariant i <= |refunds|
        invariant Tally(reservedRefunded, confirmedRefunded, unknownRefundAmount)
                  == TallyTo(refunds, payment, upgrading, i)
      {
        var row := refunds[i];
        if row.payment == payment && !row.status.RefundFailed? && !row.status.RefundSuperseded?
          && Some(row.id) != upgrading {
          if row.amount.None? {
            unknownRefundAmount := true;
          } else {
            reservedRefunded := reservedRefunded + row.amount.value;
            if row.status.RefundSucceeded? {
              confirmedRefunded := confirmedRefunded + row.amount.value;
            }
          }
        }
        i := i + 1;
      }
      tally := Tally(reservedRefunded, confirmedRefunded, unknownRefundAmount);
    }

    /** The refund plan. Provisional rows are superseded on the way. */
    method PlanRefundEvent(e: Event, c: Context) returns (plan: Plan)
      modifies this`refunds
      ensures plan == PlanRefund(old(Snapshot()), e, c)
      ensures plan.NothingLeft? || plan.Planned? ==> refunds == plan.rows
      ensures plan.Refused? || plan.AlreadyRecorded? ==> refunds == old(refunds)
    {
      var before := refunds;
      if e.amount.Some? && e.amount.value <= 0 {
        return Refused(InvalidRefundAmount);
      }
      var existing := Existing(Snapshot(), c.payment);
      var recorded := if e.refund.Some? then FindRefund(refunds, e.refund.value) else None;
      var upgrading := false;
      if recorded.Some? {
        var fact := refunds[recorded.value];
        if existing.None? || fact.payment != c.payment {
          return Refused(RefundBelongsElsewhere);
        }
        if fact.status.RefundSucceeded? {
          if fact.amount.None? || e.amount.None? || fact.amount == e.amount {
            return AlreadyRecorded;
          }
          return Refused(RefundAmountConflict);
        }
        upgrading := fact.status.RefundPending?;
      }
      if e.refund.Some? && recorded.None? && existing.Some? {
        Supersede(c.payment);
      }
      var captured := if existing.Some? then existing.value.amount else c.amount;
      var tally := Tally(0, 0, false);
      if existing.Some? {
        tally := CountRefunds(c.payment, if upgrading then e.refund else None);
      }
      var remaining := if tally.unknown then 0 else captured - tally.reserved;
      if upgrading {
        var confirmed := Else(Else(e.amount, before[recorded.value].amount), Some(remaining)).value;
        if confirmed < 0 {
          return Refused(CheckViolation);
        }
        return Planned(refunds, confirmed, captured <= tally.confirmed + confirmed);
      }
      if remaining <= 0 {
        return NothingLeft(refunds);
      }
      var applied := if e.amount.None? then remaining else Min(e.amount.value, remaining);
      return Planned(refunds, applied, captured <= tally.confirmed + applied);
    }

    /** The upserts of the payment and the order row. */
    method WritePaymentAndOrder(e: Event, c: Context, full: bool)
      requires c.order.Some? ==> c.order.value in orders
      modifies this`payments, this`orders
      ensures payments == PutPayment(old(Snapshot()), e, c,
                                     NextStatus(e.kind, Existing(old(Snapshot()), c.payment), full))
      ensures orders == PutOrder(old(orders), c.order, e.kind, full)
    {
      var existing := Existing(Snapshot(), c.payment);
      var status := NextStatus(e.kind, existing, full);
      var customer := if e.customer.Some? && e.customer.value in customers then e.customer else None;
      if existing.None? {
        payments := payments[c.payment := Payment(status, c.amount, c.currency, c.order, customer)];
      } else {
        var p := existing.value;
        payments := payments[c.payment := p.(status := status, order := Else(c.order, p.order),
                                             customer := Else(customer, p.customer))];
      }
      if c.order.Some? {
        var order := orders[c.order.value];
        var next := NextOrderStatus(e.kind, order.status, full);
        if next != order.status && Allowed(next, order.status) {
          orders := orders[c.order.value := order.(status := next)];
        }
      }
    }

    /** grantConfiguredEntitlements and grantConfiguredCredits for an order; false where the source throws. */
    method GrantOrder(order: string, validFrom: int) returns (ok: bool)
      requires order in orders
      modifies this`entitlements, this`credited
      ensures ok <==> !GrantConflicts(old(Snapshot()), order, validFrom)
      ensures ok ==> Snapshot() == Granted(old(Snapshot()), order, validFrom)
      ensures !ok ==> Snapshot() == old(Snapshot())
    {
      if !orders[order].oneTime {
        return true;
      }
      if orders[order].grantsAccess {
        if order !in entitlements {
          entitlements := entitlements[order := Entitlement(true, validFrom)];
        } else if entitlements[order].validFrom != validFrom {
          return false;
        }
      }
      credited := credited + {order};
      return true;
    }

    method PutRefundFact(e: Event, c: Context, amount: int)
      modifies this`refunds
      ensures refunds == PutRefund(old(refunds), RefundId(e), c.payment, amount)
    {
      var found := FindRefund(refunds, RefundId(e));
      if found.Some? {
        refunds := refunds[found.value := refunds[found.value].(status := RefundSucceeded, amount := Some(amount))];
      } else {
        refunds := refunds + [PaymentEvents.Refund(RefundId(e), c.payment, RefundSucceeded, Some(amount))];
      }
    }

    method HandleRefund(e: Event, c: Context) returns (outcome: Outcome)
      requires e.kind.Refunding? && (c.order.Some? ==> c.order.value in orders)
      modifies this
      ensures outcome == ApplyRefund(old(Snapshot()), e, c)
      ensures outcome.Threw? ==> Snapshot() == old(Snapshot())
      ensures !outcome.Threw? ==> Snapshot() == outcome.books
    {
      hide PlanRefund, PutRefund, PutOrder;
      var plan := PlanRefundEvent(e, c);
      match plan
      case Refused(error) => return Threw(error);
      case AlreadyRecorded => return Ignored(Snapshot());
      case NothingLeft(_) => return Ignored(Snapshot());
      case Planned(_, amount, full) =>
        WritePaymentAndOrder(e, c, full);
        PutRefundFact(e, c, amount);
        if full && c.order.Some? {
          entitlements := Revoked(entitlements, c.order.value);
        }
        return Applied(Snapshot());
    }

    method HandleSuccess(e: Event, c: Context) returns (outcome: Outcome)
      requires e.kind.Succeeding? && (c.order.Some? ==> c.order.value in orders)
      modifies this
      ensures outcome == ApplySuccess(old(Snapshot()), e, c)
      ensures outcome.Threw? ==> Snapshot() == old(Snapshot())
      ensures !outcome.Threw? ==> Snapshot() == outcome.books
    {
      var existing := Existing(Snapshot(), c.payment);
      if existing.Some? && existing.value.status.Succeeded? {
        if c.order.None? || orders[c.order.value].status.OrderPaid? || orders[c.order.value].status.OrderRefunded? {
          return Ignored(Snapshot());
        }
      }
      if existing.Some? && existing.value.status.Refunded? {
        return Ignored(Snapshot());
      }
      var savedPayments, savedOrders := payments, orders;
      WritePaymentAndOrder(e, c, false);
      if c.order.Some? {
        var ok := GrantOrder(c.order.value, e.occurredAt);
        if !ok {
          payments, orders := savedPayments, savedOrders;
          return Threw(EntitlementConflict);
        }
      }
      return Applied(Snapshot());
    }

    /** applyPaymentEvent */
    method ApplyPaymentEvent(e: Event) returns (outcome: Outcome)
      modifies this
      ensures outcome == Apply(old(Snapshot()), e)
      ensures Snapshot() == After(old(Snapshot()), e)
    {
      var admitted := Admit(Snapshot(), e);
      if admitted.Failure? {
        return Threw(admitted.error);
      }
      var c := admitted.value;
      match e.kind
      case Refunding => outcome := HandleRefund(e, c);
      case Succeeding => outcome := HandleSuccess(e, c);
      case Failing =>
        var existing := Existing(Snapshot(), c.payment);
        if existing.Some? && (existing.value.status.Succeeded? || existing.value.status.Refunded?) {
          return Ignored(Snapshot());
        }
        WritePaymentAndOrder(e, c, false);
        outcome := Applied(Snapshot());
    }
  }
}
