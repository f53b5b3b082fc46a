/**
 * What payment events only ever move forward: write-once amounts and bindings,
 * statuses, refund facts, what was granted.
 */
module PaymentGrowth {
  import opened Wrappers
  import opened PaymentEvents
  import opened PaymentFacts

  // ---- what only ever moves forward ----

  function Rank(status: OrderStatus): nat {
    match status
    case OrderPending => 0
    case OrderFailed => 1
    case OrderPaid => 2
    case OrderRefunded => 3
  }

  function PaymentRank(status: PaymentStatus): nat {
    match status
    case Pending => 0
    case Failed => 1
    case Succeeded => 2
    case Refunded => 3
  }

  predicate WrittenOnce<T(==)>(before: Option<T>, after: Option<T>) {
    before.Some? ==> after == before
  }

  predicate PaymentGrows(before: Payment, after: Payment) {
    && after.amount == before.amount && after.currency == before.currency
    && WrittenOnce(before.order, after.order) && WrittenOnce(before.customer, after.customer)
    && PaymentRank(before.status) <= PaymentRank(after.status)
  }

  predicate OrderGrows(before: Order, after: Order) {
    after.(status := before.status) == before && Rank(before.status) <= Rank(after.status)
  }

  /** A refund fact keeps its id and its payment, and stays succeeded. */
  predicate RefundForward(before: Refund, after: Refund) {
    && after.id == before.id && after.payment == before.payment
    && (before.status.RefundSucceeded? ==> after.status.RefundSucceeded?)
  }

  predicate EntitlementGrows(before: Entitlement, after: Entitlement) {
    after.validFrom == before.validFrom && (after.active ==> before.active)
  }

  ghost predicate RefundsForward(before: seq<Refund>, after: seq<Refund>) {
    |before| <= |after| && forall i :: 0 <= i < |before| ==> RefundForward(before[i], after[i])
  }

  /** What every event keeps. */
  ghost predicate Forward(before: Books, after: Books) {
    && (forall q :: q in before.payments ==>
          q in after.payments && PaymentGrows(before.payments[q], after.payments[q]))
    && before.orders.Keys == after.orders.Keys
    && (forall o :: o in before.orders ==> OrderGrows(before.orders[o], after.orders[o]))
    && RefundsForward(before.refunds, after.refunds)
    && (forall o :: o in before.entitlements ==>
          o in after.entitlements && EntitlementGrows(before.entitlements[o], after.entitlements[o]))
    && before.credited <= after.credited && before.customers == after.customers
  }

  ghost predicate SucceededStay(before: seq<Refund>, after: seq<Refund>) {
    && |before| <= |after|
    && forall i :: 0 <= i < |before| && before[i].status.RefundSucceeded? ==> after[i] == before[i]
  }

  /** The same, and no succeeded refund changes. */
  ghost predicate Grows(before: Books, after: Books) {
    Forward(before, after) && SucceededStay(before.refunds, after.refunds)
  }

  /** The context's references agree with what the payment row already says. */
  lemma AdmittedBindings(books: Books, e: Event, status: PaymentStatus)
    requires Admit(books, e).Success?
    requires var c := Admit(books, e).value;
             c.payment in books.payments ==> PaymentRank(books.payments[c.payment].status) <= PaymentRank(status)
    ensures var c := Admit(books, e).value;
            forall q :: q in books.payments ==>
              q in PutPayment(books, e, c, status)
                && PaymentGrows(books.payments[q], PutPayment(books, e, c, status)[q])
  {
  }

  lemma PutOrderGrows(orders: map<string, Order>, order: Option<string>, kind: EventKind, full: bool)
    requires order.Some? ==> order.value in orders
    ensures var after := PutOrder(orders, order, kind, full);
            after.Keys == orders.Keys && forall o :: o in orders ==> OrderGrows(orders[o], after[o])
  {
  }

  lemma PutRefundForward(rows: seq<Refund>, id: string, payment: string, amount: int)
    ensures RefundsForward(rows, PutRefund(rows, id, payment, amount))
  {
  }

  lemma SupersededForward(rows: seq<Refund>, payment: string)
    ensures RefundsForward(rows, Superseded(rows, payment))
  {
  }

  lemma PlannedForward(books: Books, e: Event, c: Context)
    requires PlanRefund(books, e, c).Planned?
    ensures var plan := PlanRefund(books, e, c);
            RefundsForward(books.refunds, PutRefund(plan.rows, RefundId(e), c.payment, plan.amount))
  {
    hide PlanRefund, PutRefund;
    var plan := PlanRefund(books, e, c);
    PlannedRows(books, e, c);
    SupersededForward(books.refunds, c.payment);
    PutRefundForward(plan.rows, RefundId(e), c.payment, plan.amount);
  }

  /** Every event moves the books forward. */
  lemma ApplyMovesForward(books: Books, e: Event)
    ensures Forward(books, After(books, e))
  {
    hide Forward, PlanRefund;
    ForwardSelf(books);
    var admitted := Admit(books, e);
    if admitted.Success? {
      var c := admitted.value;
      match e.kind
      case Succeeding => SuccessForward(books, e, c);
      case Failing => FailureForward(books, e, c);
      case Refunding => RefundingForward(books, e, c);
    }
  }

  lemma ForwardSelf(books: Books)
    ensures Forward(books, books)
  {
  }

  lemma ForwardChains(x: Books, y: Books, z: Books)
    requires Forward(x, y) && Forward(y, z)
    ensures Forward(x, z)
  {
  }

  lemma GrowsChains(x: Books, y: Books, z: Books)
    requires Grows(x, y) && Grows(y, z)
    ensures Grows(x, z)
  {
    ForwardChains(x, y, z);
    hide Forward;
  }

  lemma GrowsSelf(books: Books)
    ensures Grows(books, books)
  {
  }

  lemma GrantedForward(books: Books, order: string, validFrom: int)
    requires order in books.orders
    ensures Forward(books, Granted(books, order, validFrom))
  {
  }

  lemma BookedForward(books: Books, payments: map<string, Payment>, orders: map<string, Order>)
    requires orders.Keys == books.orders.Keys
             && forall o :: o in books.orders ==> OrderGrows(books.orders[o], orders[o])
    requires forall q :: q in books.payments ==> q in payments && PaymentGrows(books.payments[q], payments[q])
    ensures Forward(books, books.(payments := payments, orders := orders))
  {
  }

  lemma SuccessForward(books: Books, e: Event, c: Context)
    requires e.kind.Succeeding? && Admit(books, e) == Success(c)
    ensures Forward(books, After(books, e))
  {
    hide Admit, PutPayment, PutOrder, Granted, Forward;
    var payments := PutPayment(books, e, c, Succeeded);
    var orders := PutOrder(books.orders, c.order, Succeeding, false);
    var booked := books.(payments := payments, orders := orders);
    ForwardSelf(books);
    if c.payment !in books.payments || !books.payments[c.payment].status.Refunded? {
      PutOrderGrows(books.orders, c.order, Succeeding, false);
      AdmittedBindings(books, e, Succeeded);
      BookedForward(books, payments, orders);
      if c.order.Some? {
        GrantedForward(booked, c.order.value, e.occurredAt);
        ForwardChains(books, booked, Granted(booked, c.order.value, e.occurredAt));
      }
    }
  }

  lemma FailureForward(books: Books, e: Event, c: Context)
    requires e.kind.Failing? && Admit(books, e) == Success(c)
    ensures Forward(books, After(books, e))
  {
    PutOrderGrows(books.orders, c.order, Failing, false);
    if c.payment !in books.payments || PaymentRank(books.payments[c.payment].status) < 2 {
      AdmittedBindings(books, e, NextStatus(Failing, Existing(books, c.payment), false));
    }
    hide Admit, PutPayment, PutOrder;
  }

  lemma RefundingForward(books: Books, e: Event, c: Context)
    requires e.kind.Refunding? && Admit(books, e) == Success(c)
    ensures Forward(books, After(books, e))
  {
    hide PlanRefund, PutRefund, RefundsForward;
    match PlanRefund(books, e, c)
    case NothingLeft(rows) =>
      NothingLeftRows(books, e, c);
      SupersededForward(books.refunds, c.payment);
      RefundsForwardSelf(books.refunds);
    case Planned(rows, amount, full) =>
      PutOrderGrows(books.orders, c.order, Refunding, full);
      AdmittedBindings(books, e, NextStatus(Refunding, Existing(books, c.payment), full));
      PlannedForward(books, e, c);
      hide Admit, PutPayment, PutOrder;
    case _ => RefundsForwardSelf(books.refunds);
  }

  lemma RefundsForwardSelf(rows: seq<Refund>)
    ensures RefundsForward(rows, rows)
  {
  }

  // ---- succeeded refunds, exactly ----

  /** The event has no refund id, the id derived from it is the row's, and what it books is not what the row says. */
  predicate Rewrites(books: Books, e: Event, row: Refund) {
    && TakenId(books, e) && row.id == FallbackId(e)
    && row.amount != Some(AmountUnnamed(books, e, Admit(books, e).value))
  }

  predicate SameFact(before: Refund, after: Refund) {
    after.id == before.id && after.payment == before.payment && after.status == before.status
  }

  /** With a refund id, a succeeded row under that id stops the event, and rows under other ids are not written. */
  lemma NamedPlanSpares(books: Books, e: Event, c: Context, i: nat)
    requires e.refund.Some? && UniqueRefunds(books.refunds)
    requires i < |books.refunds| && books.refunds[i].status.RefundSucceeded?
    ensures var plan := PlanRefund(books, e, c);
            && (plan.Planned? || plan.NothingLeft? ==>
                |plan.rows| == |books.refunds| && plan.rows[i] == books.refunds[i])
            && (plan.Planned? ==> e.refund.value != books.refunds[i].id)
  {
    hide TallyTo;
    OnlyRow(books.refunds, e.refund.value);
  }

  lemma PutRefundSpares(rows: seq<Refund>, id: string, payment: string, amount: int, i: nat)
    requires UniqueRefunds(rows) && i < |rows|
    ensures var after := PutRefund(rows, id, payment, amount);
            && UniqueRefunds(after) && i < |after|
            && after[i] == if rows[i].id == id then rows[i].(status := RefundSucceeded, amount := Some(amount))
              else rows[i]
  {
  }

  /**
   * A succeeded refund changes exactly at a refund event without a refund id
   * whose derived id is the row's, with something left to refund and another
   * amount to book; and then only its amount changes.
   */
  lemma SucceededRefundChangesExactly(books: Books, e: Event, i: nat)
    requires UniqueRefunds(books.refunds) && i < |books.refunds| && books.refunds[i].status.RefundSucceeded?
    ensures var after := After(books, e).refunds;
            && i < |after| && SameFact(books.refunds[i], after[i])
            && (after[i] != books.refunds[i] <==> Rewrites(books, e, books.refunds[i]))
  {
    hide Admit, PlanRefund, PutRefund, PutPayment, PutOrder, Granted, Headroom, UniqueRefunds, AmountUnnamed;
    OnlyRow(books.refunds, FallbackId(e));
    if !e.kind.Refunding? {
      OnlyRefundsTouchRefunds(books, e);
    } else if Admit(books, e).Success? {
      var c := Admit(books, e).value;
      var plan := PlanRefund(books, e, c);
      if e.refund.None? {
        UnnamedPlan(books, e, c);
      } else {
        NamedPlanSpares(books, e, c, i);
      }
      if plan.Planned? {
        PlannedUnique(books, e, c);
        PutRefundSpares(plan.rows, RefundId(e), c.payment, plan.amount, i);
      }
    }
  }

  /** An event keeps everything exactly if it rewrites no succeeded refund. */
  lemma GrowsExactly(books: Books, e: Event)
    requires UniqueRefunds(books.refunds)
    ensures Grows(books, After(books, e))
            <==> forall i :: 0 <= i < |books.refunds| && books.refunds[i].status.RefundSucceeded? ==>
                   !Rewrites(books, e, books.refunds[i])
  {
    hide Forward, After, UniqueRefunds, Rewrites;
    ApplyMovesForward(books, e);
    forall i | 0 <= i < |books.refunds| && books.refunds[i].status.RefundSucceeded?
      ensures i < |After(books, e).refunds|
      ensures After(books, e).refunds[i] != books.refunds[i] <==> Rewrites(books, e, books.refunds[i])
    {
      SucceededRefundChangesExactly(books, e, i);
    }
    LengthGrows(books, e);
  }

  lemma LengthGrows(books: Books, e: Event)
    ensures |books.refunds| <= |After(books, e).refunds|
  {
    hide After;
    ApplyMovesForward(books, e);
  }

  lemma ApplyGrows(books: Books, e: Event)
    requires UniqueRefunds(books.refunds) && OwnFallback(books, e)
    ensures Grows(books, After(books, e))
  {
    hide Grows, After, Admit, Headroom;
    GrowsExactly(books, e);
  }

  // ---- failures ----

  function KnownCustomer(books: Books, e: Event): Option<string> {
    if e.customer.Some? && e.customer.value in books.customers then e.customer else None
  }

  predicate IsSettled(books: Books, payment: string) {
    payment in books.payments && (books.payments[payment].status.Succeeded? || books.payments[payment].status.Refunded?)
  }

  /**
   * The failure says nothing of a new payment that the success does not say:
   * the same amount and currency, and no other order or customer.
   */
  predicate SaysNoMore(books: Books, f: Event, s: Event)
    requires Admit(books, f).Success? && Admit(books, s).Success?
  {
    var cf, cs := Admit(books, f).value, Admit(books, s).value;
    var existing := Existing(books, cs.payment);
    && (existing.None? ==> cf.amount == cs.amount && cf.currency == cs.currency)
    && (cf.order.Some? ==> cf.order == cs.order)
    && (KnownCustomer(books, f).Some? ==>
          KnownCustomer(books, f)
          == Else(KnownCustomer(books, s), if existing.Some? then existing.value.customer else None))
  }

  /** What a failure books. */
  lemma FailureBooks(books: Books, f: Event)
    requires f.kind.Failing?
    ensures After(books, f)
            == if Admit(books, f).Failure? || IsSettled(books, Admit(books, f).value.payment) then books
               else
                 var c := Admit(books, f).value;
                 books.(payments := PutPayment(books, f, c, Failed),
                        orders := PutOrder(books.orders, c.order, Failing, false))
  {
    hide Admit, PutPayment, PutOrder;
  }

  /** What a success that goes through leaves of its payment. */
  lemma SuccessBooks(books: Books, s: Event)
    requires s.kind.Succeeding? && Apply(books, s).Applied?
    ensures Admit(books, s).Success?
    ensures var c := Admit(books, s).value;
            && s.payment == Some(c.payment)
            && After(books, s).payments == PutPayment(books, s, c, Succeeded)
            && !(c.payment in books.payments && books.payments[c.payment].status.Refunded?)
  {
    hide Admit, PutPayment, PutOrder;
  }

  /** A success is admitted for the same payment and order after a failure that says no more. */
  lemma AdmittedAfterFailure(books: Books, f: Event, s: Event)
    requires f.payment == s.payment && Admit(books, f).Success? && Admit(books, s).Success? && SaysNoMore(books, f, s)
    ensures var cf, cs := Admit(books, f).value, Admit(books, s).value;
            var failed := books.(payments := PutPayment(books, f, cf, Failed),
                                 orders := PutOrder(books.orders, cf.order, Failing, false));
            && Admit(failed, s).Success?
            && Admit(failed, s).value.payment == cs.payment && Admit(failed, s).value.order == cs.order
            && PutPayment(failed, s, Admit(failed, s).value, Succeeded) == PutPayment(books, s, cs, Succeeded)
            && PutOrder(failed.orders, cs.order, Succeeding, false)
              == PutOrder(books.orders, cs.order, Succeeding, false)
  {
  }

  /** Whatever comes after it, a failure that says more has left it with the payment. */
  lemma FailureLeavesTrace(books: Books, f: Event, s: Event)
    requires f.kind.Failing? && s.kind.Succeeding? && f.payment == s.payment && Apply(books, s).Applied?
    requires Admit(books, f).Success? && !IsSettled(books, f.payment.value) && Admit(books, s).Success?
    requires !SaysNoMore(books, f, s)
    ensures After(After(books, f), s) != After(books, s)
  {
    FailureBooks(books, f);
    SuccessBooks(books, s);
    var failed := After(books, f);
    ApplyMovesForward(failed, s);
    hide Apply, PutOrder;
  }

  /**
   * A failure notice before the success makes no difference exactly if it is
   * rejected, finds the payment settled, or says no more than the success
   * does; after the success it never makes one.
   */
  lemma FailureIsForgottenExactly(books: Books, f: Event, s: Event)
    requires f.kind.Failing? && s.kind.Succeeding? && f.payment == s.payment && Apply(books, s).Applied?
    ensures Admit(books, s).Success?
    ensures After(After(books, f), s) == After(books, s)
            <==> Admit(books, f).Failure? || IsSettled(books, f.payment.value) || SaysNoMore(books, f, s)
    ensures After(After(books, s), f) == After(books, s)
  {
    FailureComesTooLate(books, f, s);
    FailureBooks(books, f);
    SuccessBooks(books, s);
    if Admit(books, f).Success? && !IsSettled(books, f.payment.value) {
      if SaysNoMore(books, f, s) {
        AdmittedAfterFailure(books, f, s);
        hide Admit, PutPayment, SaysNoMore;
      } else {
        FailureLeavesTrace(books, f, s);
      }
    }
  }

  /** A failure notice after the success makes no difference at all. */
  lemma FailureComesTooLate(books: Books, f: Event, s: Event)
    requires f.kind.Failing? && s.kind.Succeeding? && f.payment == s.payment && Apply(books, s).Applied?
    ensures After(After(books, s), f) == After(books, s)
  {
    var after := After(books, s);
    assert s.payment.value in after.payments && after.payments[s.payment.value].status == Succeeded;
  }
}
