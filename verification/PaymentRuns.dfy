/**
 * Whole histories of payment events, with the refund journal as environment:
 * it may record a refund as pending before the provider confirms it, and give
 * a pending refund up.
 */
module PaymentRuns {
  import opened Wrappers
  import opened PaymentEvents
  import opened PaymentFacts
  import opened PaymentGrowth

  datatype Happening =
    | Deliver(e: Event)
    | Promise(refund: string, payment: string, amount: Option<int>)
    | Abandon(refund: string)

  predicate Valid(h: Happening) {
    h.Promise? && h.amount.Some? ==> 0 <= h.amount.value
  }

  function Happen(books: Books, h: Happening): Books {
    match h
    case Deliver(e) => After(books, e)
    case Promise(id, payment, amount) =>
      if payment in books.payments && FindRefund(books.refunds, id).None?
      then books.(refunds := books.refunds + [Refund(id, payment, RefundPending, amount)])
      else books
    case Abandon(id) =>
      var i := FindRefund(books.refunds, id);
      if i.Some? && books.refunds[i.value].status.RefundPending?
      then books.(refunds := books.refunds[i.value := books.refunds[i.value].(status := RefundFailed)])
      else books
  }

  function RunTo(books: Books, hs: seq<Happening>, n: nat): Books
    requires n <= |hs|
  {
    if n == 0 then books else Happen(RunTo(books, hs, n - 1), hs[n - 1])
  }

  // ---- the ids refunds are booked under ----

  const FALLBACK_PREFIX := "event:"

  /** Neither the provider nor the journal uses ids that look like the ones derived from event ids. */
  predicate ForeignId(id: string) {
    !(FALLBACK_PREFIX <= id)
  }

  ghost predicate Tidy(hs: seq<Happening>) {
    && (forall i :: 0 <= i < |hs| ==> TidyOne(hs[i]))
    && (forall i, j :: 0 <= i < j < |hs| && UsesFallback(hs[i]) && UsesFallback(hs[j]) ==> hs[i].e.id != hs[j].e.id)
  }

  predicate TidyOne(h: Happening) {
    && Valid(h)
    && (h.Deliver? && h.e.refund.Some? ==> ForeignId(h.e.refund.value))
    && (h.Promise? ==> ForeignId(h.refund))
  }

  predicate UsesFallback(h: Happening) {
    h.Deliver? && h.e.refund.None?
  }

  /** A row under a derived id was booked by an event of the history. */
  ghost predicate Derived(rows: seq<Refund>, hs: seq<Happening>, n: nat)
    requires n <= |hs|
  {
    forall k :: 0 <= k < |rows| && !ForeignId(rows[k].id) ==> DerivedFrom(rows[k].id, hs, n)
  }

  ghost predicate DerivedFrom(id: string, hs: seq<Happening>, n: nat)
    requires n <= |hs|
  {
    exists i :: 0 <= i < n && UsesFallback(hs[i]) && FallbackId(hs[i].e) == id
  }

  lemma PutRefundIds(rows: seq<Refund>, id: string, payment: string, amount: int, k: nat)
    requires k < |PutRefund(rows, id, payment, amount)|
    ensures var after := PutRefund(rows, id, payment, amount);
            after[k].id == id || (k < |rows| && after[k].id == rows[k].id)
  {
  }

  lemma ApplyIds(books: Books, e: Event, k: nat)
    requires k < |After(books, e).refunds|
    ensures var after := After(books, e).refunds;
            after[k].id == RefundId(e) || (k < |books.refunds| && after[k].id == books.refunds[k].id)
  {
    hide PlanRefund, PutRefund, Admit;
    var admitted := Admit(books, e);
    if admitted.Success? && e.kind.Refunding? {
      var plan := PlanRefund(books, e, admitted.value);
      if plan.Planned? {
        PlannedRows(books, e, admitted.value);
        PutRefundIds(plan.rows, RefundId(e), admitted.value.payment, plan.amount, k);
      } else if plan.NothingLeft? {
        NothingLeftRows(books, e, admitted.value);
      }
    }
  }

  lemma HappenKeepsDerived(books: Books, hs: seq<Happening>, n: nat)
    requires n < |hs| && TidyOne(hs[n]) && Derived(books.refunds, hs, n)
    ensures Derived(Happen(books, hs[n]).refunds, hs, n + 1)
  {
    var rows := Happen(books, hs[n]).refunds;
    forall k | 0 <= k < |rows| && !ForeignId(rows[k].id) ensures DerivedFrom(rows[k].id, hs, n + 1) {
      if hs[n].Deliver? {
        ApplyIds(books, hs[n].e, k);
      }
      if k < |books.refunds| && rows[k].id == books.refunds[k].id {
        var i :| 0 <= i < n && UsesFallback(hs[i]) && FallbackId(hs[i].e) == rows[k].id;
      }
    }
    hide Apply;
  }

  lemma FallbackIsInjective(x: Event, y: Event)
    requires x.id != y.id
    ensures FallbackId(x) != FallbackId(y)
  {
    assert x.id == FallbackId(x)[|FALLBACK_PREFIX|..];
    assert y.id == FallbackId(y)[|FALLBACK_PREFIX|..];
  }

  lemma FallbackIsFree(books: Books, hs: seq<Happening>, n: nat)
    requires n < |hs| && Tidy(hs) && hs[n].Deliver? && Derived(books.refunds, hs, n)
    ensures OwnFallback(books, hs[n].e)
  {
    var e := hs[n].e;
    if e.refund.None? {
      assert FALLBACK_PREFIX <= FallbackId(e);
      forall i | 0 <= i < n && UsesFallback(hs[i]) ensures FallbackId(hs[i].e) != FallbackId(e) {
        FallbackIsInjective(hs[i].e, e);
      }
    }
  }

  // ---- the journal ----

  /** A pending row adds nothing to what is confirmed. */
  lemma PromisedTally(rows: seq<PaymentEvents.Refund>, row: PaymentEvents.Refund, q: string)
    requires row.status.RefundPending?
    ensures TallyOf(rows + [row], q, None).confirmed == TallyOf(rows, q, None).confirmed
  {
    TallyAgrees(rows + [row], None, rows, None, q, |rows|);
  }

  lemma PromiseKeepsRows(books: Books, id: string, payment: string, amount: Option<int>)
    requires RowsValid(books) && (amount.Some? ==> 0 <= amount.value)
    ensures var after := Happen(books, Promise(id, payment, amount));
            && RowsValid(after) && Grows(books, after)
            && forall q :: Confirmed(after, q) == Confirmed(books, q) && TerminalAt(after, q) == TerminalAt(books, q)
  {
    hide TallyTo;
    if payment in books.payments && FindRefund(books.refunds, id).None? {
      var row := Refund(id, payment, RefundPending, amount);
      forall q ensures TallyOf(books.refunds + [row], q, None).confirmed == Confirmed(books, q) {
        PromisedTally(books.refunds, row, q);
      }
    }
  }

  /** Giving up a pending row takes nothing off what was confirmed. */
  lemma AbandonedTally(rows: seq<Refund>, i: nat, q: string)
    requires UniqueRefunds(rows) && i < |rows| && rows[i].status.RefundPending?
    ensures var after := rows[i := rows[i].(status := RefundFailed)];
            UniqueRefunds(after) && TallyOf(after, q, None).confirmed == TallyOf(rows, q, None).confirmed
  {
    var after := rows[i := rows[i].(status := RefundFailed)];
    TallyWithout(after, q, i, |after|);
    TallyWithout(rows, q, i, |after|);
    TallyAgrees(after, Some(rows[i].id), rows, Some(rows[i].id), q, |after|);
  }

  lemma AbandonKeepsRows(books: Books, id: string)
    requires RowsValid(books)
    ensures var after := Happen(books, Abandon(id));
            && RowsValid(after) && Grows(books, after)
            && forall q :: Confirmed(after, q) == Confirmed(books, q) && TerminalAt(after, q) == TerminalAt(books, q)
  {
    hide TallyTo, UniqueRefunds;
    var i := FindRefund(books.refunds, id);
    if i.Some? && books.refunds[i.value].status.RefundPending? {
      AbandonedTally(books.refunds, i.value, "");
      forall q ensures Confirmed(Happen(books, Abandon(id)), q) == Confirmed(books, q) {
        AbandonedTally(books.refunds, i.value, q);
      }
    }
  }

  /** The journal confirms nothing and changes no payment. */
  lemma JournalKeepsRows(books: Books, h: Happening)
    requires RowsValid(books) && Valid(h) && !h.Deliver?
    ensures var after := Happen(books, h);
            && RowsValid(after) && Grows(books, after)
            && forall q :: Confirmed(after, q) == Confirmed(books, q) && TerminalAt(after, q) == TerminalAt(books, q)
  {
    hide RowsValid, Grows, TerminalAt, Confirmed;
    match h
    case Promise(id, payment, amount) => PromiseKeepsRows(books, id, payment, amount);
    case Abandon(id) => AbandonKeepsRows(books, id);
  }

  // ---- every history ----

  lemma HappenMovesForward(books: Books, h: Happening)
    requires RowsValid(books) && Valid(h)
    ensures RowsValid(Happen(books, h)) && Forward(books, Happen(books, h))
  {
    hide RowsValid, Forward, After;
    if h.Deliver? {
      ApplyKeepsRows(books, h.e);
      ApplyMovesForward(books, h.e);
    } else {
      JournalKeepsRows(books, h);
    }
  }

  ghost predicate AllValid(hs: seq<Happening>) {
    forall i :: 0 <= i < |hs| ==> Valid(hs[i])
  }

  /**
   * From any moment of any history to any later one: amounts, currencies and
   * bindings keep what they say, statuses only move forward, refund facts
   * keep their payment and stay succeeded, and what was granted stays granted.
   */
  lemma {:induction false} HistoryMovesForward(books: Books, hs: seq<Happening>, m: nat, n: nat)
    requires RowsValid(books) && AllValid(hs) && m <= n <= |hs|
    ensures RowsValid(RunTo(books, hs, n)) && Forward(RunTo(books, hs, m), RunTo(books, hs, n))
    decreases n
  {
    hide RowsValid, Forward, Happen;
    if 0 < n {
      HistoryMovesForward(books, hs, if m < n then m else n - 1, n - 1);
      var before := RunTo(books, hs, n - 1);
      HappenMovesForward(before, hs[n - 1]);
      if m < n {
        ForwardChains(RunTo(books, hs, m), before, RunTo(books, hs, n));
      }
    }
    if m == n {
      ForwardSelf(RunTo(books, hs, n));
    }
  }

  // ---- tidy histories ----

  lemma HappenKeepsAll(books: Books, h: Happening)
    requires ValidBooks(books) && Valid(h) && (h.Deliver? ==> OwnFallback(books, h.e))
    ensures ValidBooks(Happen(books, h)) && Grows(books, Happen(books, h))
  {
    hide RowsValid, TerminalAt, Grows, UniqueRefunds, After, OwnFallback;
    if h.Deliver? {
      ApplyKeepsValid(books, h.e);
      RowsUnique(books);
      ApplyGrows(books, h.e);
    } else {
      JournalKeepsRows(books, h);
      JournalKeepsPayments(books, h);
    }
  }

  lemma JournalKeepsPayments(books: Books, h: Happening)
    requires !h.Deliver?
    ensures Happen(books, h).payments == books.payments && Happen(books, h).orders == books.orders
    ensures Happen(books, h).entitlements == books.entitlements
  {
  }

  /**
   * Where derived refund ids neither repeat nor look like others, succeeded
   * refunds do not change either, and a payment is refunded exactly when its
   * confirmed refunds have reached what was captured.
   */
  lemma {:induction false} TidyHistoryKeepsAll(books: Books, hs: seq<Happening>, m: nat, n: nat)
    requires ValidBooks(books) && Tidy(hs) && Derived(books.refunds, hs, 0) && m <= n <= |hs|
    ensures ValidBooks(RunTo(books, hs, n)) && Derived(RunTo(books, hs, n).refunds, hs, n)
    ensures Grows(RunTo(books, hs, m), RunTo(books, hs, n))
    decreases n
  {
    hide ValidBooks, Derived, Grows, OwnFallback, Happen;
    if 0 < n {
      TidyHistoryKeepsAll(books, hs, if m < n then m else n - 1, n - 1);
      var before := RunTo(books, hs, n - 1);
      if hs[n - 1].Deliver? {
        FallbackIsFree(before, hs, n - 1);
      }
      assert TidyOne(hs[n - 1]);
      HappenKeepsAll(before, hs[n - 1]);
      HappenKeepsDerived(before, hs, n - 1);
      if m < n {
        GrowsChains(RunTo(books, hs, m), before, RunTo(books, hs, n));
      }
    }
    if m == n {
      GrowsSelf(RunTo(books, hs, n));
    }
  }

  // ---- access after a refund ----

  /** One payment per order: `pays` says which. */
  ghost predicate PaysFor(books: Books, pays: string -> string) {
    forall q :: q in books.payments && books.payments[q].order.Some? ==> pays(books.payments[q].order.value) == q
  }

  predicate AboutItsOwn(e: Event, pays: string -> string) {
    e.order.Some? && e.payment.Some? ==> pays(e.order.value) == e.payment.value
  }

  ghost predicate NoAccessAfterRefund(books: Books, pays: string -> string) {
    forall o :: o in books.orders && books.orders[o].status.OrderRefunded? ==>
      && pays(o) in books.payments && books.payments[pays(o)].status.Refunded?
      && (o in books.entitlements ==> !books.entitlements[o].active)
  }

  lemma AdmittedOrderIsPaidFor(books: Books, e: Event, pays: string -> string)
    requires PaysFor(books, pays) && AboutItsOwn(e, pays) && Admit(books, e).Success?
    ensures var c := Admit(books, e).value;
            c.order.Some? ==> pays(c.order.value) == c.payment && c.order.value in books.orders
  {
  }

  lemma BookedPaysFor(books: Books, e: Event, c: Context, status: PaymentStatus, pays: string -> string)
    requires PaysFor(books, pays) && (c.order.Some? ==> pays(c.order.value) == c.payment)
    ensures PaysFor(books.(payments := PutPayment(books, e, c, status)), pays)
  {
  }

  lemma SuccessKeepsNoAccess(books: Books, e: Event, c: Context, pays: string -> string)
    requires PaysFor(books, pays) && NoAccessAfterRefund(books, pays)
    requires c.order.Some? ==> pays(c.order.value) == c.payment && c.order.value in books.orders
    ensures ApplySuccess(books, e, c).Applied? ==> NoAccessAfterRefund(ApplySuccess(books, e, c).books, pays)
  {
  }

  lemma FailureKeepsNoAccess(books: Books, e: Event, c: Context, pays: string -> string)
    requires PaysFor(books, pays) && NoAccessAfterRefund(books, pays)
    requires c.order.Some? ==> pays(c.order.value) == c.payment && c.order.value in books.orders
    ensures ApplyFailure(books, e, c).Applied? ==> NoAccessAfterRefund(ApplyFailure(books, e, c).books, pays)
  {
  }

  lemma RefundKeepsNoAccess(books: Books, e: Event, c: Context, pays: string -> string)
    requires PaysFor(books, pays) && NoAccessAfterRefund(books, pays)
    requires c.order.Some? ==> pays(c.order.value) == c.payment && c.order.value in books.orders
    ensures ApplyRefund(books, e, c).Applied? ==> NoAccessAfterRefund(ApplyRefund(books, e, c).books, pays)
  {
    hide PlanRefund, PutRefund;
  }

  /** With one payment per order, an order that is refunded grants no access, and never will again. */
  lemma RefundedOrderGrantsNothing(books: Books, e: Event, pays: string -> string)
    requires PaysFor(books, pays) && NoAccessAfterRefund(books, pays) && AboutItsOwn(e, pays)
    ensures PaysFor(After(books, e), pays) && NoAccessAfterRefund(After(books, e), pays)
  {
    var admitted := Admit(books, e);
    if admitted.Success? {
      var c := admitted.value;
      var existing := Existing(books, c.payment);
      AdmittedOrderIsPaidFor(books, e, pays);
      hide PlanRefund, Admit, PutRefund, PutPayment, PutOrder, Granted;
      match e.kind
      case Succeeding =>
        SuccessKeepsNoAccess(books, e, c, pays);
        BookedPaysFor(books, e, c, Succeeded, pays);
        GrantedKeepsPayments(books.(payments := PutPayment(books, e, c, Succeeded),
                                    orders := PutOrder(books.orders, c.order, Succeeding, false)), c, e);
      case Failing =>
        FailureKeepsNoAccess(books, e, c, pays);
        BookedPaysFor(books, e, c, NextStatus(Failing, existing, false), pays);
      case Refunding =>
        RefundKeepsNoAccess(books, e, c, pays);
        BookedPaysFor(books, e, c, NextStatus(Refunding, existing, true), pays);
        BookedPaysFor(books, e, c, NextStatus(Refunding, existing, false), pays);
    }
  }

  lemma GrantedKeepsPayments(books: Books, c: Context, e: Event)
    requires c.order.Some? ==> c.order.value in books.orders
    ensures c.order.Some? ==> Granted(books, c.order.value, e.occurredAt).payments == books.payments
  {
  }

  ghost predicate AllAboutTheirOwn(hs: seq<Happening>, pays: string -> string) {
    forall i :: 0 <= i < |hs| && hs[i].Deliver? ==> AboutItsOwn(hs[i].e, pays)
  }

  lemma {:induction false} RefundedOrderGrantsNothingEver(books: Books, hs: seq<Happening>, n: nat,
                                                          pays: string -> string)
    requires n <= |hs| && AllAboutTheirOwn(hs, pays) && PaysFor(books, pays) && NoAccessAfterRefund(books, pays)
    ensures PaysFor(RunTo(books, hs, n), pays) && NoAccessAfterRefund(RunTo(books, hs, n), pays)
  {
    hide After;
    if 0 < n {
      RefundedOrderGrantsNothingEver(books, hs, n - 1, pays);
      if hs[n - 1].Deliver? {
        RefundedOrderGrantsNothing(RunTo(books, hs, n - 1), hs[n - 1].e, pays);
      }
    }
  }

  // ---- what an order grants ----

  /**
   * A success about a one-time order that is neither a replay nor too late:
   * its payment is not refunded, payment and order are not both settled, and
   * access was not granted with another start.
   */
  predicate Fulfils(books: Books, e: Event, o: string)
    requires o in books.orders
  {
    && e.kind.Succeeding? && Admit(books, e).Success? && Admit(books, e).value.order == Some(o)
    && books.orders[o].oneTime
    && !(&& books.orders[o].grantsAccess && o in books.entitlements
         && books.entitlements[o].validFrom != e.occurredAt)
    && (e.payment.value in books.payments ==>
          var status := books.payments[e.payment.value].status;
          && !status.Refunded?
          && !(status.Succeeded? && (books.orders[o].status.OrderPaid? || books.orders[o].status.OrderRefunded?)))
  }

  /**
   * Credits are granted exactly by a success that goes through, access with
   * them where the order is configured for it, and starting with that event.
   */
  lemma GrantsExactly(books: Books, e: Event, o: string)
    requires o in books.orders
    ensures var after := After(books, e);
            && (o in after.credited <==> o in books.credited || Fulfils(books, e, o))
            && (o in after.entitlements
                <==> o in books.entitlements || (Fulfils(books, e, o) && books.orders[o].grantsAccess))
            && (o !in books.entitlements && o in after.entitlements ==>
                after.entitlements[o] == Entitlement(true, e.occurredAt))
  {
    hide PlanRefund, PutRefund, PutPayment, Admit;
  }

  ghost predicate GrantsKept(before: Books, after: Books) {
    && before.credited <= after.credited
    && forall o :: o in before.entitlements ==>
        o in after.entitlements && EntitlementGrows(before.entitlements[o], after.entitlements[o])
  }

  lemma HappenKeepsGrants(books: Books, h: Happening)
    ensures GrantsKept(books, Happen(books, h))
  {
    hide Admit, PlanRefund, PutRefund, PutPayment, PutOrder;
  }

  /**
   * What was granted stays granted, in any history whatever: no second grant
   * moves an entitlement's start, and none brings back a revoked one.
   */
  lemma {:induction false} GrantsLast(books: Books, hs: seq<Happening>, m: nat, n: nat)
    requires m <= n <= |hs|
    ensures GrantsKept(RunTo(books, hs, m), RunTo(books, hs, n))
    decreases n
  {
    hide Happen;
    if m < n {
      GrantsLast(books, hs, m, n - 1);
      HappenKeepsGrants(RunTo(books, hs, n - 1), hs[n - 1]);
    }
  }
}
