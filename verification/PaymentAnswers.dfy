/**
 * What a payment event is answered with and what it books, in plain terms:
 * when it is rejected and why, what the first event of a payment writes, what
 * later events change, and what a refund is booked with.
 */
module PaymentAnswers {
  import opened Wrappers
  import opened PaymentEvents
  import opened PaymentFacts
  import opened PaymentGrowth

  // ---- what an event is about ----

  /** The event names a known order, or else its payment is bound to one. */
  predicate IsAbout(books: Books, e: Event, o: string) {
    && o in books.orders
    && (|| e.order == Some(o)
        || (&& (e.order.None? || e.order.value !in books.orders)
            && e.payment.Some? && e.payment.value in books.payments
            && books.payments[e.payment.value].order == Some(o)))
  }

  ghost predicate HasOrder(books: Books, e: Event) {
    exists o :: IsAbout(books, e, o)
  }

  predicate HasPayment(books: Books, e: Event) {
    e.payment.Some? && e.payment.value in books.payments
  }

  /** The row of its payment. */
  function PaymentOf(books: Books, e: Event): Payment
    requires HasPayment(books, e)
  {
    books.payments[e.payment.value]
  }

  lemma OrderIsAbout(books: Books, e: Event)
    requires e.payment.Some?
    ensures var order := OrderOf(books, e, Existing(books, e.payment.value));
            && (forall o :: IsAbout(books, e, o) <==> order == Some(o))
            && (HasOrder(books, e) <==> order.Some?)
  {
    var order := OrderOf(books, e, Existing(books, e.payment.value));
    if order.Some? {
      assert IsAbout(books, e, order.value);
    }
  }

  // ---- rejection ----

  /** The event contradicts what is recorded. */
  predicate OtherOrder(books: Books, e: Event) {
    HasPayment(books, e) && PaymentOf(books, e).order.Some? && e.order.Some? && e.order != PaymentOf(books, e).order
  }

  predicate OtherCustomer(books: Books, e: Event) {
    && HasPayment(books, e) && PaymentOf(books, e).customer.Some? && e.customer.Some?
    && e.customer != PaymentOf(books, e).customer
  }

  ghost predicate OtherCurrency(books: Books, e: Event) {
    && e.currency.Some?
    && (|| (exists o :: IsAbout(books, e, o) && books.orders[o].currency != e.currency.value)
        || (!HasOrder(books, e) && HasPayment(books, e) && PaymentOf(books, e).currency != e.currency.value))
  }

  /** Neither order nor payment is known, and the event does not say how much, or in what currency. */
  ghost predicate NothingToBook(books: Books, e: Event) {
    !HasPayment(books, e) && !HasOrder(books, e) && (e.amount.None? || e.currency.None?)
  }

  /** An event is admitted exactly if none of these is the case; the first that is the case is the error. */
  lemma AdmittedExactly(books: Books, e: Event)
    ensures var r := Admit(books, e);
            if e.amount.Some? && !(0 <= e.amount.value <= 9007199254740991) then r == Failure(InvalidAmount)
            else if e.payment.None? then r == Failure(MissingPayment)
            else if OtherOrder(books, e) then r == Failure(OrderConflict)
            else if OtherCustomer(books, e) then r == Failure(CustomerConflict)
            else if OtherCurrency(books, e) then r == Failure(CurrencyMismatch)
            else if NothingToBook(books, e) then r == Failure(MissingAmountOrCurrency)
            else r.Success?
    ensures Admit(books, e).Failure? ==> Apply(books, e) == Threw(Admit(books, e).error)
  {
    if e.payment.Some? {
      OrderIsAbout(books, e);
      CurrencyClash(books, e);
      hide OrderOf, IsAbout, HasOrder;
    }
  }

  lemma CurrencyClash(books: Books, e: Event)
    requires e.payment.Some?
    ensures var existing := Existing(books, e.payment.value); var order := OrderOf(books, e, existing);
            OtherCurrency(books, e)
            <==> && e.currency.Some?
                 && (if order.Some? then books.orders[order.value].currency != e.currency.value
                     else existing.Some? && existing.value.currency != e.currency.value)
  {
    OrderIsAbout(books, e);
    hide OrderOf, IsAbout, HasOrder;
  }

  // ---- the first event of a payment ----

  /** What the first event of a payment writes down as captured. */
  ghost predicate Captures(books: Books, e: Event, amount: int) {
    if e.kind.Refunding? then
      (if HasOrder(books, e) then exists o :: IsAbout(books, e, o) && amount == books.orders[o].total
       else e.amount == Some(amount))
    else if e.amount.Some? then amount == e.amount.value
    else exists o :: IsAbout(books, e, o) && amount == books.orders[o].total
  }

  ghost predicate InCurrency(books: Books, e: Event, currency: string) {
    if e.currency.Some? then currency == e.currency.value
    else exists o :: IsAbout(books, e, o) && currency == books.orders[o].currency
  }

  lemma AdmittedFirst(books: Books, e: Event)
    requires Admit(books, e).Success? && !HasPayment(books, e)
    ensures var c := Admit(books, e).value;
            && e.payment == Some(c.payment) && Captures(books, e, c.amount) && InCurrency(books, e, c.currency)
            && (forall o :: c.order == Some(o) <==> IsAbout(books, e, o))
  {
    OrderIsAbout(books, e);
    hide IsAbout, HasOrder;
  }

  /** The payment row the first event of a payment writes. */
  lemma FirstEventBooks(books: Books, e: Event, p: string)
    requires p !in books.payments && p in After(books, e).payments
    ensures var row := After(books, e).payments[p];
            && e.payment == Some(p) && Captures(books, e, row.amount) && InCurrency(books, e, row.currency)
            && (forall o :: row.order == Some(o) <==> IsAbout(books, e, o))
            && row.customer == (if e.customer.Some? && e.customer.value in books.customers then e.customer else None)
            && row.status
               == match e.kind
                  case Succeeding => Succeeded
                  case Failing => Failed
                  case Refunding =>
                    if e.amount.None? || row.amount <= e.amount.value then Refunded else Succeeded
  {
    NewPayment(books, e, p);
    AdmittedFirst(books, e);
    FirstRow(books, e, p);
    hide Admit, After, Captures, InCurrency, IsAbout;
  }

  lemma FirstRow(books: Books, e: Event, p: string)
    requires p !in books.payments && p in After(books, e).payments && Admit(books, e).Success?
    requires Admit(books, e).value.payment == p
    ensures var row := After(books, e).payments[p]; var c := Admit(books, e).value;
            && row.amount == c.amount && row.currency == c.currency && row.order == c.order
            && row.customer == (if e.customer.Some? && e.customer.value in books.customers then e.customer else None)
            && row.status
               == match e.kind
                  case Succeeding => Succeeded
                  case Failing => Failed
                  case Refunding =>
                    if e.amount.None? || row.amount <= e.amount.value then Refunded else Succeeded
  {
    hide Admit, TallyTo, PutRefund, PutOrder;
    if e.kind.Refunding? {
      NewPlan(books, e, Admit(books, e).value);
      hide PlanRefund;
    }
  }

  lemma NewPlan(books: Books, e: Event, c: Context)
    requires c.payment !in books.payments && PlanRefund(books, e, c).Planned?
    ensures PlanRefund(books, e, c).full <==> e.amount.None? || c.amount <= e.amount.value
  {
    hide TallyTo;
  }

  // ---- success and failure ----

  predicate IsPaid(o: Order) {
    o.status == OrderPaid || o.status == OrderRefunded
  }

  /** A success that comes too late or was there before. */
  ghost predicate SuccessIsKnown(books: Books, e: Event) {
    && HasPayment(books, e)
    && (|| PaymentOf(books, e).status == Refunded
        || (&& PaymentOf(books, e).status == Succeeded
            && forall o :: IsAbout(books, e, o) ==> IsPaid(books.orders[o])))
  }

  /** Access was granted for the order with another start. */
  ghost predicate OtherStart(books: Books, e: Event) {
    exists o :: && IsAbout(books, e, o) && books.orders[o].oneTime && books.orders[o].grantsAccess
                && o in books.entitlements && books.entitlements[o].validFrom != e.occurredAt
  }

  lemma SuccessAnswers(books: Books, e: Event)
    requires e.kind.Succeeding? && Admit(books, e).Success?
    ensures if SuccessIsKnown(books, e) then Apply(books, e) == Ignored(books)
            else if OtherStart(books, e) then Apply(books, e) == Threw(EntitlementConflict)
            else Apply(books, e).Applied?
  {
    AdmittedAbout(books, e);
    OrderIsAbout(books, e);
    hide IsAbout, PutPayment, PutOrder, Granted, HasOrder;
  }

  lemma FailureAnswers(books: Books, e: Event)
    requires e.kind.Failing? && Admit(books, e).Success?
    ensures if IsSettled(books, e.payment.value) then Apply(books, e) == Ignored(books) else Apply(books, e).Applied?
  {
    AdmittedAbout(books, e);
    hide Admit, PutPayment, PutOrder;
  }

  // ---- what a known payment and an order become ----

  /** References are filled in, never replaced. */
  ghost predicate FillsIn(books: Books, e: Event, before: Payment, after: Payment) {
    && after.amount == before.amount && after.currency == before.currency
    && (forall o :: IsAbout(books, e, o) ==> after.order == Some(o))
    && (!HasOrder(books, e) ==> after.order == before.order)
    && after.customer
       == (if e.customer.Some? && e.customer.value in books.customers then e.customer else before.customer)
  }

  lemma AdmittedOrder(books: Books, e: Event)
    requires Admit(books, e).Success?
    ensures var c := Admit(books, e).value;
            && e.payment == Some(c.payment) && (HasOrder(books, e) <==> c.order.Some?)
            && (forall o :: IsAbout(books, e, o) <==> c.order == Some(o))
  {
    AdmittedAbout(books, e);
    OrderIsAbout(books, e);
    hide IsAbout, HasOrder, OrderOf;
  }

  /** What an event makes of a payment that was there before. */
  lemma LaterEventBooks(books: Books, e: Event, p: string)
    requires RowsValid(books) && p in books.payments
    ensures var before := books.payments[p];
            && p in After(books, e).payments
            && var after := After(books, e).payments[p];
               if Apply(books, e).Applied? && e.payment == Some(p) then
                 && FillsIn(books, e, before, after)
                 && (e.kind.Succeeding? ==> after.status == Succeeded)
                 && (e.kind.Failing? ==>
                       after.status == Failed && (before.status == Pending || before.status == Failed))
                 && (e.kind.Refunding? ==> after.status == if Closes(books, e, p) then Refunded else before.status)
               else after == before
  {
    hide RowsValid, Admit, PutRefund, PutOrder, IsAbout, HasOrder, PlanRefund;
    if Admit(books, e).Success? {
      AdmittedOrder(books, e);
      if e.kind.Refunding? && PlanRefund(books, e, Admit(books, e).value).Planned? {
        PlannedAgainst(books, e, Admit(books, e).value);
      }
    }
  }

  /** What an event makes of an order: paid, failed or refunded, from where that is allowed. */
  lemma OrderBecomes(books: Books, e: Event, o: string)
    requires RowsValid(books) && o in books.orders
    ensures var before := books.orders[o].status;
            && o in After(books, e).orders
            && After(books, e).orders[o]
               == books.orders[o].(status :=
                    if !Apply(books, e).Applied? || !IsAbout(books, e, o) then before
                    else if e.kind.Succeeding? && (before == OrderPending || before == OrderFailed) then OrderPaid
                    else if e.kind.Failing? && before == OrderPending then OrderFailed
                    else if e.kind.Refunding? && e.payment.Some? && Closes(books, e, e.payment.value)
                            && (before == OrderPending || before == OrderPaid) then OrderRefunded
                    else before)
  {
    hide RowsValid, Admit, PutRefund, PutPayment, IsAbout, HasOrder, PlanRefund;
    if Admit(books, e).Success? {
      AdmittedOrder(books, e);
      if e.kind.Refunding? && PlanRefund(books, e, Admit(books, e).value).Planned? {
        PlannedAgainst(books, e, Admit(books, e).value);
      }
    }
  }

  // ---- what a refund is booked with ----

  /** A row the ledger wrote for itself before the provider gave the refund an id. */
  predicate IsProvisional(row: Refund, p: string) {
    row.payment == p && row.status == RefundPending && "refund:" <= row.id
  }

  /** A row that counts against the payment: pending or succeeded, and not left out. */
  predicate CountsFor(row: Refund, p: string, besides: Option<string>, settled: bool) {
    && row.payment == p && (row.status == RefundPending || row.status == RefundSucceeded)
    && Some(row.id) != besides && !(settled && IsProvisional(row, p))
  }

  /** What the rows that count hold; `settled`: provisional rows no longer do. */
  function HeldTo(rows: seq<Refund>, p: string, besides: Option<string>, settled: bool, n: nat): int
    requires n <= |rows|
  {
    if n == 0 then 0
    else
      var row := rows[n - 1];
      HeldTo(rows, p, besides, settled, n - 1)
      + if CountsFor(row, p, besides, settled) && row.amount.Some? then row.amount.value else 0
  }

  /** A row that counts does not say how much. */
  ghost predicate Unclear(rows: seq<Refund>, p: string, besides: Option<string>, settled: bool, n: nat)
    requires n <= |rows|
  {
    exists i :: 0 <= i < n && CountsFor(rows[i], p, besides, settled) && rows[i].amount.None?
  }

  lemma {:induction false} HeldIsTally(rows: seq<Refund>, p: string, besides: Option<string>, n: nat)
    requires n <= |rows|
    ensures HeldTo(rows, p, besides, false, n) == TallyTo(rows, p, besides, n).reserved
    ensures Unclear(rows, p, besides, false, n) <==> TallyTo(rows, p, besides, n).unknown
  {
    hide Unclear;
    if 0 < n {
      HeldIsTally(rows, p, besides, n - 1);
      UnclearNext(rows, p, besides, false, n - 1);
    } else {
      UnclearNever(rows, p, besides, false);
    }
  }

  lemma {:induction false} HeldIsSettledTally(rows: seq<Refund>, p: string, besides: Option<string>, n: nat)
    requires n <= |rows|
    ensures HeldTo(rows, p, besides, true, n) == TallyTo(Superseded(rows, p), p, besides, n).reserved
    ensures Unclear(rows, p, besides, true, n) <==> TallyTo(Superseded(rows, p), p, besides, n).unknown
  {
    hide Unclear;
    if 0 < n {
      HeldIsSettledTally(rows, p, besides, n - 1);
      UnclearNext(rows, p, besides, true, n - 1);
    } else {
      UnclearNever(rows, p, besides, true);
    }
  }

  lemma UnclearNever(rows: seq<Refund>, p: string, besides: Option<string>, settled: bool)
    ensures !Unclear(rows, p, besides, settled, 0)
  {
  }

  lemma UnclearNext(rows: seq<Refund>, p: string, besides: Option<string>, settled: bool, n: nat)
    requires n < |rows|
    ensures Unclear(rows, p, besides, settled, n + 1)
            <==> || Unclear(rows, p, besides, settled, n)
                 || (CountsFor(rows[n], p, besides, settled) && rows[n].amount.None?)
  {
    if Unclear(rows, p, besides, settled, n) {
      var i :| 0 <= i < n && CountsFor(rows[i], p, besides, settled) && rows[i].amount.None?;
      assert i < n + 1;
    }
    if CountsFor(rows[n], p, besides, settled) && rows[n].amount.None? {
      assert n < n + 1;
    }
  }

  /** The recorded refund the event names. */
  function NamedRefund(books: Books, e: Event): Option<nat> {
    if e.refund.Some? then FindRefund(books.refunds, e.refund.value) else None
  }

  /** The event is the first to name the refund, and the payment is known: provisional rows give way. */
  predicate Settles(books: Books, e: Event) {
    e.refund.Some? && NamedRefund(books, e).None? && HasPayment(books, e)
  }

  /**
   * What the refunds that count leave of the payment, besides the one that is
   * confirmed; nothing if that is unclear.
   */
  ghost function Left(books: Books, e: Event, c: Context): int
    requires e.payment == Some(c.payment)
  {
    var k := NamedRefund(books, e);
    var besides := if k.Some? && books.refunds[k.value].status.RefundPending? then e.refund else None;
    if !HasPayment(books, e) then c.amount
    else if Unclear(books.refunds, c.payment, besides, Settles(books, e), |books.refunds|) then 0
    else PaymentOf(books, e).amount - HeldTo(books.refunds, c.payment, besides, Settles(books, e), |books.refunds|)
  }

  /** The answer to a refund, and the amount it is booked with. */
  datatype RefundAnswer = Rejects(error: PaymentError) | Repeats | NothingToRefund | Takes(amount: int)

  ghost function AnswerTo(books: Books, e: Event, c: Context): RefundAnswer
    requires e.payment == Some(c.payment)
  {
    var k := NamedRefund(books, e); var left := Left(books, e, c);
    if e.amount.Some? && e.amount.value <= 0 then Rejects(InvalidRefundAmount)
    else if k.Some? && (!HasPayment(books, e) || books.refunds[k.value].payment != c.payment)
    then Rejects(RefundBelongsElsewhere)
    else if k.Some? && books.refunds[k.value].status == RefundSucceeded then
      var row := books.refunds[k.value];
      if row.amount.Some? && e.amount.Some? && row.amount != e.amount then Rejects(RefundAmountConflict) else Repeats
    else if k.Some? && books.refunds[k.value].status == RefundPending then
      var row := books.refunds[k.value];
      var amount := if e.amount.Some? then e.amount.value else if row.amount.Some? then row.amount.value else left;
      if amount < 0 then Rejects(CheckViolation) else Takes(amount)
    else if left <= 0 then NothingToRefund
    else Takes(if e.amount.Some? && e.amount.value < left then e.amount.value else left)
  }

  lemma PlanAnswers(books: Books, e: Event, c: Context)
    requires e.payment == Some(c.payment)
    ensures var plan := PlanRefund(books, e, c);
            match AnswerTo(books, e, c)
            case Rejects(error) => plan == Refused(error)
            case Repeats => plan == AlreadyRecorded
            case NothingToRefund =>
              plan == NothingLeft(if Settles(books, e) then Superseded(books.refunds, c.payment) else books.refunds)
            case Takes(amount) =>
              && plan.Planned? && plan.amount == amount
              && plan.rows == if Settles(books, e) then Superseded(books.refunds, c.payment) else books.refunds
  {
    var k := NamedRefund(books, e);
    var besides := if k.Some? && books.refunds[k.value].status.RefundPending? then e.refund else None;
    HeldIsTally(books.refunds, c.payment, besides, |books.refunds|);
    HeldIsSettledTally(books.refunds, c.payment, besides, |books.refunds|);
    hide TallyTo, HeldTo, Unclear, Superseded, FindRefund;
  }

  /** What becomes of the recorded refunds. */
  ghost predicate RefundsBecome(books: Books, after: seq<Refund>, e: Event, c: Context, booked: Option<int>) {
    var id := if e.refund.Some? then e.refund.value else "event:" + e.id;
    var known := FindRefund(books.refunds, id);
    && |books.refunds| <= |after|
    && |after| == |books.refunds| + (if booked.Some? && known.None? then 1 else 0)
    && (booked.Some? && known.None? ==>
          after[|books.refunds|] == Refund(id, c.payment, RefundSucceeded, booked))
    && (forall i :: 0 <= i < |books.refunds| ==>
          after[i]
          == if booked.Some? && known == Some(i) then books.refunds[i].(status := RefundSucceeded, amount := booked)
             else if Settles(books, e) && IsProvisional(books.refunds[i], c.payment)
             then books.refunds[i].(status := RefundSuperseded)
             else books.refunds[i])
  }

  lemma PutRefundBecomes(books: Books, e: Event, c: Context, amount: int)
    requires UniqueRefunds(books.refunds)
    ensures var rows := if Settles(books, e) then Superseded(books.refunds, c.payment) else books.refunds;
            && RefundsBecome(books, PutRefund(rows, RefundId(e), c.payment, amount), e, c, Some(amount))
            && RefundsBecome(books, rows, e, c, None)
  {
    var rows := if Settles(books, e) then Superseded(books.refunds, c.payment) else books.refunds;
    OnlyRow(books.refunds, RefundId(e));
    OnlyRow(rows, RefundId(e));
    hide UniqueRefunds;
  }

  /** A refund event: its answer, and what becomes of the refunds and of access to its order. */
  lemma RefundAnswers(books: Books, e: Event)
    requires RowsValid(books) && e.kind.Refunding? && Admit(books, e).Success?
    ensures var c := Admit(books, e).value; var after := After(books, e);
            && e.payment == Some(c.payment)
            && match AnswerTo(books, e, c)
               case Rejects(error) => Apply(books, e) == Threw(error)
               case Repeats => Apply(books, e) == Ignored(books)
               case NothingToRefund =>
                 && Apply(books, e).Ignored? && RefundsBecome(books, after.refunds, e, c, None)
                 && after == books.(refunds := after.refunds)
               case Takes(amount) =>
                 && Apply(books, e).Applied? && RefundsBecome(books, after.refunds, e, c, Some(amount))
                 && after.credited == books.credited
                 && after.entitlements.Keys == books.entitlements.Keys
                 && forall o :: o in books.entitlements ==>
                      after.entitlements[o]
                      == if IsAbout(books, e, o) && Closes(books, e, c.payment)
                         then books.entitlements[o].(active := false) else books.entitlements[o]
  {
    hide RowsValid, Admit, PutRefund, PutPayment, PutOrder, PlanRefund, IsAbout, HasOrder, AnswerTo, RefundsBecome;
    AdmittedOrder(books, e);
    RowsUnique(books);
    var c := Admit(books, e).value;
    PlanAnswers(books, e, c);
    if PlanRefund(books, e, c).Planned? {
      PlannedAgainst(books, e, c);
      PutRefundBecomes(books, e, c, PlanRefund(books, e, c).amount);
    }
    PutRefundBecomes(books, e, c, 0);
  }

  /** What was confirmed. */
  function ConfirmedTo(rows: seq<Refund>, p: string, n: nat): int
    requires n <= |rows|
  {
    if n == 0 then 0
    else
      ConfirmedTo(rows, p, n - 1)
      + if rows[n - 1].payment == p && rows[n - 1].status == RefundSucceeded && rows[n - 1].amount.Some?
        then rows[n - 1].amount.value else 0
  }

  lemma {:induction false} ConfirmedIsTally(rows: seq<Refund>, p: string, n: nat)
    requires n <= |rows|
    ensures ConfirmedTo(rows, p, n) == TallyTo(rows, p, None, n).confirmed
  {
    if 0 < n {
      ConfirmedIsTally(rows, p, n - 1);
    }
  }

  /**
   * A refund closes its payment exactly if it takes what was confirmed up to
   * what was captured, pending money aside.
   */
  lemma ClosesInPlainTerms(books: Books, e: Event)
    requires RowsValid(books) && e.kind.Refunding? && Admit(books, e).Success?
    ensures var c := Admit(books, e).value;
            && e.payment == Some(c.payment)
            && (Closes(books, e, c.payment)
                <==> && AnswerTo(books, e, c).Takes?
                     && (if HasPayment(books, e) then PaymentOf(books, e).amount else c.amount)
                        <= ConfirmedTo(books.refunds, c.payment, |books.refunds|) + AnswerTo(books, e, c).amount)
  {
    hide RowsValid, Admit, PlanRefund, AnswerTo;
    AdmittedAbout(books, e);
    PlanAnswers(books, e, Admit(books, e).value);
    ConfirmedIsTally(books.refunds, Admit(books, e).value.payment, |books.refunds|);
  }
}
