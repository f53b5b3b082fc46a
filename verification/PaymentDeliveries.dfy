/**
 * Delivery order. For one pending one-time order, its success event and any
 * refunds of its payment may arrive in any order and any number of times. What
 * they settle to, and exactly when it is the same for every order.
 */
module PaymentDeliveries {
  import opened Wrappers
  import opened PaymentEvents
  import opened PaymentFacts
  import opened PaymentGrowth

  datatype RefundFact = RefundFact(id: string, amount: Option<int>, namesOrder: bool)

  datatype Sale = Sale(
    order: string,
    payment: string,
    total: int,
    currency: string,
    customer: Option<string>,
    access: bool,             // the order's products are configured to grant access
    refunds: seq<RefundFact>)

  /** One delivery; the same fact may be delivered again under another event id and time. */
  datatype Delivery = Paid(event: string, namesOrder: bool, at: int) | Refund(i: nat, event: string, at: int)

  /** Refund ids are distinct, and amounts that are given are positive. */
  ghost predicate Coherent(s: Sale) {
    && 0 < s.total <= MAX_AMOUNT
    && (forall i :: 0 <= i < |s.refunds| ==> FactCoherent(s.refunds[i]))
    && (forall i, j :: 0 <= i < j < |s.refunds| ==> s.refunds[i].id != s.refunds[j].id)
  }

  predicate FactCoherent(f: RefundFact) {
    f.amount.Some? ==> 0 < f.amount.value <= MAX_AMOUNT
  }

  predicate Known(s: Sale, d: Delivery) {
    d.Refund? ==> d.i < |s.refunds|
  }

  predicate NamesOrder(s: Sale, d: Delivery) {
    if d.Paid? then d.namesOrder else d.i < |s.refunds| && s.refunds[d.i].namesOrder
  }

  /** A refund that names neither the order nor an amount means nothing while its payment is unknown. */
  predicate SaysTooLittle(s: Sale, d: Delivery) {
    d.Refund? && d.i < |s.refunds| && !s.refunds[d.i].namesOrder && s.refunds[d.i].amount.None?
  }

  function EventOf(s: Sale, d: Delivery): Event
    requires Known(s, d)
  {
    Event(d.event, if d.Paid? then Succeeding else Refunding, Some(s.payment),
          if NamesOrder(s, d) then Some(s.order) else None, s.customer, Some(s.currency),
          if d.Paid? then Some(s.total) else s.refunds[d.i].amount,
          if d.Paid? then None else Some(s.refunds[d.i].id), d.at)
  }

  /** The books before anything about the sale arrives. */
  ghost predicate Before(s: Sale, books: Books) {
    && s.order in books.orders && s.payment !in books.payments
    && books.orders[s.order] == Order(OrderPending, s.total, s.currency, true, s.access)
    && s.order !in books.entitlements && s.order !in books.credited
    && UniqueRefunds(books.refunds)
    && (forall k :: 0 <= k < |books.refunds| ==>
        books.refunds[k].payment != s.payment && !ItsRefund(s, books.refunds[k].id))
  }

  ghost predicate ItsRefund(s: Sale, id: string) {
    exists i :: 0 <= i < |s.refunds| && s.refunds[i].id == id
  }

  function Deliver(books: Books, s: Sale, ds: seq<Delivery>): Books
    requires forall k :: 0 <= k < |ds| ==> Known(s, ds[k])
  {
    if ds == [] then books else After(Deliver(books, s, ds[..|ds| - 1]), EventOf(s, ds[|ds| - 1]))
  }

  // ---- what has been delivered ----

  predicate HasPaid(ds: seq<Delivery>) {
    exists k :: 0 <= k < |ds| && ds[k].Paid?
  }

  predicate HasRefund(ds: seq<Delivery>, i: nat) {
    exists k :: 0 <= k < |ds| && ds[k].Refund? && ds[k].i == i
  }

  /** A refund without an amount is a refund of everything. */
  function Worth(s: Sale, i: nat): int
    requires i < |s.refunds|
  {
    if s.refunds[i].amount.Some? then s.refunds[i].amount.value else s.total
  }

  /** The delivered refunds among the first n, each counted once. */
  function RefundedTo(s: Sale, ds: seq<Delivery>, n: nat): int
    requires n <= |s.refunds|
  {
    if n == 0 then 0 else RefundedTo(s, ds, n - 1) + if HasRefund(ds, n - 1) then Worth(s, n - 1) else 0
  }

  function RefundTotal(s: Sale, ds: seq<Delivery>): int {
    Min(s.total, RefundedTo(s, ds, |s.refunds|))
  }

  /** Something that took effect named the order: the payment is bound to it. */
  function BoundBy(s: Sale, ds: seq<Delivery>): bool {
    if ds == [] then false
    else
      var before, d := ds[..|ds| - 1], ds[|ds| - 1];
      BoundBy(s, before) || (NamesOrder(s, d) && RefundTotal(s, before) < s.total
                             && (d.Paid? || !HasRefund(before, d.i)))
  }

  /** A success arrived for the bound order before the refunds had used up the whole amount. */
  function PaidInTime(s: Sale, ds: seq<Delivery>): bool {
    if ds == [] then false
    else
      var before, d := ds[..|ds| - 1], ds[|ds| - 1];
      PaidInTime(s, before) || (d.Paid? && RefundTotal(s, before) < s.total && BoundBy(s, ds))
  }

  // ---- where the books are once something was delivered ----

  ghost predicate RowsSettled(s: Sale, ds: seq<Delivery>, rows: seq<PaymentEvents.Refund>) {
    && UniqueRefunds(rows)
    && (var tally := TallyOf(rows, s.payment, None);
        tally == Tally(RefundTotal(s, ds), RefundTotal(s, ds), false))
    && (forall k :: 0 <= k < |rows| && rows[k].payment == s.payment ==> rows[k].status.RefundSucceeded?)
    && (forall k :: 0 <= k < |rows| && ItsRefund(s, rows[k].id) ==>
        rows[k].payment == s.payment && rows[k].amount.Some?)
    && (forall i :: 0 <= i < |s.refunds| ==> FactSettled(s, ds, rows, i))
  }

  ghost predicate FactSettled(s: Sale, ds: seq<Delivery>, rows: seq<PaymentEvents.Refund>, i: nat)
    requires i < |s.refunds|
  {
    var row := FindRefund(rows, s.refunds[i].id);
    && (row.Some? ==> HasRefund(ds, i))
    && (HasRefund(ds, i) && row.None? ==> RefundTotal(s, ds) == s.total)
  }

  predicate PaymentSettled(s: Sale, ds: seq<Delivery>, books: Books) {
    && s.payment in books.payments
    && var p := books.payments[s.payment];
       && p.amount == s.total && p.currency == s.currency && p.order == (if BoundBy(s, ds) then Some(s.order) else None)
       && (p.customer.Some? ==> p.customer == s.customer)
       && p.status == if RefundTotal(s, ds) == s.total then Refunded else Succeeded
  }

  predicate OrderSettled(s: Sale, ds: seq<Delivery>, books: Books) {
    && s.order in books.orders
    && books.orders[s.order]
       == Order(if BoundBy(s, ds) && RefundTotal(s, ds) == s.total then OrderRefunded
                else if PaidInTime(s, ds) then OrderPaid else OrderPending,
                s.total, s.currency, true, s.access)
  }

  predicate AccessSettled(s: Sale, ds: seq<Delivery>, books: Books) {
    && (s.order in books.entitlements <==> s.access && PaidInTime(s, ds))
    && (s.order in books.credited <==> PaidInTime(s, ds))
    && (s.order in books.entitlements ==> (books.entitlements[s.order].active <==> RefundTotal(s, ds) < s.total))
  }

  ghost predicate Settled(s: Sale, ds: seq<Delivery>, books: Books) {
    && RowsSettled(s, ds, books.refunds) && PaymentSettled(s, ds, books)
    && OrderSettled(s, ds, books) && AccessSettled(s, ds, books)
  }

  // ---- sums ----

  lemma {:induction false} RefundedBounds(s: Sale, ds: seq<Delivery>, n: nat)
    requires Coherent(s) && n <= |s.refunds|
    ensures 0 <= RefundedTo(s, ds, n)
  {
    if 0 < n {
      assert FactCoherent(s.refunds[n - 1]);
      RefundedBounds(s, ds, n - 1);
    }
  }

  lemma HasAfter(ds: seq<Delivery>, d: Delivery, i: nat)
    ensures HasRefund(ds + [d], i) <==> HasRefund(ds, i) || (d.Refund? && d.i == i)
    ensures HasPaid(ds + [d]) <==> HasPaid(ds) || d.Paid?
  {
    assert (ds + [d])[|ds|] == d;
    if HasRefund(ds, i) {
      var k :| 0 <= k < |ds| && ds[k].Refund? && ds[k].i == i;
      assert (ds + [d])[k] == ds[k];
    }
    if HasPaid(ds) {
      var k :| 0 <= k < |ds| && ds[k].Paid?;
      assert (ds + [d])[k] == ds[k];
    }
  }

  /** A new refund adds its worth; anything else leaves the sum as it was. */
  lemma {:induction false} RefundedAfter(s: Sale, ds: seq<Delivery>, d: Delivery, n: nat)
    requires Known(s, d) && n <= |s.refunds|
    ensures RefundedTo(s, ds + [d], n)
            == RefundedTo(s, ds, n) + if d.Refund? && d.i < n && !HasRefund(ds, d.i) then Worth(s, d.i) else 0
  {
    if 0 < n {
      RefundedAfter(s, ds, d, n - 1);
      HasAfter(ds, d, n - 1);
    }
  }

  lemma TotalAfter(s: Sale, ds: seq<Delivery>, d: Delivery)
    requires Coherent(s) && Known(s, d)
    ensures 0 <= RefundTotal(s, ds) <= RefundTotal(s, ds + [d]) <= s.total
    ensures d.Refund? && !HasRefund(ds, d.i) ==>
              RefundTotal(s, ds + [d]) == Min(s.total, RefundTotal(s, ds) + Worth(s, d.i))
    ensures d.Paid? || HasRefund(ds, d.i) ==> RefundTotal(s, ds + [d]) == RefundTotal(s, ds)
  {
    RefundedAfter(s, ds, d, |s.refunds|);
    RefundedBounds(s, ds, |s.refunds|);
    if d.Refund? {
      assert FactCoherent(s.refunds[d.i]);
    }
  }

  lemma BoundAfter(s: Sale, ds: seq<Delivery>, d: Delivery)
    ensures BoundBy(s, ds + [d])
            <==> BoundBy(s, ds) || (NamesOrder(s, d) && RefundTotal(s, ds) < s.total
                                    && (d.Paid? || !HasRefund(ds, d.i)))
  {
    assert (ds + [d])[..|ds|] == ds;
  }

  lemma InTimeAfter(s: Sale, ds: seq<Delivery>, d: Delivery)
    ensures PaidInTime(s, ds + [d])
            <==> PaidInTime(s, ds) || (d.Paid? && RefundTotal(s, ds) < s.total && BoundBy(s, ds + [d]))
  {
    assert (ds + [d])[..|ds|] == ds;
  }

  lemma {:induction false} InTimeIsBound(s: Sale, ds: seq<Delivery>)
    ensures PaidInTime(s, ds) ==> BoundBy(s, ds)
    decreases |ds|
  {
    hide RefundTotal, HasRefund, NamesOrder;
    if ds != [] {
      InTimeIsBound(s, ds[..|ds| - 1]);
    }
  }

  /** What names the order when nothing was delivered before binds the payment. */
  lemma {:induction false} FirstBinds(s: Sale, ds: seq<Delivery>)
    requires Coherent(s) && ds != [] && NamesOrder(s, ds[0])
    ensures BoundBy(s, ds)
    decreases |ds|
  {
    NothingRefunded(s, |s.refunds|);
    hide RefundTotal;
    if 1 < |ds| {
      FirstBinds(s, ds[..|ds| - 1]);
    } else {
      assert ds[..0] == [];
    }
  }

  /** Once the payment is bound from the start, every success is in time as long as something is left to refund. */
  lemma {:induction false} PaidIsInTime(s: Sale, ds: seq<Delivery>)
    requires Coherent(s) && forall k :: 0 <= k < |ds| ==> Known(s, ds[k])
    requires ds != [] ==> NamesOrder(s, ds[0])
    ensures RefundTotal(s, ds) < s.total && HasPaid(ds) ==> PaidInTime(s, ds)
    decreases |ds|
  {
    if ds != [] {
      var before, d := ds[..|ds| - 1], ds[|ds| - 1];
      assert before + [d] == ds;
      FirstBinds(s, ds);
      hide BoundBy, RefundTotal, Coherent;
      PaidIsInTime(s, before);
      TotalAfter(s, before, d);
      HasAfter(before, d, 0);
    }
  }

  // ---- refund rows ----

  lemma NothingYet(s: Sale, books: Books)
    requires Coherent(s) && Before(s, books)
    ensures RowsSettled(s, [], books.refunds)
  {
    NoRows(books.refunds, s.payment, None, |books.refunds|);
    NothingRefunded(s, |s.refunds|);
    forall i | 0 <= i < |s.refunds| ensures FindRefund(books.refunds, s.refunds[i].id).None? {
      assert ItsRefund(s, s.refunds[i].id);
    }
  }

  lemma {:induction false} NothingRefunded(s: Sale, n: nat)
    requires n <= |s.refunds|
    ensures RefundedTo(s, [], n) == 0
  {
    if 0 < n {
      NothingRefunded(s, n - 1);
    }
  }

  /** A delivery that books no refund leaves the rows settled. */
  lemma RowsKeep(s: Sale, ds: seq<Delivery>, rows: seq<PaymentEvents.Refund>, d: Delivery)
    requires Coherent(s) && Known(s, d) && RowsSettled(s, ds, rows)
    requires d.Paid? || HasRefund(ds, d.i) || RefundTotal(s, ds) == s.total
    ensures RefundTotal(s, ds + [d]) == RefundTotal(s, ds)
    ensures RowsSettled(s, ds + [d], rows)
  {
    hide TallyTo, RefundedTo;
    TotalAfter(s, ds, d);
    forall i | 0 <= i < |s.refunds| ensures FactSettled(s, ds + [d], rows, i) {
      assert FactSettled(s, ds, rows, i);
      HasAfter(ds, d, i);
    }
  }

  function Applied(s: Sale, ds: seq<Delivery>, i: nat): int
    requires i < |s.refunds|
  {
    Min(Worth(s, i), s.total - RefundTotal(s, ds))
  }

  lemma BookedTally(s: Sale, ds: seq<Delivery>, rows: seq<PaymentEvents.Refund>, d: Delivery)
    requires Coherent(s) && Known(s, d) && RowsSettled(s, ds, rows) && d.Refund? && !HasRefund(ds, d.i)
    ensures var after := PutRefund(rows, s.refunds[d.i].id, s.payment, Applied(s, ds, d.i));
            && after == rows + [PaymentEvents.Refund(s.refunds[d.i].id, s.payment, RefundSucceeded,
                                                     Some(Applied(s, ds, d.i)))]
            && UniqueRefunds(after)
            && RefundTotal(s, ds + [d]) == RefundTotal(s, ds) + Applied(s, ds, d.i)
            && TallyOf(after, s.payment, None) == Tally(RefundTotal(s, ds + [d]), RefundTotal(s, ds + [d]), false)
  {
    hide TallyTo, RefundedTo;
    assert FactSettled(s, ds, rows, d.i);
    assert FindRefund(rows, s.refunds[d.i].id).None?;
    TotalAfter(s, ds, d);
    PutRefundTally(rows, s.refunds[d.i].id, s.payment, Applied(s, ds, d.i), s.payment);
    SkipUncounted(rows, s.payment, s.refunds[d.i].id);
  }

  lemma FoundInLonger(rows: seq<PaymentEvents.Refund>, row: PaymentEvents.Refund, id: string)
    ensures FindRefund(rows + [row], id).Some? <==> row.id == id || FindRefund(rows, id).Some?
  {
    assert (rows + [row])[..|rows|] == rows;
  }

  lemma RowsBook(s: Sale, ds: seq<Delivery>, rows: seq<PaymentEvents.Refund>, d: Delivery)
    requires Coherent(s) && Known(s, d) && RowsSettled(s, ds, rows) && d.Refund? && !HasRefund(ds, d.i)
    ensures RowsSettled(s, ds + [d], PutRefund(rows, s.refunds[d.i].id, s.payment, Applied(s, ds, d.i)))
  {
    hide TallyTo, RefundTotal, UniqueRefunds;
    BookedTally(s, ds, rows, d);
    var row := PaymentEvents.Refund(s.refunds[d.i].id, s.payment, RefundSucceeded, Some(Applied(s, ds, d.i)));
    forall i | 0 <= i < |s.refunds| ensures FactSettled(s, ds + [d], rows + [row], i) {
      assert FactSettled(s, ds, rows, i);
      HasAfter(ds, d, i);
      FoundInLonger(rows, row, s.refunds[i].id);
      TotalAfter(s, ds, d);
      TotalStaysFull(s, ds, d);
    }
  }

  lemma TotalStaysFull(s: Sale, ds: seq<Delivery>, d: Delivery)
    requires Coherent(s) && Known(s, d)
    ensures RefundTotal(s, ds) == s.total ==> RefundTotal(s, ds + [d]) == s.total
  {
    TotalAfter(s, ds, d);
  }

  // ---- the plan ----

  lemma NothingProvisional(s: Sale, ds: seq<Delivery>, rows: seq<PaymentEvents.Refund>)
    requires RowsSettled(s, ds, rows)
    ensures Superseded(rows, s.payment) == rows
  {
    hide TallyTo, RefundedTo;
  }

  /** What a refund is planned as: replays and conflicts change nothing, a new refund takes what is left at most. */
  lemma PlanOfRefund(s: Sale, ds: seq<Delivery>, books: Books, d: Delivery, c: Context)
    requires Coherent(s) && Known(s, d) && d.Refund? && RowsSettled(s, ds, books.refunds) && c.payment == s.payment
    requires if s.payment in books.payments then books.payments[s.payment].amount == s.total
             else c.amount == s.total && RefundTotal(s, ds) == 0 && !HasRefund(ds, d.i)
    ensures var plan := PlanRefund(books, EventOf(s, d), c);
            if HasRefund(ds, d.i) then !plan.Planned? && (plan.NothingLeft? ==> plan.rows == books.refunds)
            else if RefundTotal(s, ds) == s.total then plan == NothingLeft(books.refunds)
            else plan == Planned(books.refunds, Applied(s, ds, d.i),
                                 s.total <= RefundTotal(s, ds) + Applied(s, ds, d.i))
  {
    hide TallyTo, RefundedTo, UniqueRefunds;
    var id := s.refunds[d.i].id;
    assert FactCoherent(s.refunds[d.i]) && FactSettled(s, ds, books.refunds, d.i) && ItsRefund(s, id);
    NothingProvisional(s, ds, books.refunds);
    TotalAfter(s, ds, d);
  }

  // ---- the first delivery ----

  lemma AdmitFirst(s: Sale, books: Books, d: Delivery)
    requires Coherent(s) && Known(s, d) && Before(s, books) && (d.Paid? || NamesOrder(s, d))
    ensures Admit(books, EventOf(s, d))
            == Success(Context(s.payment, if NamesOrder(s, d) then Some(s.order) else None, s.total, s.currency))
  {
    if d.Refund? {
      assert FactCoherent(s.refunds[d.i]);
    }
  }

  /** What a success leaves when the payment was not there before and the order was pending. */
  lemma PaidBooks(s: Sale, books: Books, d: Delivery)
    requires Coherent(s) && Before(s, books) && d.Paid?
    ensures var after := After(books, EventOf(s, d)); var named := NamesOrder(s, d);
            && s.payment in after.payments
            && after.payments[s.payment].(customer := None)
               == Payment(Succeeded, s.total, s.currency, if named then Some(s.order) else None, None)
            && (after.payments[s.payment].customer.Some? ==> after.payments[s.payment].customer == s.customer)
            && after.refunds == books.refunds
            && after.orders == (if named
                                then books.orders[s.order := Order(OrderPaid, s.total, s.currency, true, s.access)]
                                else books.orders)
            && after.entitlements == (if named && s.access then books.entitlements[s.order := Entitlement(true, d.at)]
                                      else books.entitlements)
            && after.credited == (if named then books.credited + {s.order} else books.credited)
  {
    hide Admit, UniqueRefunds;
    AdmitFirst(s, books, d);
  }

  lemma NothingBoundYet(s: Sale)
    ensures !BoundBy(s, []) && !PaidInTime(s, [])
  {
  }

  lemma OnePaid(s: Sale, books: Books, d: Delivery)
    requires Coherent(s) && Before(s, books) && d.Paid?
    ensures RowsSettled(s, [d], books.refunds) && RefundTotal(s, [d]) == 0
    ensures (BoundBy(s, [d]) <==> NamesOrder(s, d)) && (PaidInTime(s, [d]) <==> NamesOrder(s, d))
  {
    hide RowsSettled, RefundTotal, NamesOrder, Before, Coherent, BoundBy, PaidInTime, HasRefund;
    NothingBoundYet(s);
    NothingYet(s, books);
    RowsKeep(s, [], books.refunds, d);
    NothingRefundedYet(s);
    BoundAfter(s, [], d);
    InTimeAfter(s, [], d);
    assert [] + [d] == [d];
  }

  lemma FirstPaid(s: Sale, books: Books, d: Delivery)
    requires Coherent(s) && Before(s, books) && d.Paid?
    ensures Settled(s, [d], After(books, EventOf(s, d)))
  {
    hide RowsSettled, RefundTotal, After, EventOf, NamesOrder, BoundBy, PaidInTime, UniqueRefunds, ItsRefund,
      FactCoherent;
    PaidBooks(s, books, d);
    OnePaid(s, books, d);
  }

  lemma NothingRefundedYet(s: Sale)
    requires Coherent(s)
    ensures RefundTotal(s, []) == 0 && RefundTotal(s, []) < s.total
  {
    NothingRefunded(s, |s.refunds|);
  }

  lemma FirstRefund(s: Sale, books: Books, d: Delivery)
    requires Coherent(s) && Known(s, d) && Before(s, books) && d.Refund? && NamesOrder(s, d)
    ensures Settled(s, [d], After(books, EventOf(s, d)))
  {
    hide RowsSettled, RefundTotal, Admit, PlanRefund, PutRefund, Worth;
    AdmitFirst(s, books, d);
    NothingYet(s, books);
    NothingRefundedYet(s);
    PlanOfRefund(s, [], books, d, Context(s.payment, Some(s.order), s.total, s.currency));
    RowsBook(s, [], books.refunds, d);
    BookedTotal(s, [], books.refunds, d);
    BoundAfter(s, [], d);
    InTimeAfter(s, [], d);
    HasAfter([], d, 0);
    TotalAfter(s, [], d);
    assert [] + [d] == [d];
  }

  lemma BookedTotal(s: Sale, ds: seq<Delivery>, rows: seq<PaymentEvents.Refund>, d: Delivery)
    requires Coherent(s) && Known(s, d) && RowsSettled(s, ds, rows) && d.Refund? && !HasRefund(ds, d.i)
    ensures RefundTotal(s, ds + [d]) == RefundTotal(s, ds) + Applied(s, ds, d.i)
  {
    TotalAfter(s, ds, d);
  }

  // ---- every later delivery ----

  lemma AdmitLater(s: Sale, ds: seq<Delivery>, books: Books, d: Delivery)
    requires Coherent(s) && Known(s, d) && PaymentSettled(s, ds, books) && OrderSettled(s, ds, books)
    ensures var r := Admit(books, EventOf(s, d));
            && r.Success? && r.value.payment == s.payment
            && r.value.order == if NamesOrder(s, d) || BoundBy(s, ds) then Some(s.order) else None
  {
    if d.Refund? {
      assert FactCoherent(s.refunds[d.i]);
    }
    hide RefundTotal, BoundBy, PaidInTime;
  }

  /** A later success counts only while the payment is not refunded, and for an order it knows that is not paid yet. */
  lemma LaterPaidBooks(s: Sale, ds: seq<Delivery>, books: Books, d: Delivery)
    requires Coherent(s) && d.Paid? && PaymentSettled(s, ds, books) && OrderSettled(s, ds, books)
    requires !PaidInTime(s, ds) ==> s.order !in books.entitlements
    ensures var after := After(books, EventOf(s, d));
            if RefundTotal(s, ds) == s.total || PaidInTime(s, ds) || !(NamesOrder(s, d) || BoundBy(s, ds))
              then after == books
            else
              && s.payment in after.payments
              && after.payments[s.payment].(customer := None)
                 == books.payments[s.payment].(customer := None, order := Some(s.order))
              && (after.payments[s.payment].customer.Some? ==> after.payments[s.payment].customer == s.customer)
              && after.orders == books.orders[s.order := Order(OrderPaid, s.total, s.currency, true, s.access)]
              && after.refunds == books.refunds
              && after.entitlements
                 == (if s.access then books.entitlements[s.order := Entitlement(true, d.at)] else books.entitlements)
              && after.credited == books.credited + {s.order}
  {
    InTimeIsBound(s, ds);
    hide Admit, RefundTotal, BoundBy, PaidInTime;
    AdmitLater(s, ds, books, d);
  }

  lemma LaterPaid(s: Sale, ds: seq<Delivery>, books: Books, d: Delivery)
    requires Coherent(s) && Settled(s, ds, books) && d.Paid?
    ensures Settled(s, ds + [d], After(books, EventOf(s, d)))
  {
    hide RowsSettled, RefundTotal, After, EventOf, BoundBy, PaidInTime, NamesOrder;
    InTimeIsBound(s, ds);
    LaterPaidBooks(s, ds, books, d);
    RowsKeep(s, ds, books.refunds, d);
    BoundAfter(s, ds, d);
    InTimeAfter(s, ds, d);
    TotalAfter(s, ds, d);
  }

  lemma LaterRefund(s: Sale, ds: seq<Delivery>, books: Books, d: Delivery)
    requires Coherent(s) && Settled(s, ds, books) && d.Refund? && Known(s, d)
    ensures Settled(s, ds + [d], After(books, EventOf(s, d)))
  {
    hide RowsSettled, RefundTotal, Admit, PlanRefund, PutRefund, Worth, BoundBy, PaidInTime;
    AdmitLater(s, ds, books, d);
    var c := Admit(books, EventOf(s, d)).value;
    PlanOfRefund(s, ds, books, d, c);
    BoundAfter(s, ds, d);
    InTimeAfter(s, ds, d);
    InTimeIsBound(s, ds);
    if HasRefund(ds, d.i) || RefundTotal(s, ds) == s.total {
      RowsKeep(s, ds, books.refunds, d);
    } else {
      RowsBook(s, ds, books.refunds, d);
      BookedTotal(s, ds, books.refunds, d);
      TotalAfter(s, ds, d);
    }
  }

  // ---- every order of delivery ----

  /**
   * Unless the first delivery is a refund that does not name the order, the
   * books depend only on which facts were delivered, on whether something
   * bound the payment to the order, and on whether a success came in time.
   */
  lemma {:induction false} DeliveriesSettle(s: Sale, books: Books, ds: seq<Delivery>)
    requires Coherent(s) && Before(s, books) && ds != [] && forall k :: 0 <= k < |ds| ==> Known(s, ds[k])
    requires ds[0].Paid? || NamesOrder(s, ds[0])
    ensures Settled(s, ds, Deliver(books, s, ds))
    decreases |ds|
  {
    hide Settled, After, Before, Coherent;
    var before, d := ds[..|ds| - 1], ds[|ds| - 1];
    assert before + [d] == ds;
    if before == [] {
      assert Deliver(books, s, ds) == After(books, EventOf(s, d));
      assert ds == [d];
      if d.Paid? {
        FirstPaid(s, books, d);
      } else {
        FirstRefund(s, books, d);
      }
    } else {
      DeliveriesSettle(s, books, before);
      if d.Paid? {
        LaterPaid(s, before, Deliver(books, s, before), d);
      } else {
        LaterRefund(s, before, Deliver(books, s, before), d);
      }
    }
  }

  // ---- order independence, and exactly when ----

  /** Every fact of the sale arrived at least once. */
  ghost predicate AllDelivered(s: Sale, ds: seq<Delivery>) {
    && (forall k :: 0 <= k < |ds| ==> Known(s, ds[k]))
    && HasPaid(ds) && forall i :: 0 <= i < |s.refunds| ==> HasRefund(ds, i)
  }

  function WorthTo(s: Sale, n: nat): int
    requires n <= |s.refunds|
  {
    if n == 0 then 0 else WorthTo(s, n - 1) + Worth(s, n - 1)
  }

  /** min(total, sum of the refunds) */
  function FinallyRefunded(s: Sale): int {
    Min(s.total, WorthTo(s, |s.refunds|))
  }

  /** Where the sale ends, said without the deliveries. */
  ghost predicate Concluded(s: Sale, books: Books) {
    var full := FinallyRefunded(s) == s.total;
    && s.payment in books.payments && s.order in books.orders
    && books.payments[s.payment].amount == s.total
    && books.payments[s.payment].status == (if full then Refunded else Succeeded)
    && Confirmed(books, s.payment) == FinallyRefunded(s)
    && books.orders[s.order].status == (if full then OrderRefunded else OrderPaid)
    && ((s.order in books.entitlements && books.entitlements[s.order].active) <==> s.access && !full)
  }

  lemma {:induction false} EverythingCounts(s: Sale, ds: seq<Delivery>, n: nat)
    requires n <= |s.refunds| && forall i :: 0 <= i < |s.refunds| ==> HasRefund(ds, i)
    ensures RefundedTo(s, ds, n) == WorthTo(s, n)
  {
    if 0 < n {
      EverythingCounts(s, ds, n - 1);
    }
  }

  /** The payment was bound in time, and the success counted unless everything is refunded in the end. */
  predicate Connects(s: Sale, ds: seq<Delivery>) {
    BoundBy(s, ds) && (FinallyRefunded(s) == s.total || PaidInTime(s, ds))
  }

  lemma SettledConcludes(s: Sale, ds: seq<Delivery>, books: Books)
    requires Coherent(s) && AllDelivered(s, ds) && Settled(s, ds, books)
    ensures Concluded(s, books) <==> Connects(s, ds)
  {
    EverythingCounts(s, ds, |s.refunds|);
    InTimeIsBound(s, ds);
    RefundedBounds(s, ds, |s.refunds|);
    hide TallyTo, RefundedTo, WorthTo, FactSettled, BoundBy, PaidInTime;
  }

  /** A first refund that does not name the order seeds the payment with its own amount. */
  lemma SeededByRefund(s: Sale, books: Books, d: Delivery)
    requires Coherent(s) && Known(s, d) && Before(s, books) && d.Refund? && !NamesOrder(s, d) && !SaysTooLittle(s, d)
    ensures var after := After(books, EventOf(s, d));
            && s.payment in after.payments
            && after.payments[s.payment].amount == s.refunds[d.i].amount.value
            && (s.refunds[d.i].amount.value == s.total ==> Closed(s, after))
  {
    hide RefundedTo, UniqueRefunds;
    assert FactCoherent(s.refunds[d.i]) && ItsRefund(s, s.refunds[d.i].id);
    var rows := books.refunds;
    var row := PaymentEvents.Refund(s.refunds[d.i].id, s.payment, RefundSucceeded, s.refunds[d.i].amount);
    NoRows(rows, s.payment, None, |rows|);
    TallyAgrees(rows + [row], None, rows, None, s.payment, |rows|);
    assert PutRefund(rows, row.id, s.payment, row.amount.value) == rows + [row];
    assert TallyOf(rows + [row], s.payment, None).reserved == row.amount.value;
    assert forall k :: 0 <= k < |rows| ==> (rows + [row])[k] == rows[k];
  }

  /** The payment is refunded in full without a binding to the order: nothing that arrives later changes anything. */
  ghost predicate Closed(s: Sale, books: Books) {
    && s.payment in books.payments && books.payments[s.payment].amount == s.total
    && books.payments[s.payment].status.Refunded?
    && s.order in books.orders && books.orders[s.order].status.OrderPending?
    && TallyOf(books.refunds, s.payment, None).reserved == s.total
    && (forall k :: 0 <= k < |books.refunds| && books.refunds[k].payment == s.payment ==>
        books.refunds[k].status.RefundSucceeded?)
    && (forall k :: 0 <= k < |books.refunds| && ItsRefund(s, books.refunds[k].id) ==>
        books.refunds[k].payment == s.payment)
  }

  lemma ClosedStays(s: Sale, books: Books, d: Delivery)
    requires Coherent(s) && Known(s, d) && Closed(s, books)
    ensures After(books, EventOf(s, d)) == books
  {
    hide TallyTo, Admit;
    if d.Refund? {
      assert ItsRefund(s, s.refunds[d.i].id);
      assert Superseded(books.refunds, s.payment) == books.refunds;
    }
    AdmittedPayment(books, EventOf(s, d));
  }

  lemma AdmittedPayment(books: Books, e: Event)
    ensures Admit(books, e).Success? ==> e.payment == Some(Admit(books, e).value.payment)
  {
  }

  lemma AmountIsKept(books: Books, e: Event, q: string)
    requires q in books.payments
    ensures q in After(books, e).payments && After(books, e).payments[q].amount == books.payments[q].amount
  {
    hide Admit, PlanRefund, PutRefund, PutOrder;
  }

  /** What the first delivery wrote stays: the payment's amount, and a payment closed without its order. */
  lemma {:induction false} FirstDecides(s: Sale, books: Books, ds: seq<Delivery>)
    requires Coherent(s) && Before(s, books) && ds != [] && forall k :: 0 <= k < |ds| ==> Known(s, ds[k])
    requires ds[0].Refund? && !NamesOrder(s, ds[0]) && !SaysTooLittle(s, ds[0])
    ensures var after := Deliver(books, s, ds);
            && s.payment in after.payments && after.payments[s.payment].amount == s.refunds[ds[0].i].amount.value
            && (s.refunds[ds[0].i].amount.value == s.total ==> Closed(s, after))
    decreases |ds|
  {
    hide After, Before, Coherent, Closed;
    var before, d := ds[..|ds| - 1], ds[|ds| - 1];
    if before == [] {
      assert Deliver(books, s, ds) == After(books, EventOf(s, d));
      SeededByRefund(s, books, d);
    } else {
      FirstDecides(s, books, before);
      AmountIsKept(Deliver(books, s, before), EventOf(s, d), s.payment);
      if s.refunds[ds[0].i].amount.value == s.total {
        ClosedStays(s, Deliver(books, s, before), d);
      }
    }
  }

  lemma {:induction false} WorthCovers(s: Sale, i: nat, n: nat)
    requires Coherent(s) && i < n <= |s.refunds|
    ensures Worth(s, i) <= WorthTo(s, n)
    ensures 0 <= WorthTo(s, n - 1)
  {
    assert FactCoherent(s.refunds[n - 1]);
    if i < n - 1 {
      WorthCovers(s, i, n - 1);
      assert FactCoherent(s.refunds[i]);
    } else {
      WorthNotNegative(s, n - 1);
    }
  }

  lemma {:induction false} WorthNotNegative(s: Sale, n: nat)
    requires Coherent(s) && n <= |s.refunds|
    ensures 0 <= WorthTo(s, n)
  {
    if 0 < n {
      assert FactCoherent(s.refunds[n - 1]);
      WorthNotNegative(s, n - 1);
    }
  }

  // ---- deliveries that are rejected ----

  /** The first delivery that is not rejected: those before it say too little. */
  ghost predicate FirstAccepted(s: Sale, ds: seq<Delivery>, f: nat) {
    f < |ds| && !SaysTooLittle(s, ds[f]) && forall k :: 0 <= k < f ==> SaysTooLittle(s, ds[k])
  }

  lemma RejectedChangesNothing(s: Sale, books: Books, d: Delivery)
    requires Known(s, d) && s.payment !in books.payments && SaysTooLittle(s, d)
    ensures Apply(books, EventOf(s, d)) == Threw(MissingAmountOrCurrency)
  {
  }

  lemma {:induction false} RejectedFirst(s: Sale, books: Books, ds: seq<Delivery>, f: nat)
    requires s.payment !in books.payments && (forall k :: 0 <= k < |ds| ==> Known(s, ds[k]))
    requires f <= |ds| && forall k :: 0 <= k < f ==> SaysTooLittle(s, ds[k])
    ensures Deliver(books, s, ds) == Deliver(books, s, ds[f..])
    decreases |ds|
  {
    hide Apply, EventOf, SaysTooLittle;
    if ds != [] {
      var n := |ds| - 1;
      if f <= n {
        RejectedFirst(s, books, ds[..n], f);
        assert ds[f..][..n - f] == ds[..n][f..];
      } else {
        RejectedFirst(s, books, ds[..n], n);
        assert ds[..n][n..] == [] == ds[f..];
        RejectedChangesNothing(s, books, ds[n]);
      }
    }
  }

  /**
   * Delivery-order independence: in any order and however often, the facts
   * of a sale lead to the same conclusion exactly when the first delivery
   * that is not rejected is the success or names the order, something that
   * takes effect names the order, and from then on a success arrives before
   * the refunds have used up the amount, unless they do so in the end.
   */
  lemma OrderOfDeliveryMattersExactly(s: Sale, books: Books, ds: seq<Delivery>, f: nat)
    requires Coherent(s) && Before(s, books) && (forall k :: 0 <= k < |ds| ==> Known(s, ds[k]))
    requires FirstAccepted(s, ds, f) && AllDelivered(s, ds[f..])
    ensures Concluded(s, Deliver(books, s, ds)) <==> (ds[f].Paid? || NamesOrder(s, ds[f])) && Connects(s, ds[f..])
  {
    RejectedFirst(s, books, ds, f);
    var told := ds[f..];
    assert told[0] == ds[f];
    hide Deliver, Before, Coherent, Settled, Connects, NamesOrder, AllDelivered;
    if ds[f].Paid? || NamesOrder(s, ds[f]) {
      AllKnown(s, told);
      DeliveriesSettle(s, books, told);
      SettledConcludes(s, told, Deliver(books, s, told));
    } else {
      AllKnown(s, told);
      FirstDecides(s, books, told);
      WorthCovers(s, ds[f].i, |s.refunds|);
    }
  }

  lemma AllKnown(s: Sale, ds: seq<Delivery>)
    requires AllDelivered(s, ds)
    ensures forall k :: 0 <= k < |ds| ==> Known(s, ds[k])
  {
  }

  /**
   * Where every success names its order, as at checkout, that is: the first
   * delivery that is not rejected names the order.
   */
  lemma OrderOfDeliveryDoesNotMatter(s: Sale, books: Books, ds: seq<Delivery>, f: nat)
    requires Coherent(s) && Before(s, books) && (forall k :: 0 <= k < |ds| ==> Known(s, ds[k]))
    requires forall k :: 0 <= k < |ds| && ds[k].Paid? ==> ds[k].namesOrder
    requires FirstAccepted(s, ds, f) && AllDelivered(s, ds[f..])
    ensures Concluded(s, Deliver(books, s, ds)) <==> NamesOrder(s, ds[f])
  {
    OrderOfDeliveryMattersExactly(s, books, ds, f);
    if NamesOrder(s, ds[f]) {
      NamedFirstConnects(s, ds[f..]);
    }
  }

  lemma NamedFirstConnects(s: Sale, ds: seq<Delivery>)
    requires Coherent(s) && AllDelivered(s, ds) && NamesOrder(s, ds[0])
    ensures Connects(s, ds)
  {
    FirstBinds(s, ds);
    PaidIsInTime(s, ds);
    EverythingCounts(s, ds, |s.refunds|);
    hide RefundedTo, WorthTo, BoundBy, PaidInTime;
  }

  /** What was granted does depend on the order: credits and entitlements exactly when the success came in time. */
  lemma GrantsNeedSuccessInTime(s: Sale, books: Books, ds: seq<Delivery>, f: nat)
    requires Coherent(s) && Before(s, books) && (forall k :: 0 <= k < |ds| ==> Known(s, ds[k]))
    requires FirstAccepted(s, ds, f) && AllDelivered(s, ds[f..]) && (ds[f].Paid? || NamesOrder(s, ds[f]))
    ensures s.order in Deliver(books, s, ds).credited <==> PaidInTime(s, ds[f..])
    ensures NamesOrder(s, ds[f]) && FinallyRefunded(s) < s.total ==> PaidInTime(s, ds[f..])
  {
    RejectedFirst(s, books, ds, f);
    var told := ds[f..];
    assert told[0] == ds[f];
    AllKnown(s, told);
    hide Deliver, Before, Coherent, AllDelivered, RefundTotal, FinallyRefunded, BoundBy, PaidInTime, NamesOrder;
    hide RowsSettled, PaymentSettled, OrderSettled;
    DeliveriesSettle(s, books, told);
    if NamesOrder(s, ds[f]) {
      NamedFirstConnects(s, told);
    }
  }
}
