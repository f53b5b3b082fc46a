/**
 * Where the payment handler stops keeping what one might expect of it over a
 * history, and exactly when: refunds beyond what was captured, a status that
 * parts from the confirmed refunds, access to a refunded order, a succeeded
 * refund that is rewritten.
 */
module PaymentLimits {
  import opened Wrappers
  import opened PaymentEvents
  import opened PaymentFacts
  import opened PaymentGrowth
  import opened PaymentRuns

  const NO_BOOKS := Books(map[], map[], [], map[], {}, {})

  lemma NothingHappenedYet(books: Books, hs: seq<Happening>)
    ensures RunTo(books, hs, 0) == books
  {
  }

  lemma OneMore(books: Books, hs: seq<Happening>, n: nat)
    requires n < |hs|
    ensures RunTo(books, hs, n + 1) == Happen(RunTo(books, hs, n), hs[n])
  {
  }

  // ---- confirmed refunds against the captured amount ----

  ghost predicate WithinCaptured(books: Books) {
    forall q :: q in books.payments ==> Confirmed(books, q) <= books.payments[q].amount
  }

  /** "total amount is not negative" */
  ghost predicate TotalsValid(books: Books) {
    forall o :: o in books.orders ==> 0 <= books.orders[o].total
  }

  lemma TotalsStay(before: Books, after: Books)
    requires TotalsValid(before) && Forward(before, after)
    ensures TotalsValid(after)
  {
  }

  /** The event takes the confirmed refunds of some payment beyond what it captured. */
  ghost predicate Overconfirms(books: Books, h: Happening) {
    h.Deliver? && exists q :: q in books.payments && Overbooks(books, h.e, q, Others(books, h.e, q).confirmed)
  }

  lemma EventStaysWithin(books: Books, e: Event)
    requires RowsValid(books) && TotalsValid(books) && WithinCaptured(books)
    ensures WithinCaptured(After(books, e)) <==> !Overconfirms(books, Deliver(e))
  {
    hide RowsValid, Overbooks, After, TallyTo;
    var after := After(books, e);
    forall q | q in after.payments
      ensures after.payments[q].amount < Confirmed(after, q)
              <==> q in books.payments && Overbooks(books, e, q, Others(books, e, q).confirmed)
    {
      if q in books.payments {
        ConfirmedExceedsExactly(books, e, q);
        PaymentKept(books, e, q);
      } else {
        NewPaymentIsWithin(books, e, q);
      }
    }
    forall q | q in books.payments ensures q in after.payments {
      PaymentKept(books, e, q);
    }
  }

  lemma PaymentKept(books: Books, e: Event, q: string)
    requires q in books.payments
    ensures q in After(books, e).payments && After(books, e).payments[q].amount == books.payments[q].amount
  {
    hide After;
    ApplyMovesForward(books, e);
  }

  lemma HappeningStaysWithin(books: Books, h: Happening)
    requires RowsValid(books) && Valid(h) && TotalsValid(books) && WithinCaptured(books)
    ensures WithinCaptured(Happen(books, h)) <==> !Overconfirms(books, h)
  {
    hide RowsValid, TallyTo, TotalsValid, After, Others, Overbooks;
    if h.Deliver? {
      EventStaysWithin(books, h.e);
    } else {
      JournalKeepsRows(books, h);
      JournalKeepsPayments(books, h);
      hide Confirmed;
    }
  }

  ghost predicate OverconfirmsAt(books: Books, hs: seq<Happening>, k: nat)
    requires k < |hs|
  {
    Overconfirms(RunTo(books, hs, k), hs[k])
  }

  ghost predicate WithinAt(books: Books, hs: seq<Happening>, k: nat)
    requires k <= |hs|
  {
    WithinCaptured(RunTo(books, hs, k))
  }

  /** One more happening of a history. */
  lemma WithinAfterOneMore(books: Books, hs: seq<Happening>, n: nat)
    requires RowsValid(books) && AllValid(hs) && n < |hs| && TotalsValid(books) && WithinAt(books, hs, n)
    ensures WithinAt(books, hs, n + 1) <==> !OverconfirmsAt(books, hs, n)
  {
    hide RowsValid, TotalsValid, WithinCaptured, Overconfirms, Happen, Forward;
    HistoryMovesForward(books, hs, 0, n);
    NothingHappenedYet(books, hs);
    TotalsStay(books, RunTo(books, hs, n));
    OneMore(books, hs, n);
    HappeningStaysWithin(RunTo(books, hs, n), hs[n]);
  }

  /**
   * Over any history: confirmed refunds are within the captured amounts at
   * every moment exactly when no event so far overbooked a payment.
   */
  lemma {:induction false} WithinCapturedExactly(books: Books, hs: seq<Happening>, n: nat)
    requires RowsValid(books) && AllValid(hs) && n <= |hs| && TotalsValid(books) && WithinCaptured(books)
    ensures (forall k :: 0 <= k <= n ==> WithinAt(books, hs, k))
            <==> forall k :: 0 <= k < n ==> !OverconfirmsAt(books, hs, k)
  {
    NothingHappenedYet(books, hs);
    hide RowsValid, AllValid, TotalsValid, WithinCaptured, OverconfirmsAt, RunTo;
    if 0 < n {
      WithinCapturedExactly(books, hs, n - 1);
      hide WithinAt;
      if forall k :: 0 <= k <= n - 1 ==> WithinAt(books, hs, k) {
        assert WithinAt(books, hs, n - 1);
        WithinAfterOneMore(books, hs, n - 1);
      }
    }
  }

  /** With a derived id of its own, no event takes back what was confirmed: a payment once exceeded stays so. */
  lemma ExceededStays(books: Books, h: Happening)
    requires RowsValid(books) && Valid(h) && (h.Deliver? ==> OwnFallback(books, h.e)) && !WithinCaptured(books)
    ensures !WithinCaptured(Happen(books, h))
  {
    hide RowsValid, TallyTo, After, Admit, PlanRefund, Headroom;
    var q :| q in books.payments && books.payments[q].amount < Confirmed(books, q);
    if h.Deliver? {
      ConfirmedAfter(books, h.e, q);
      PlannedNotNegative(books, h.e);
      PaymentKept(books, h.e, q);
    } else {
      JournalKeepsRows(books, h);
      JournalKeepsPayments(books, h);
    }
    assert Confirmed(books, q) <= Confirmed(Happen(books, h), q);
  }

  lemma PlannedNotNegative(books: Books, e: Event)
    ensures Admit(books, e).Success? && PlanRefund(books, e, Admit(books, e).value).Planned?
            ==> 0 <= PlanRefund(books, e, Admit(books, e).value).amount
  {
    if Admit(books, e).Success? && PlanRefund(books, e, Admit(books, e).value).Planned? {
      PlannedRows(books, e, Admit(books, e).value);
    }
    hide Admit, PlanRefund;
  }

  lemma TidyStaysExceeded(books: Books, hs: seq<Happening>, n: nat)
    requires ValidBooks(books) && Tidy(hs) && Derived(books.refunds, hs, 0) && n < |hs| && !WithinAt(books, hs, n)
    ensures !WithinAt(books, hs, n + 1)
  {
    hide WithinCaptured, OwnFallback, Happen, Grows, Derived, Terminal, RowsValid;
    TidyHistoryKeepsAll(books, hs, 0, n);
    assert TidyOne(hs[n]);
    if hs[n].Deliver? {
      FallbackIsFree(RunTo(books, hs, n), hs, n);
    }
    OneMore(books, hs, n);
    ExceededStays(RunTo(books, hs, n), hs[n]);
  }

  /** In a tidy history the last moment tells of all the earlier ones. */
  lemma {:induction false} TidyWithinCaptured(books: Books, hs: seq<Happening>, n: nat)
    requires ValidBooks(books) && Tidy(hs) && Derived(books.refunds, hs, 0) && n <= |hs|
    ensures WithinAt(books, hs, n) <==> forall k :: 0 <= k <= n ==> WithinAt(books, hs, k)
  {
    hide ValidBooks, Tidy, Derived, WithinAt;
    if 0 < n {
      TidyWithinCaptured(books, hs, n - 1);
      if !WithinAt(books, hs, n - 1) {
        TidyStaysExceeded(books, hs, n - 1);
      }
    }
  }

  // ---- the refund headroom ----

  ghost predicate WithinHeadroom(books: Books) {
    forall q :: q in books.payments ==> Reserved(books, q) <= books.payments[q].amount
  }

  /** An event overbooks a payment, or the journal promises more than there is left. */
  ghost predicate Overreserves(books: Books, h: Happening) {
    match h
    case Deliver(e) => exists q :: q in books.payments && Overbooks(books, e, q, Others(books, e, q).reserved)
    case Promise(id, payment, amount) =>
      && payment in books.payments && FindRefund(books.refunds, id).None? && amount.Some?
      && books.payments[payment].amount - Reserved(books, payment) < amount.value
    case Abandon(_) => false
  }

  lemma EventStaysInHeadroom(books: Books, e: Event)
    requires RowsValid(books) && TotalsValid(books) && WithinHeadroom(books)
    ensures WithinHeadroom(After(books, e)) <==> !Overreserves(books, Deliver(e))
  {
    hide RowsValid, Overbooks, After, TallyTo;
    var after := After(books, e);
    forall q | q in after.payments
      ensures after.payments[q].amount < Reserved(after, q)
              <==> q in books.payments && Overbooks(books, e, q, Others(books, e, q).reserved)
    {
      if q in books.payments {
        ReservedExceedsExactly(books, e, q);
        PaymentKept(books, e, q);
      } else {
        NewPaymentIsWithin(books, e, q);
      }
    }
    forall q | q in books.payments ensures q in after.payments {
      PaymentKept(books, e, q);
    }
  }

  lemma PromisedReserves(rows: seq<Refund>, row: Refund, q: string)
    requires row.status.RefundPending?
    ensures TallyOf(rows + [row], q, None).reserved
            == TallyOf(rows, q, None).reserved + if row.payment == q && row.amount.Some? then row.amount.value else 0
  {
    TallyAgrees(rows + [row], None, rows, None, q, |rows|);
  }

  lemma AbandonedReserves(rows: seq<Refund>, i: nat, q: string)
    requires UniqueRefunds(rows) && i < |rows| && rows[i].status.RefundPending?
    requires (rows[i].amount.Some? ==> 0 <= rows[i].amount.value)
    ensures TallyOf(rows[i := rows[i].(status := RefundFailed)], q, None).reserved <= TallyOf(rows, q, None).reserved
  {
    var after := rows[i := rows[i].(status := RefundFailed)];
    TallyWithout(after, q, i, |after|);
    TallyWithout(rows, q, i, |after|);
    TallyAgrees(after, Some(rows[i].id), rows, Some(rows[i].id), q, |after|);
  }

  lemma JournalReserves(books: Books, h: Happening, q: string)
    requires RowsValid(books) && Valid(h) && !h.Deliver?
    ensures var after := Happen(books, h);
            if h.Promise? && h.payment in books.payments && FindRefund(books.refunds, h.refund).None? then
              Reserved(after, q) == Reserved(books, q) + if h.payment == q && h.amount.Some? then h.amount.value else 0
            else Reserved(after, q) <= Reserved(books, q)
  {
    hide TallyTo;
    if h.Promise? {
      PromisedReserves(books.refunds, Refund(h.refund, h.payment, RefundPending, h.amount), q);
    } else {
      var i := FindRefund(books.refunds, h.refund);
      if i.Some? && books.refunds[i.value].status.RefundPending? {
        assert RowValid(books.refunds[i.value]);
        AbandonedReserves(books.refunds, i.value, q);
      }
    }
  }

  lemma HappeningStaysInHeadroom(books: Books, h: Happening)
    requires RowsValid(books) && Valid(h) && TotalsValid(books) && WithinHeadroom(books)
    ensures WithinHeadroom(Happen(books, h)) <==> !Overreserves(books, h)
  {
    hide RowsValid, TallyTo, TotalsValid, After, Others, Overbooks, Reserved;
    if h.Deliver? {
      EventStaysInHeadroom(books, h.e);
    } else {
      JournalKeepsPayments(books, h);
      hide Happen;
      forall q
        ensures if h.Promise? && h.payment in books.payments && FindRefund(books.refunds, h.refund).None? then
                  Reserved(Happen(books, h), q)
                  == Reserved(books, q) + if h.payment == q && h.amount.Some? then h.amount.value else 0
                else Reserved(Happen(books, h), q) <= Reserved(books, q)
      {
        JournalReserves(books, h, q);
      }
    }
  }

  ghost predicate OverreservesAt(books: Books, hs: seq<Happening>, k: nat)
    requires k < |hs|
  {
    Overreserves(RunTo(books, hs, k), hs[k])
  }

  ghost predicate InHeadroomAt(books: Books, hs: seq<Happening>, k: nat)
    requires k <= |hs|
  {
    WithinHeadroom(RunTo(books, hs, k))
  }

  lemma HeadroomAfterOneMore(books: Books, hs: seq<Happening>, n: nat)
    requires RowsValid(books) && AllValid(hs) && n < |hs| && TotalsValid(books) && InHeadroomAt(books, hs, n)
    ensures InHeadroomAt(books, hs, n + 1) <==> !OverreservesAt(books, hs, n)
  {
    hide RowsValid, TotalsValid, WithinHeadroom, Overreserves, Happen, Forward;
    HistoryMovesForward(books, hs, 0, n);
    NothingHappenedYet(books, hs);
    TotalsStay(books, RunTo(books, hs, n));
    OneMore(books, hs, n);
    HappeningStaysInHeadroom(RunTo(books, hs, n), hs[n]);
  }

  /**
   * The same for pending and succeeded refunds together: they are within the
   * captured amounts at every moment exactly when no event overbooked a
   * payment and the journal never promised more than was left.
   */
  lemma {:induction false} WithinHeadroomExactly(books: Books, hs: seq<Happening>, n: nat)
    requires RowsValid(books) && AllValid(hs) && n <= |hs| && TotalsValid(books) && WithinHeadroom(books)
    ensures (forall k :: 0 <= k <= n ==> InHeadroomAt(books, hs, k))
            <==> forall k :: 0 <= k < n ==> !OverreservesAt(books, hs, k)
  {
    NothingHappenedYet(books, hs);
    hide RowsValid, AllValid, TotalsValid, WithinHeadroom, OverreservesAt, RunTo;
    if 0 < n {
      WithinHeadroomExactly(books, hs, n - 1);
      hide InHeadroomAt;
      if forall k :: 0 <= k <= n - 1 ==> InHeadroomAt(books, hs, k) {
        assert InHeadroomAt(books, hs, n - 1);
        HeadroomAfterOneMore(books, hs, n - 1);
      }
    }
  }

  // ---- refunded and confirmed ----

  /** The event parts some payment's status from its confirmed refunds. */
  ghost predicate SplitsAt(books: Books, hs: seq<Happening>, k: nat)
    requires k < |hs|
  {
    hs[k].Deliver? && exists q :: Splits(RunTo(books, hs, k), hs[k].e, q)
  }

  ghost predicate ValidAt(books: Books, hs: seq<Happening>, k: nat)
    requires k <= |hs|
  {
    ValidBooks(RunTo(books, hs, k))
  }

  lemma HappeningStaysValid(books: Books, h: Happening)
    requires ValidBooks(books) && Valid(h)
    ensures ValidBooks(Happen(books, h)) <==> !(h.Deliver? && exists q :: Splits(books, h.e, q))
  {
    hide RowsValid, TerminalAt, Splits, After, Confirmed, Grows;
    if h.Deliver? {
      ValidExactly(books, h.e);
    } else {
      JournalKeepsRows(books, h);
      JournalKeepsPayments(books, h);
    }
  }

  lemma ValidAfterOneMore(books: Books, hs: seq<Happening>, n: nat)
    requires AllValid(hs) && n < |hs| && ValidAt(books, hs, n)
    ensures ValidAt(books, hs, n + 1) <==> !SplitsAt(books, hs, n)
  {
    hide ValidBooks, Splits, Happen;
    OneMore(books, hs, n);
    HappeningStaysValid(RunTo(books, hs, n), hs[n]);
  }

  /**
   * Over any history: at every moment a payment is refunded exactly when its
   * confirmed refunds have reached what was captured, exactly when no event so
   * far parted the two.
   */
  lemma {:induction false} RefundedMeansConfirmedExactly(books: Books, hs: seq<Happening>, n: nat)
    requires ValidBooks(books) && AllValid(hs) && n <= |hs|
    ensures (forall k :: 0 <= k <= n ==> ValidAt(books, hs, k)) <==> forall k :: 0 <= k < n ==> !SplitsAt(books, hs, k)
  {
    NothingHappenedYet(books, hs);
    hide ValidBooks, AllValid, SplitsAt, RunTo;
    if 0 < n {
      RefundedMeansConfirmedExactly(books, hs, n - 1);
      hide ValidAt;
      if forall k :: 0 <= k <= n - 1 ==> ValidAt(books, hs, k) {
        assert ValidAt(books, hs, n - 1);
        ValidAfterOneMore(books, hs, n - 1);
      }
    }
  }

  // ---- access to a refunded order ----

  predicate HasAccess(books: Books, order: string) {
    order in books.entitlements && books.entitlements[order].active
  }

  /** A success for a payment of the order that has not settled yet, and the order never had access. */
  predicate Reopens(books: Books, e: Event, order: string)
    requires order in books.orders
  {
    && e.kind.Succeeding? && Admit(books, e).Success? && Admit(books, e).value.order == Some(order)
    && books.orders[order].oneTime && books.orders[order].grantsAccess && order !in books.entitlements
    && var existing := Existing(books, Admit(books, e).value.payment);
       (existing.None? || existing.value.status.Pending? || existing.value.status.Failed?)
  }

  lemma SuccessReopens(books: Books, e: Event, c: Context, order: string)
    requires e.kind.Succeeding? && Admit(books, e) == Success(c)
    requires order in books.orders && books.orders[order].status.OrderRefunded? && !HasAccess(books, order)
    ensures HasAccess(After(books, e), order) <==> Reopens(books, e, order)
    ensures order in After(books, e).orders && After(books, e).orders[order].status.OrderRefunded?
  {
    hide Admit, PutPayment;
  }

  lemma OthersNeverGrant(books: Books, e: Event, order: string)
    requires !e.kind.Succeeding?
    requires order in books.orders && books.orders[order].status.OrderRefunded? && !HasAccess(books, order)
    ensures !HasAccess(After(books, e), order)
    ensures order in After(books, e).orders && After(books, e).orders[order].status.OrderRefunded?
  {
    hide Admit, PutPayment, PlanRefund, PutRefund;
  }

  /**
   * A refunded order without access gets it exactly by a success for another
   * unsettled payment of the order, and only if it never had access: access
   * that was revoked does not come back.
   */
  lemma AccessReturnsExactly(books: Books, e: Event, order: string)
    requires order in books.orders && books.orders[order].status.OrderRefunded? && !HasAccess(books, order)
    ensures HasAccess(After(books, e), order) <==> Reopens(books, e, order)
    ensures order in After(books, e).orders && After(books, e).orders[order].status.OrderRefunded?
  {
    if e.kind.Succeeding? {
      if Admit(books, e).Success? {
        SuccessReopens(books, e, Admit(books, e).value, order);
      }
    } else {
      OthersNeverGrant(books, e, order);
    }
    hide Apply, Admit;
  }

  predicate ReopensBy(books: Books, h: Happening, order: string) {
    h.Deliver? && order in books.orders && Reopens(books, h.e, order)
  }

  /** From the moment an order is refunded, it is without access up to and including moment n. */
  ghost predicate WithoutAccess(books: Books, hs: seq<Happening>, m: nat, n: nat, order: string)
    requires n <= |hs|
  {
    forall k :: m <= k <= n ==> !HasAccess(RunTo(books, hs, k), order)
  }

  /** Over a whole history: a refunded order stays without access exactly until such a success. */
  lemma {:induction false} AccessStaysAwayExactly(books: Books, hs: seq<Happening>, m: nat, n: nat, order: string)
    requires m <= n <= |hs|
    requires var start := RunTo(books, hs, m);
             order in start.orders && start.orders[order].status.OrderRefunded? && !HasAccess(start, order)
    ensures order in RunTo(books, hs, n).orders
    ensures (WithoutAccess(books, hs, m, n, order) ==> RunTo(books, hs, n).orders[order].status.OrderRefunded?)
    ensures WithoutAccess(books, hs, m, n, order)
            <==> forall k :: m <= k < n ==> !ReopensBy(RunTo(books, hs, k), hs[k], order)
  {
    hide After, HasAccess, Reopens;
    if m < n {
      AccessStaysAwayExactly(books, hs, m, n - 1, order);
      var before := RunTo(books, hs, n - 1);
      if hs[n - 1].Deliver? {
        OrdersStay(before, hs[n - 1].e);
        if WithoutAccess(books, hs, m, n - 1, order) {
          AccessReturnsExactly(before, hs[n - 1].e, order);
        }
      }
      assert WithoutAccess(books, hs, m, n, order) <==>
             WithoutAccess(books, hs, m, n - 1, order) && !HasAccess(RunTo(books, hs, n), order);
      if !hs[n - 1].Deliver? {
        JournalKeepsAccess(before, hs[n - 1], order);
      }
    }
  }

  lemma OrdersStay(books: Books, e: Event)
    ensures After(books, e).orders.Keys == books.orders.Keys
  {
    hide Admit, PlanRefund, PutRefund, PutPayment;
  }

  lemma JournalKeepsAccess(books: Books, h: Happening, order: string)
    requires !h.Deliver?
    ensures HasAccess(Happen(books, h), order) == HasAccess(books, order) && Happen(books, h).orders == books.orders
  {
  }

  /** The very step that refunds an order leaves it without access, however many payments it has. */
  lemma RefundTakesAccess(books: Books, e: Event, order: string)
    requires order in books.orders && !books.orders[order].status.OrderRefunded?
    requires order in After(books, e).orders && After(books, e).orders[order].status.OrderRefunded?
    ensures !HasAccess(After(books, e), order)
  {
    hide Admit, PutPayment, PlanRefund, PutRefund;
  }

  /**
   * From the step at which an order is refunded on: it is without access
   * exactly as long as no success for an unsettled payment of it arrives, and
   * for ever if it ever had access.
   */
  lemma RefundedOrderAccessExactly(books: Books, hs: seq<Happening>, m: nat, n: nat, order: string)
    requires m < n <= |hs| && order in RunTo(books, hs, m).orders
    requires !RunTo(books, hs, m).orders[order].status.OrderRefunded?
    requires order in RunTo(books, hs, m + 1).orders && RunTo(books, hs, m + 1).orders[order].status.OrderRefunded?
    ensures WithoutAccess(books, hs, m + 1, n, order)
            <==> forall k :: m + 1 <= k < n ==> !ReopensBy(RunTo(books, hs, k), hs[k], order)
    ensures order in RunTo(books, hs, m).entitlements ==> WithoutAccess(books, hs, m + 1, n, order)
  {
    hide After, Reopens, RunTo;
    OneMore(books, hs, m);
    if hs[m].Deliver? {
      RefundTakesAccess(RunTo(books, hs, m), hs[m].e, order);
    } else {
      JournalKeepsPayments(RunTo(books, hs, m), hs[m]);
    }
    AccessStaysAwayExactly(books, hs, m + 1, n, order);
    if order in RunTo(books, hs, m).entitlements {
      forall k | m + 1 <= k < n ensures !ReopensBy(RunTo(books, hs, k), hs[k], order) {
        GrantsLast(books, hs, m, k);
        GrantedNeverReopens(RunTo(books, hs, k), hs[k], order);
      }
    }
  }

  lemma GrantedNeverReopens(books: Books, h: Happening, order: string)
    requires order in books.entitlements
    ensures !ReopensBy(books, h, order)
  {
  }

  // ---- succeeded refunds ----

  lemma RefundsStayUnique(books: Books, h: Happening)
    requires UniqueRefunds(books.refunds)
    ensures UniqueRefunds(Happen(books, h).refunds)
  {
    if h.Deliver? {
      var e := h.e;
      if !e.kind.Refunding? {
        OnlyRefundsTouchRefunds(books, e);
      } else if Admit(books, e).Success? {
        var c := Admit(books, e).value;
        var plan := PlanRefund(books, e, c);
        if plan.Planned? {
          PlannedUnique(books, e, c);
          PutRefundUnique(plan.rows, RefundId(e), c.payment, plan.amount);
        } else if plan.NothingLeft? {
          NothingLeftRows(books, e, c);
        }
        hide Admit, PlanRefund, PutRefund, PutPayment, PutOrder;
      }
    }
  }

  lemma PutRefundUnique(rows: seq<Refund>, id: string, payment: string, amount: int)
    requires UniqueRefunds(rows)
    ensures UniqueRefunds(PutRefund(rows, id, payment, amount))
  {
  }

  predicate RewritesAt(books: Books, hs: seq<Happening>, k: nat, i: nat)
    requires k < |hs|
  {
    var now := RunTo(books, hs, k);
    hs[k].Deliver? && i < |now.refunds| && Rewrites(now, hs[k].e, now.refunds[i])
  }

  lemma HappeningKeepsFact(books: Books, h: Happening, i: nat)
    requires UniqueRefunds(books.refunds) && i < |books.refunds| && books.refunds[i].status.RefundSucceeded?
    ensures var after := Happen(books, h).refunds;
            && i < |after| && SameFact(books.refunds[i], after[i])
            && (after[i] != books.refunds[i] <==> h.Deliver? && Rewrites(books, h.e, books.refunds[i]))
  {
    hide After, Rewrites;
    if h.Deliver? {
      SucceededRefundChangesExactly(books, h.e, i);
    }
  }

  /** The refund in row i says at every moment from m to n what it said at moment m. */
  ghost predicate FactStays(books: Books, hs: seq<Happening>, m: nat, n: nat, i: nat)
    requires m <= n <= |hs| && i < |RunTo(books, hs, m).refunds|
  {
    forall k :: m <= k <= n ==> FactAt(books, hs, k, i, RunTo(books, hs, m).refunds[i])
  }

  predicate FactAt(books: Books, hs: seq<Happening>, k: nat, i: nat, row: Refund)
    requires k <= |hs|
  {
    i < |RunTo(books, hs, k).refunds| && RunTo(books, hs, k).refunds[i] == row
  }

  lemma OneMoreKeepsFact(books: Books, hs: seq<Happening>, n: nat, i: nat)
    requires n < |hs|
    requires var rows := RunTo(books, hs, n).refunds;
             UniqueRefunds(rows) && i < |rows| && rows[i].status.RefundSucceeded?
    ensures var before, after := RunTo(books, hs, n).refunds, RunTo(books, hs, n + 1).refunds;
            && UniqueRefunds(after) && i < |after| && SameFact(before[i], after[i])
            && (after[i] != before[i] <==> RewritesAt(books, hs, n, i))
  {
    hide Happen, UniqueRefunds, Rewrites;
    HappeningKeepsFact(RunTo(books, hs, n), hs[n], i);
    RefundsStayUnique(RunTo(books, hs, n), hs[n]);
  }

  /** Over a whole history: a succeeded refund stays as it is exactly until such an event. */
  lemma {:induction false} SucceededRefundStaysExactly(books: Books, hs: seq<Happening>, m: nat, n: nat, i: nat)
    requires m <= n <= |hs|
    requires var rows := RunTo(books, hs, m).refunds;
             UniqueRefunds(rows) && i < |rows| && rows[i].status.RefundSucceeded?
    ensures var rows := RunTo(books, hs, n).refunds;
            UniqueRefunds(rows) && i < |rows| && rows[i].status.RefundSucceeded?
              && SameFact(RunTo(books, hs, m).refunds[i], rows[i])
    ensures FactStays(books, hs, m, n, i) <==> forall k :: m <= k < n ==> !RewritesAt(books, hs, k, i)
  {
    hide RunTo, UniqueRefunds, RewritesAt;
    if m < n {
      SucceededRefundStaysExactly(books, hs, m, n - 1, i);
      OneMoreKeepsFact(books, hs, n - 1, i);
      assert FactStays(books, hs, m, n, i) <==>
             FactStays(books, hs, m, n - 1, i) && FactAt(books, hs, n, i, RunTo(books, hs, m).refunds[i]);
      if FactStays(books, hs, m, n - 1, i) {
        assert FactAt(books, hs, n - 1, i, RunTo(books, hs, m).refunds[i]);
      }
    }
  }

  // ---- instances ----

  /** A pending refund of 100 confirmed with 150 on a payment of 100. */
  lemma ConfirmationMayExceedCaptured()
    ensures var books := NO_BOOKS.(payments := map["p" := Payment(Succeeded, 100, "EUR", None, None)],
                                   refunds := [Refund("r", "p", RefundPending, Some(100))]);
            var e := Event("7", Refunding, Some("p"), None, None, None, Some(150), Some("r"), 0);
            && ValidBooks(books) && ConfirmsPending(books, e, "p")
            && books.payments["p"].amount < Confirmed(After(books, e), "p")
  {
    var books := NO_BOOKS.(payments := map["p" := Payment(Succeeded, 100, "EUR", None, None)],
                           refunds := [Refund("r", "p", RefundPending, Some(100))]);
    var e := Event("7", Refunding, Some("p"), None, None, None, Some(150), Some("r"), 0);
    assert TallyTo(books.refunds, "p", None, 1) == Tally(100, 0, false);
    assert TallyTo(books.refunds, "p", Some("r"), 1) == Tally(0, 0, false);
    ConfirmedExceedsExactly(books, e, "p");
  }

  /** A second payment for an order that was refunded before any success. */
  lemma SecondPaymentReopensAccess()
    ensures var books := NO_BOOKS.(payments := map["a" := Payment(Refunded, 100, "EUR", Some("o"), None)],
                                   orders := map["o" := Order(OrderRefunded, 100, "EUR", true, true)],
                                   refunds := [Refund("r", "a", RefundSucceeded, Some(100))]);
            var e := Event("8", Succeeding, Some("b"), Some("o"), None, Some("EUR"), Some(100), None, 5);
            ValidBooks(books) && Reopens(books, e, "o") && HasAccess(After(books, e), "o")
  {
    var books := NO_BOOKS.(payments := map["a" := Payment(Refunded, 100, "EUR", Some("o"), None)],
                           orders := map["o" := Order(OrderRefunded, 100, "EUR", true, true)],
                           refunds := [Refund("r", "a", RefundSucceeded, Some(100))]);
    var e := Event("8", Succeeding, Some("b"), Some("o"), None, Some("EUR"), Some(100), None, 5);
    assert TallyTo(books.refunds, "a", None, 1) == Tally(100, 100, false);
    AccessReturnsExactly(books, e, "o");
  }

  /**
   * The events, all with ids of their own: two payments, a refund of the first
   * under a provider id that looks derived, and a full refund of the second
   * without an id of its own, whose event id derives that very id.
   */
  const LOOKALIKE: seq<Happening> := [
    Deliver(Event("4", Succeeding, Some("p"), None, None, Some("EUR"), Some(15), None, 0)),
    Deliver(Event("5", Succeeding, Some("q"), None, None, Some("EUR"), Some(50), None, 0)),
    Deliver(Event("6", Refunding, Some("p"), None, None, None, Some(10), Some("event:7"), 0)),
    Deliver(Event("7", Refunding, Some("q"), None, None, None, Some(50), None, 0))]

  lemma LookalikeBooked()
    ensures var books := RunTo(NO_BOOKS, LOOKALIKE, 3);
            && books.orders == map[]
            && books.payments == map["p" := Payment(Succeeded, 15, "EUR", None, None),
                                     "q" := Payment(Succeeded, 50, "EUR", None, None)]
            && books.refunds == [Refund("event:7", "p", RefundSucceeded, Some(10))]
  {
    var one, two, three := RunTo(NO_BOOKS, LOOKALIKE, 1), RunTo(NO_BOOKS, LOOKALIKE, 2), RunTo(NO_BOOKS, LOOKALIKE, 3);
    assert RunTo(NO_BOOKS, LOOKALIKE, 0) == NO_BOOKS;
    assert one == After(NO_BOOKS, LOOKALIKE[0].e);
    assert one == NO_BOOKS.(payments := map["p" := Payment(Succeeded, 15, "EUR", None, None)]);
    assert two == After(one, LOOKALIKE[1].e);
    assert two == one.(payments := one.payments["q" := Payment(Succeeded, 50, "EUR", None, None)]);
    assert three == After(two, LOOKALIKE[2].e);
    assert PlanRefund(two, LOOKALIKE[2].e, Context("p", None, 10, "EUR")) == Planned([], 10, false);
    assert three.payments == two.payments;
  }

  /** What the last event does to such books. */
  lemma LookalikeRewritten(books: Books)
    requires books.payments == map["p" := Payment(Succeeded, 15, "EUR", None, None),
                                   "q" := Payment(Succeeded, 50, "EUR", None, None)]
    requires books.orders == map[] && books.refunds == [Refund("event:7", "p", RefundSucceeded, Some(10))]
    ensures var e := LOOKALIKE[3].e; var after := After(books, e);
            && after.refunds == [Refund("event:7", "p", RefundSucceeded, Some(50))]
            && after.payments["q"].status == Refunded && after.payments["p"] == books.payments["p"]
            && Rewrites(books, e, books.refunds[0]) && Misbooks(books, e, "p")
  {
    var e := LOOKALIKE[3].e;
    assert "event:" + "7" == "event:7";
    assert Admit(books, e) == Success(Context("q", None, 50, "EUR"));
    assert TallyTo(books.refunds, "q", None, 1) == Tally(0, 0, false);
    assert PlanRefund(books, e, Context("q", None, 50, "EUR")) == Planned(books.refunds, 50, true);
    assert FindRefund(books.refunds, "event:7") == Some(0);
  }

  lemma LookalikeTally()
    ensures var rows := [Refund("event:7", "p", RefundSucceeded, Some(50))];
            TallyOf(rows, "p", None) == Tally(50, 50, false) && TallyOf(rows, "q", None) == Tally(0, 0, false)
  {
    var rows := [Refund("event:7", "p", RefundSucceeded, Some(50))];
    assert TallyTo(rows, "p", None, 1) == Tally(50, 50, false);
    assert TallyTo(rows, "q", None, 1) == Tally(0, 0, false);
  }

  lemma LastHappening()
    ensures RunTo(NO_BOOKS, LOOKALIKE, 4) == After(RunTo(NO_BOOKS, LOOKALIKE, 3), LOOKALIKE[3].e)
  {
    hide After;
  }

  ghost predicate EventIdsDiffer(hs: seq<Happening>) {
    && (forall i :: 0 <= i < |hs| ==> hs[i].Deliver?)
    && (forall i, j :: 0 <= i < j < |hs| ==> hs[i].e.id != hs[j].e.id)
  }

  lemma LookalikeIdsDiffer()
    ensures EventIdsDiffer(LOOKALIKE)
  {
  }

  lemma LookalikeEnds(books: Books, after: Books)
    requires books.orders == map[] && books.refunds == [Refund("event:7", "p", RefundSucceeded, Some(10))]
    requires books.payments == map["p" := Payment(Succeeded, 15, "EUR", None, None),
                                   "q" := Payment(Succeeded, 50, "EUR", None, None)]
    requires after == After(books, LOOKALIKE[3].e)
    ensures Rewrites(books, LOOKALIKE[3].e, books.refunds[0])
    ensures after.refunds == [Refund("event:7", "p", RefundSucceeded, Some(50))]
    ensures {"p", "q"} <= after.payments.Keys
    ensures after.payments["p"].amount < Confirmed(after, "p") && after.payments["p"].status == Succeeded
    ensures after.payments["q"].status == Refunded && Confirmed(after, "q") == 0
  {
    hide After, Rewrites, TallyOf;
    LookalikeRewritten(books);
    PaymentKept(books, LOOKALIKE[3].e, "p");
    PaymentKept(books, LOOKALIKE[3].e, "q");
    LookalikeTally();
  }

  /**
   * From empty books, with no event id repeated: the last event rewrites the
   * first payment's refund and keeps it with that payment, of which then more
   * is confirmed than it captured, and closes its own payment with nothing
   * confirmed.
   */
  lemma LookalikeRefundIsRewritten()
    ensures EventIdsDiffer(LOOKALIKE)
    ensures RunTo(NO_BOOKS, LOOKALIKE, 3).refunds == [Refund("event:7", "p", RefundSucceeded, Some(10))]
    ensures RewritesAt(NO_BOOKS, LOOKALIKE, 3, 0)
    ensures var after := RunTo(NO_BOOKS, LOOKALIKE, 4);
            && after.refunds == [Refund("event:7", "p", RefundSucceeded, Some(50))]
            && {"p", "q"} <= after.payments.Keys
            && after.payments["p"].amount < Confirmed(after, "p") && after.payments["p"].status == Succeeded
            && after.payments["q"].status == Refunded && Confirmed(after, "q") == 0
  {
    hide RunTo, After, Rewrites, TallyOf, EventIdsDiffer;
    LookalikeIdsDiffer();
    LookalikeBooked();
    LastHappening();
    LookalikeEnds(RunTo(NO_BOOKS, LOOKALIKE, 3), RunTo(NO_BOOKS, LOOKALIKE, 4));
  }
}
