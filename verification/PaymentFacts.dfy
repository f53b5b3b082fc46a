/**
 * Refunds against what was captured: what an event books, exactly when it
 * books more than there is, and exactly when a payment's status says what its
 * confirmed refunds say.
 */
module PaymentFacts {
  import opened Wrappers
  import opened PaymentEvents

  // ---- refund tallies ----

  function Reserves(row: Refund, payment: string, skip: Option<string>): int {
    if Counts(row, payment, skip) && row.amount.Some? then row.amount.value else 0
  }

  function Confirms(row: Refund, payment: string, skip: Option<string>): int {
    if row.status.RefundSucceeded? then Reserves(row, payment, skip) else 0
  }

  predicate Unknowable(row: Refund, payment: string, skip: Option<string>) {
    Counts(row, payment, skip) && row.amount.None?
  }

  /** Two tables that show the same to a payment tally the same. */
  lemma {:induction false} TallyAgrees(xs: seq<Refund>, xskip: Option<string>, ys: seq<Refund>, yskip: Option<string>,
                                       payment: string, n: nat)
    requires n <= |xs| && n <= |ys|
    requires forall i :: 0 <= i < n ==>
               && Reserves(xs[i], payment, xskip) == Reserves(ys[i], payment, yskip)
               && Confirms(xs[i], payment, xskip) == Confirms(ys[i], payment, yskip)
               && Unknowable(xs[i], payment, xskip) == Unknowable(ys[i], payment, yskip)
    ensures TallyTo(xs, payment, xskip, n) == TallyTo(ys, payment, yskip, n)
  {
    if 0 < n {
      TallyAgrees(xs, xskip, ys, yskip, payment, n - 1);
    }
  }

  ghost predicate UniqueRefunds(rows: seq<Refund>) {
    forall i, j :: 0 <= i < j < |rows| ==> rows[i].id != rows[j].id
  }

  /** With unique ids, leaving out one row by its id takes just that row off the tally. */
  lemma {:induction false} TallyWithout(rows: seq<Refund>, payment: string, k: nat, n: nat)
    requires UniqueRefunds(rows) && k < |rows| && n <= |rows|
    ensures var all := TallyTo(rows, payment, None, n); var rest := TallyTo(rows, payment, Some(rows[k].id), n);
            && all.reserved == rest.reserved + (if k < n then Reserves(rows[k], payment, None) else 0)
            && all.confirmed == rest.confirmed + (if k < n then Confirms(rows[k], payment, None) else 0)
            && (all.unknown <==> rest.unknown || (k < n && Unknowable(rows[k], payment, None)))
  {
    if 0 < n {
      TallyWithout(rows, payment, k, n - 1);
    }
  }

  /** The payment a refund fact belongs to: the one recorded with it, else the event's. */
  function PayerOf(rows: seq<Refund>, id: string, payment: string): string {
    var i := FindRefund(rows, id);
    if i.Some? then rows[i.value].payment else payment
  }

  /** After the upsert the fact counts with its amount; everything else counts as before. */
  lemma PutRefundTally(rows: seq<Refund>, id: string, payment: string, amount: int, q: string)
    requires UniqueRefunds(rows)
    ensures var after := PutRefund(rows, id, payment, amount); var rest := TallyOf(rows, q, Some(id));
            var added := if PayerOf(rows, id, payment) == q then amount else 0;
            && UniqueRefunds(after)
            && TallyOf(after, q, None) == Tally(rest.reserved + added, rest.confirmed + added, rest.unknown)
  {
    var after := PutRefund(rows, id, payment, amount);
    match FindRefund(rows, id)
    case Some(k) =>
      TallyWithout(after, q, k, |after|);
      TallyAgrees(after, Some(id), rows, Some(id), q, |rows|);
    case None =>
      TallyAgrees(after, None, rows, Some(id), q, |rows|);
  }

  lemma SkipUncounted(rows: seq<Refund>, q: string, id: string)
    requires forall i :: 0 <= i < |rows| && rows[i].id == id ==> !Counts(rows[i], q, None)
    ensures TallyOf(rows, q, Some(id)) == TallyOf(rows, q, None)
  {
    TallyAgrees(rows, Some(id), rows, None, q, |rows|);
  }

  /** Superseding provisional rows frees what they reserved and touches nothing that was confirmed. */
  lemma {:induction false} SupersededTally(rows: seq<Refund>, payment: string, q: string, skip: Option<string>, n: nat)
    requires n <= |rows| && forall i :: 0 <= i < |rows| ==> rows[i].amount.Some? ==> 0 <= rows[i].amount.value
    ensures var before := TallyTo(rows, q, skip, n); var after := TallyTo(Superseded(rows, payment), q, skip, n);
            && after.confirmed == before.confirmed && after.reserved <= before.reserved
            && (q != payment ==> after == before)
  {
    if 0 < n {
      SupersededTally(rows, payment, q, skip, n - 1);
    }
  }

  lemma {:induction false} ConfirmedIsReserved(rows: seq<Refund>, q: string, skip: Option<string>, n: nat)
    requires n <= |rows| && forall i :: 0 <= i < |rows| ==> rows[i].amount.Some? ==> 0 <= rows[i].amount.value
    ensures 0 <= TallyTo(rows, q, skip, n).confirmed <= TallyTo(rows, q, skip, n).reserved
  {
    if 0 < n {
      ConfirmedIsReserved(rows, q, skip, n - 1);
    }
  }

  lemma {:induction false} NoRows(rows: seq<Refund>, q: string, skip: Option<string>, n: nat)
    requires n <= |rows| && forall i :: 0 <= i < |rows| ==> rows[i].payment != q
    ensures TallyTo(rows, q, skip, n) == Tally(0, 0, false)
  {
    if 0 < n {
      NoRows(rows, q, skip, n - 1);
    }
  }

  // ---- the invariant ----

  function Confirmed(books: Books, payment: string): int {
    TallyOf(books.refunds, payment, None).confirmed
  }

  function Reserved(books: Books, payment: string): int {
    TallyOf(books.refunds, payment, None).reserved
  }

  ghost predicate RowsValid(books: Books) {
    && UniqueRefunds(books.refunds)
    && (forall i :: 0 <= i < |books.refunds| ==>
          RowValid(books.refunds[i]) && books.refunds[i].payment in books.payments)
  }

  predicate RowValid(row: Refund) {
    && (row.amount.Some? ==> 0 <= row.amount.value)
    && (row.status.RefundSucceeded? ==> row.amount.Some?)
  }

  lemma AmountsValid(books: Books)
    requires RowsValid(books)
    ensures forall i :: 0 <= i < |books.refunds| ==>
              books.refunds[i].amount.Some? ==> 0 <= books.refunds[i].amount.value
  {
  }

  /** Refunded means: confirmed refunds, pending ones not counted, have reached what was captured. */
  predicate TerminalAt(books: Books, q: string) {
    q in books.payments && 0 < books.payments[q].amount ==>
      (books.payments[q].status.Refunded? <==> books.payments[q].amount <= Confirmed(books, q))
  }

  ghost predicate Terminal(books: Books) {
    forall q :: q in books.payments ==> TerminalAt(books, q)
  }

  ghost predicate ValidBooks(books: Books) {
    RowsValid(books) && Terminal(books)
  }

  // ---- what a refund event is about ----

  /** An event without a refund id books its refund under a row of its own. */
  predicate OwnFallback(books: Books, e: Event) {
    e.refund.None? ==> FindRefund(books.refunds, FallbackId(e)).None?
  }

  /** The event confirms a refund that was recorded as pending. */
  predicate Upgrades(books: Books, e: Event) {
    && e.kind.Refunding? && e.refund.Some?
    && var i := FindRefund(books.refunds, e.refund.value);
       i.Some? && books.refunds[i.value].status.RefundPending?
  }

  function Captured(books: Books, c: Context): int {
    if c.payment in books.payments then books.payments[c.payment].amount else c.amount
  }

  /** What the refunds recorded so far leave of the payment. */
  function Headroom(books: Books, c: Context): int {
    if c.payment !in books.payments then c.amount
    else
      var tally := TallyOf(books.refunds, c.payment, None);
      if tally.unknown then 0 else books.payments[c.payment].amount - tally.reserved
  }

  /** What the other refunds of the payment leave, as far as they are known. */
  function LeftByOthers(books: Books, q: string, refund: Option<string>): int
    requires q in books.payments
  {
    var others := TallyOf(books.refunds, q, refund);
    if others.unknown then 0 else books.payments[q].amount - others.reserved
  }

  /** The amount a confirmation books: the event's, else the one recorded, else what the others leave. */
  function AmountConfirmed(books: Books, e: Event, q: string): int
    requires q in books.payments && Upgrades(books, e)
  {
    var row := books.refunds[FindRefund(books.refunds, e.refund.value).value];
    if e.amount.Some? then e.amount.value
    else if row.amount.Some? then row.amount.value
    else LeftByOthers(books, q, e.refund)
  }

  /** The amount a refund without an id books: the event's, as far as something is left, else all that is left. */
  function AmountUnnamed(books: Books, e: Event, c: Context): int {
    if e.amount.Some? then Min(e.amount.value, Headroom(books, c)) else Headroom(books, c)
  }

  lemma AdmittedAbout(books: Books, e: Event)
    requires Admit(books, e).Success?
    ensures e.payment == Some(Admit(books, e).value.payment)
  {
  }

  // ---- what is planned ----

  /** The rows a plan works on are the recorded ones, or those with the payment's provisional rows superseded. */
  lemma PlannedRows(books: Books, e: Event, c: Context)
    requires PlanRefund(books, e, c).Planned?
    ensures var rows := PlanRefund(books, e, c).rows;
            rows == books.refunds || rows == Superseded(books.refunds, c.payment)
    ensures 0 <= PlanRefund(books, e, c).amount
  {
    hide TallyTo;
  }

  lemma NothingLeftRows(books: Books, e: Event, c: Context)
    requires PlanRefund(books, e, c).NothingLeft?
    ensures var rows := PlanRefund(books, e, c).rows;
            rows == books.refunds || rows == Superseded(books.refunds, c.payment)
  {
  }

  /** Without a refund id the plan is made against all recorded refunds. */
  lemma UnnamedPlan(books: Books, e: Event, c: Context)
    requires e.refund.None?
    ensures var plan := PlanRefund(books, e, c);
            if e.amount.Some? && e.amount.value <= 0 then plan.Refused?
            else if Headroom(books, c) <= 0 then plan == NothingLeft(books.refunds)
            else plan.Planned? && plan.rows == books.refunds && plan.amount == AmountUnnamed(books, e, c)
  {
    hide TallyTo;
  }

  /** A confirmation is planned for the payment of its row only, with the amount it confirms. */
  lemma UpgradePlan(books: Books, e: Event, c: Context)
    requires c.payment in books.payments && Upgrades(books, e)
    ensures var plan := PlanRefund(books, e, c);
            var row := books.refunds[FindRefund(books.refunds, e.refund.value).value];
            && (plan.Planned? <==> && row.payment == c.payment && (e.amount.Some? ==> 0 < e.amount.value)
                                   && 0 <= AmountConfirmed(books, e, c.payment))
            && (plan.Planned? ==> plan.rows == books.refunds && plan.amount == AmountConfirmed(books, e, c.payment))
  {
    hide TallyTo;
  }

  /** With a refund id, the row that has it belongs to the payment and is not confirmed yet. */
  lemma NamedRow(books: Books, e: Event, c: Context)
    requires e.refund.Some? && PlanRefund(books, e, c).Planned?
    ensures var k := FindRefund(books.refunds, e.refund.value); var plan := PlanRefund(books, e, c);
            if k.Some? then
              && plan.rows == books.refunds && c.payment in books.payments
              && books.refunds[k.value].payment == c.payment && !books.refunds[k.value].status.RefundSucceeded?
            else FindRefund(plan.rows, e.refund.value).None?
  {
    hide TallyTo;
    PlannedRows(books, e, c);
  }

  lemma PlannedUnique(books: Books, e: Event, c: Context)
    requires UniqueRefunds(books.refunds) && PlanRefund(books, e, c).Planned?
    ensures UniqueRefunds(PlanRefund(books, e, c).rows) && |PlanRefund(books, e, c).rows| == |books.refunds|
  {
    PlannedRows(books, e, c);
    hide PlanRefund;
  }

  /** What a plan says of a payment that was there before: when it closes it, and what it leaves room for. */
  lemma PlanOfKnown(books: Books, e: Event, c: Context)
    requires c.payment in books.payments && e.kind.Refunding? && PlanRefund(books, e, c).Planned?
    ensures var plan := PlanRefund(books, e, c); var captured := books.payments[c.payment].amount;
            var tally := TallyOf(plan.rows, c.payment, if Upgrades(books, e) then e.refund else None);
            && (plan.full <==> captured <= tally.confirmed + plan.amount)
            && (!Upgrades(books, e) ==> plan.amount <= captured - tally.reserved && !tally.unknown)
  {
    hide TallyTo;
  }

  lemma PlanOfNew(books: Books, e: Event, c: Context)
    requires c.payment !in books.payments && PlanRefund(books, e, c).Planned?
    ensures var plan := PlanRefund(books, e, c);
            plan.rows == books.refunds && plan.amount <= c.amount && (plan.full <==> c.amount <= plan.amount)
  {
    hide TallyTo;
  }

  /**
   * A planned refund closes its payment exactly when it takes what was
   * confirmed up to what was captured, and unless it confirms a pending
   * refund it fits into what pending and succeeded refunds leave.
   */
  lemma PlannedAgainst(books: Books, e: Event, c: Context)
    requires RowsValid(books) && e.kind.Refunding? && PlanRefund(books, e, c).Planned?
    ensures var plan := PlanRefund(books, e, c);
            && (plan.full <==> Captured(books, c) <= Confirmed(books, c.payment) + plan.amount)
            && (!Upgrades(books, e) ==>
                  plan.amount <= Captured(books, c) - TallyOf(plan.rows, c.payment, None).reserved)
  {
    hide PlanRefund, TallyTo, UniqueRefunds;
    var plan := PlanRefund(books, e, c);
    PlannedRows(books, e, c);
    AmountsValid(books);
    SupersededTally(books.refunds, c.payment, c.payment, None, |books.refunds|);
    if c.payment in books.payments {
      PlanOfKnown(books, e, c);
      if Upgrades(books, e) {
        UpgradePlan(books, e, c);
        TallyWithout(books.refunds, c.payment, FindRefund(books.refunds, e.refund.value).value, |books.refunds|);
      }
    } else {
      PlanOfNew(books, e, c);
      NoRows(books.refunds, c.payment, None, |books.refunds|);
    }
  }

  // ---- what a booked refund does to the tallies ----

  /** What counts for a payment besides the refund the event is about. */
  function Others(books: Books, e: Event, q: string): Tally {
    TallyOf(books.refunds, q, Some(RefundId(e)))
  }

  /** The payment a planned refund is booked for: a row that exists keeps its payment. */
  function BookedFor(books: Books, e: Event, c: Context): string {
    PayerOf(books.refunds, RefundId(e), c.payment)
  }

  lemma PlannedPayer(books: Books, e: Event, c: Context)
    requires PlanRefund(books, e, c).Planned?
    ensures PayerOf(PlanRefund(books, e, c).rows, RefundId(e), c.payment) == BookedFor(books, e, c)
    ensures e.refund.Some? ==> BookedFor(books, e, c) == c.payment
  {
    hide PlanRefund;
    if e.refund.Some? {
      NamedRow(books, e, c);
    } else {
      UnnamedPlan(books, e, c);
    }
  }

  /** What a planned refund does to the payments' tallies. */
  lemma PlannedTally(books: Books, e: Event, c: Context, q: string)
    requires RowsValid(books) && PlanRefund(books, e, c).Planned?
    ensures var plan := PlanRefund(books, e, c); var rest := Others(books, e, q);
            var after := PutRefund(plan.rows, RefundId(e), c.payment, plan.amount);
            var tally := TallyOf(after, q, None);
            var added := if BookedFor(books, e, c) == q then plan.amount else 0;
            && UniqueRefunds(after)
            && tally.confirmed == rest.confirmed + added && tally.reserved <= rest.reserved + added
            && (plan.rows == books.refunds || q != c.payment ==> tally.reserved == rest.reserved + added)
  {
    hide PlanRefund, TallyTo, PutRefund;
    var plan := PlanRefund(books, e, c);
    PlannedRows(books, e, c);
    PlannedUnique(books, e, c);
    PlannedPayer(books, e, c);
    AmountsValid(books);
    SupersededTally(books.refunds, c.payment, q, Some(RefundId(e)), |books.refunds|);
    PutRefundTally(plan.rows, RefundId(e), c.payment, plan.amount, q);
  }

  /** What the row of the event's refund contributes, as far as it is recorded. */
  lemma OthersAre(books: Books, e: Event, q: string)
    requires UniqueRefunds(books.refunds)
    ensures var k := FindRefund(books.refunds, RefundId(e)); var rest := Others(books, e, q);
            if k.Some? && books.refunds[k.value].payment == q then
              && Confirmed(books, q) == rest.confirmed + Confirms(books.refunds[k.value], q, None)
              && Reserved(books, q) == rest.reserved + Reserves(books.refunds[k.value], q, None)
            else rest == TallyOf(books.refunds, q, None)
  {
    hide TallyTo, UniqueRefunds;
    var k := FindRefund(books.refunds, RefundId(e));
    if k.Some? && books.refunds[k.value].payment == q {
      TallyWithout(books.refunds, q, k.value, |books.refunds|);
    } else {
      OnlyRow(books.refunds, RefundId(e));
      SkipUncounted(books.refunds, q, RefundId(e));
    }
  }

  lemma OnlyRow(rows: seq<Refund>, id: string)
    requires UniqueRefunds(rows)
    ensures var k := FindRefund(rows, id);
            forall i :: 0 <= i < |rows| && rows[i].id == id ==> k == Some(i)
  {
  }

  lemma OnlyRefundsTouchRefunds(books: Books, e: Event)
    requires !e.kind.Refunding?
    ensures After(books, e).refunds == books.refunds
  {
  }

  /** The event books a refund for the payment. */
  predicate BooksFor(books: Books, e: Event, q: string) {
    && e.kind.Refunding? && Admit(books, e).Success? && PlanRefund(books, e, Admit(books, e).value).Planned?
    && BookedFor(books, e, Admit(books, e).value) == q
  }

  /** The tallies after any event. */
  lemma TallyAfter(books: Books, e: Event, q: string)
    requires RowsValid(books)
    ensures var after := After(books, e);
            if BooksFor(books, e, q) then
              var plan := PlanRefund(books, e, Admit(books, e).value); var rest := Others(books, e, q);
              && Confirmed(after, q) == rest.confirmed + plan.amount
              && Reserved(after, q) <= rest.reserved + plan.amount
              && (plan.rows == books.refunds ==> Reserved(after, q) == rest.reserved + plan.amount)
            else Confirmed(after, q) == Confirmed(books, q) && Reserved(after, q) <= Reserved(books, q)
  {
    hide TallyTo, RowsValid, PlanRefund, PutRefund, PutPayment, PutOrder, Granted, Admit;
    if !e.kind.Refunding? {
      OnlyRefundsTouchRefunds(books, e);
    } else if Admit(books, e).Success? {
      var c := Admit(books, e).value;
      match PlanRefund(books, e, c)
      case NothingLeft(rows) =>
        NothingLeftRows(books, e, c);
        AmountsValid(books);
        SupersededTally(books.refunds, c.payment, q, None, |books.refunds|);
      case Planned(rows, amount, full) =>
        PlannedTally(books, e, c, q);
        RowsUnique(books);
        OthersAre(books, e, q);
      case _ =>
    }
  }

  lemma RowsUnique(books: Books)
    requires RowsValid(books)
    ensures UniqueRefunds(books.refunds)
  {
  }

  // ---- beyond what was captured, exactly ----

  /** The event confirms a pending refund of the payment. */
  predicate ConfirmsPending(books: Books, e: Event, q: string) {
    && Upgrades(books, e) && Admit(books, e).Success? && e.payment == Some(q)
    && books.refunds[FindRefund(books.refunds, e.refund.value).value].payment == q
    && (e.amount.Some? ==> 0 < e.amount.value)
  }

  /** The event has no refund id, and the id derived from it is that of a recorded refund. */
  predicate TakenId(books: Books, e: Event) {
    && e.kind.Refunding? && e.refund.None? && FindRefund(books.refunds, FallbackId(e)).Some?
    && Admit(books, e).Success? && (e.amount.Some? ==> 0 < e.amount.value)
    && 0 < Headroom(books, Admit(books, e).value)
  }

  /** The recorded refund under a taken id. */
  function TakenRow(books: Books, e: Event): Refund
    requires TakenId(books, e)
  {
    books.refunds[FindRefund(books.refunds, FallbackId(e)).value]
  }

  /** The refund of another payment is booked over a refund of this one. */
  predicate Misbooks(books: Books, e: Event, q: string) {
    TakenId(books, e) && TakenRow(books, e).payment == q && e.payment != Some(q)
  }

  /**
   * More is booked for the payment than its other refunds leave: `held` is
   * what they hold, counted as confirmed or as confirmed and pending.
   */
  predicate Overbooks(books: Books, e: Event, q: string, held: int)
    requires q in books.payments
  {
    var left := books.payments[q].amount - held;
    || (ConfirmsPending(books, e, q) && left < AmountConfirmed(books, e, q))
    || (Misbooks(books, e, q) && left < AmountUnnamed(books, e, Admit(books, e).value))
  }

  /** A refund that is booked in any other way fits into what the payment captured. */
  lemma OtherwiseFits(books: Books, e: Event, q: string)
    requires RowsValid(books) && BooksFor(books, e, q) && !ConfirmsPending(books, e, q) && !Misbooks(books, e, q)
    ensures Admit(books, e).Success?
    ensures var c := Admit(books, e).value;
            c.payment == q && Confirmed(After(books, e), q) <= Reserved(After(books, e), q) <= Captured(books, c)
  {
    hide TallyTo, RowsValid, PlanRefund, PutRefund, Admit, UniqueRefunds, After;
    var c := Admit(books, e).value;
    var plan := PlanRefund(books, e, c);
    AdmittedAbout(books, e);
    AmountsValid(books);
    RowsUnique(books);
    PlannedPayer(books, e, c);
    if e.refund.None? {
      UnnamedPlan(books, e, c);
    } else if Upgrades(books, e) {
      NamedRow(books, e, c);
      UpgradePlan(books, e, c);
    }
    FitsIn(books, e, c);
    AfterIsBooked(books, e);
  }

  lemma AfterIsBooked(books: Books, e: Event)
    requires e.kind.Refunding? && Admit(books, e).Success? && PlanRefund(books, e, Admit(books, e).value).Planned?
    ensures var c := Admit(books, e).value; var plan := PlanRefund(books, e, c);
            After(books, e).refunds == PutRefund(plan.rows, RefundId(e), c.payment, plan.amount)
  {
    hide Admit, PlanRefund, PutRefund, PutPayment, PutOrder;
  }

  /** The refund rows after a plan that fits: its payment's refunds stay within what was captured. */
  lemma FitsIn(books: Books, e: Event, c: Context)
    requires RowsValid(books) && e.kind.Refunding? && PlanRefund(books, e, c).Planned? && !Upgrades(books, e)
    requires BookedFor(books, e, c) == c.payment
    ensures var plan := PlanRefund(books, e, c); var after := PutRefund(plan.rows, RefundId(e), c.payment, plan.amount);
            var tally := TallyOf(after, c.payment, None); tally.confirmed <= tally.reserved <= Captured(books, c)
  {
    hide TallyTo, RowsValid, PlanRefund, PutRefund, UniqueRefunds, Upgrades;
    var plan := PlanRefund(books, e, c);
    var q, id := c.payment, RefundId(e);
    PlannedRows(books, e, c);
    PlannedUnique(books, e, c) by { RowsUnique(books); }
    PlannedAgainst(books, e, c);
    PlannedPayer(books, e, c);
    AmountsValid(books);
    PutRefundTally(plan.rows, id, q, plan.amount, q);
    SkippingTakes(plan.rows, q, id);
    ConfirmedIsReserved(plan.rows, q, Some(id), |plan.rows|);
  }

  /** Leaving out a row never makes the tally larger. */
  lemma SkippingTakes(rows: seq<Refund>, q: string, id: string)
    requires UniqueRefunds(rows) && forall i :: 0 <= i < |rows| ==> rows[i].amount.Some? ==> 0 <= rows[i].amount.value
    ensures TallyOf(rows, q, Some(id)).reserved <= TallyOf(rows, q, None).reserved
  {
    var k := FindRefund(rows, id);
    if k.Some? {
      TallyWithout(rows, q, k.value, |rows|);
    } else {
      SkipUncounted(rows, q, id);
    }
  }

  /** What is booked in the two ways that may overbook. */
  lemma WaysToOverbook(books: Books, e: Event, q: string, held: int)
    requires RowsValid(books) && q in books.payments && held <= books.payments[q].amount
    requires ConfirmsPending(books, e, q) || Misbooks(books, e, q)
    ensures Overbooks(books, e, q, held) ==> BooksFor(books, e, q)
    ensures BooksFor(books, e, q) ==>
              var plan := PlanRefund(books, e, Admit(books, e).value);
              plan.rows == books.refunds
                && (Overbooks(books, e, q, held) <==> books.payments[q].amount - held < plan.amount)
  {
    hide TallyTo, RowsValid, PlanRefund, Admit, UniqueRefunds;
    var c := Admit(books, e).value;
    AdmittedAbout(books, e);
    if ConfirmsPending(books, e, q) {
      UpgradePlan(books, e, c);
    } else {
      UnnamedPlan(books, e, c);
    }
  }

  /** An event leaves a payment with more refunds than it captured, confirmed or in all, exactly if it overbooks it. */
  lemma ExceedsExactly(books: Books, e: Event, q: string)
    requires RowsValid(books) && q in books.payments
    ensures var captured := books.payments[q].amount; var rest := Others(books, e, q); var after := After(books, e);
            && (Confirmed(books, q) <= captured ==>
                  (captured < Confirmed(after, q) <==> Overbooks(books, e, q, rest.confirmed)))
            && (Reserved(books, q) <= captured ==>
                  (captured < Reserved(after, q) <==> Overbooks(books, e, q, rest.reserved)))
  {
    hide TallyTo, RowsValid, PlanRefund, PutRefund, Admit, UniqueRefunds, After, Overbooks;
    hide ConfirmsPending, Misbooks, BooksFor, Confirms, Reserves;
    TallyAfter(books, e, q);
    OthersBounded(books, e, q);
    var captured, rest := books.payments[q].amount, Others(books, e, q);
    if ConfirmsPending(books, e, q) || Misbooks(books, e, q) {
      if Confirmed(books, q) <= captured {
        WaysToOverbook(books, e, q, rest.confirmed);
      }
      if Reserved(books, q) <= captured {
        WaysToOverbook(books, e, q, rest.reserved);
      }
    } else {
      NoOtherWay(books, e, q, rest.confirmed);
      NoOtherWay(books, e, q, rest.reserved);
      if BooksFor(books, e, q) {
        OtherwiseFits(books, e, q);
        CapturedIs(books, e, q);
      }
    }
  }

  lemma NoOtherWay(books: Books, e: Event, q: string, held: int)
    requires q in books.payments && !ConfirmsPending(books, e, q) && !Misbooks(books, e, q)
    ensures !Overbooks(books, e, q, held)
  {
  }

  lemma CapturedIs(books: Books, e: Event, q: string)
    requires q in books.payments && Admit(books, e).Success? && Admit(books, e).value.payment == q
    ensures Captured(books, Admit(books, e).value) == books.payments[q].amount
  {
  }

  lemma OthersBounded(books: Books, e: Event, q: string)
    requires RowsValid(books)
    ensures Others(books, e, q).confirmed <= Confirmed(books, q) && Others(books, e, q).reserved <= Reserved(books, q)
  {
    hide TallyTo;
    OthersAre(books, e, q);
  }

  /** Confirmed refunds come to exceed what was captured exactly at an event that overbooks the payment. */
  lemma ConfirmedExceedsExactly(books: Books, e: Event, q: string)
    requires RowsValid(books) && q in books.payments && Confirmed(books, q) <= books.payments[q].amount
    ensures books.payments[q].amount < Confirmed(After(books, e), q)
            <==> Overbooks(books, e, q, Others(books, e, q).confirmed)
  {
    hide *;
    ExceedsExactly(books, e, q);
  }

  /** The same for the refund headroom, pending refunds included. */
  lemma ReservedExceedsExactly(books: Books, e: Event, q: string)
    requires RowsValid(books) && q in books.payments && Reserved(books, q) <= books.payments[q].amount
    ensures books.payments[q].amount < Reserved(After(books, e), q)
            <==> Overbooks(books, e, q, Others(books, e, q).reserved)
  {
    hide *;
    ExceedsExactly(books, e, q);
  }

  /** A payment that the event creates starts within what it captured. */
  lemma NewPaymentIsWithin(books: Books, e: Event, q: string)
    requires RowsValid(books) && q !in books.payments && q in After(books, e).payments
    requires forall o :: o in books.orders ==> 0 <= books.orders[o].total
    ensures Confirmed(After(books, e), q) <= Reserved(After(books, e), q) <= After(books, e).payments[q].amount
  {
    hide TallyTo, PlanRefund, PutRefund, UniqueRefunds, BooksFor;
    NewPayment(books, e, q);
    TallyAfter(books, e, q);
    NoRows(books.refunds, q, None, |books.refunds|);
    if BooksFor(books, e, q) {
      NothingOfNew(books, e, q);
      OtherwiseFits(books, e, q);
    } else {
      ApplyKeepsRows(books, e);
      ConfirmsNotNegative(After(books, e), q);
    }
  }

  /** A new payment has the amount of its order or its event. */
  lemma NewPayment(books: Books, e: Event, q: string)
    requires q !in books.payments && q in After(books, e).payments
    ensures var r := Admit(books, e);
            && r.Success? && r.value.payment == q && Captured(books, r.value) == After(books, e).payments[q].amount
            && ((forall o :: o in books.orders ==> 0 <= books.orders[o].total) ==> 0 <= r.value.amount)
  {
    hide PlanRefund, PutRefund, PutOrder;
  }

  lemma NothingOfNew(books: Books, e: Event, q: string)
    requires RowsValid(books) && q !in books.payments
    ensures !ConfirmsPending(books, e, q) && !Misbooks(books, e, q)
  {
    hide Admit, TallyTo;
  }

  /**
   * Refund headroom: no event lets pending and succeeded refunds together
   * exceed what was captured, unless they did before, but the confirmation of
   * a pending refund and the booking of another payment's refund over one of
   * this payment.
   */
  lemma RefundsStayWithinCaptured(books: Books, e: Event, q: string)
    requires RowsValid(books) && !Upgrades(books, e) && !Misbooks(books, e, q) && q in After(books, e).payments
    ensures Reserved(After(books, e), q) <= Max(Reserved(books, q), After(books, e).payments[q].amount)
  {
    hide TallyTo, RowsValid, PlanRefund, PutRefund, Admit, UniqueRefunds, After, Upgrades, Misbooks, BooksFor;
    TallyAfter(books, e, q);
    if BooksFor(books, e, q) {
      OnlyUpgradesConfirm(books, e, q);
      OtherwiseFits(books, e, q);
      BookedAmount(books, e, q);
    }
  }

  lemma OnlyUpgradesConfirm(books: Books, e: Event, q: string)
    requires !Upgrades(books, e)
    ensures !ConfirmsPending(books, e, q)
  {
  }

  lemma BookedAmount(books: Books, e: Event, q: string)
    requires BooksFor(books, e, q) && Admit(books, e).value.payment == q && q in After(books, e).payments
    ensures After(books, e).payments[q].amount == Captured(books, Admit(books, e).value)
  {
    hide Admit, PlanRefund, PutRefund, PutOrder;
  }

  // ---- refunded, exactly ----

  /** A refund planned for the payment takes what was confirmed up to what was captured. */
  predicate Closes(books: Books, e: Event, q: string) {
    && e.kind.Refunding? && Admit(books, e).Success? && Admit(books, e).value.payment == q
    && var c := Admit(books, e).value; var plan := PlanRefund(books, e, c);
       plan.Planned? && Captured(books, c) <= Confirmed(books, q) + plan.amount
  }

  /** What the handler does: a payment becomes refunded exactly at an event that closes it, and stays so. */
  lemma ClosesExactly(books: Books, e: Event, q: string)
    requires RowsValid(books) && q in After(books, e).payments
    ensures After(books, e).payments[q].status.Refunded?
            <==> (q in books.payments && books.payments[q].status.Refunded?) || Closes(books, e, q)
    ensures q in books.payments ==> After(books, e).payments[q].amount == books.payments[q].amount
  {
    hide TallyTo, RowsValid, PlanRefund, PutRefund, PutOrder, Admit;
    if Admit(books, e).Success? && e.kind.Refunding? && PlanRefund(books, e, Admit(books, e).value).Planned? {
      PlannedAgainst(books, e, Admit(books, e).value);
    }
  }

  /**
   * The event parts the payment's status from its confirmed refunds: it closes
   * the payment over a refund that is another payment's or that was confirmed
   * already, or it moves this payment's confirmed refunds across what was
   * captured in the name of another payment.
   */
  predicate Splits(books: Books, e: Event, q: string) {
    && TakenId(books, e)
    && var row, c := TakenRow(books, e), Admit(books, e).value;
       var booked := AmountUnnamed(books, e, c);
       if c.payment == q then
         && Captured(books, c) <= Confirmed(books, q) + booked
         && (row.payment != q || 0 < Confirms(row, q, None))
       else
         && row.payment == q && q in books.payments
         && var captured := books.payments[q].amount;
            (captured <= Confirmed(books, q)) != (captured <= Confirmed(books, q) - Confirms(row, q, None) + booked)
  }

  lemma ConfirmsNotNegative(books: Books, q: string)
    requires RowsValid(books)
    ensures 0 <= Confirmed(books, q) <= Reserved(books, q)
    ensures forall i :: 0 <= i < |books.refunds| ==>
              0 <= Confirms(books.refunds[i], q, None)
                && (0 < Confirms(books.refunds[i], q, None) ==> books.refunds[i].payment == q)
  {
    hide TallyTo;
    AmountsValid(books);
    ConfirmedIsReserved(books.refunds, q, None, |books.refunds|);
  }

  /** With something left to refund, less than what was captured is confirmed. */
  lemma LeftIsUnconfirmed(books: Books, c: Context)
    requires RowsValid(books) && 0 < Headroom(books, c)
    ensures Confirmed(books, c.payment) < Captured(books, c) && 0 < Captured(books, c)
    ensures Confirmed(books, c.payment) + Headroom(books, c) <= Captured(books, c)
  {
    hide TallyTo;
    ConfirmsNotNegative(books, c.payment);
    if c.payment !in books.payments {
      NoRows(books.refunds, c.payment, None, |books.refunds|);
    }
  }

  /** What the confirmed total of a payment is after an event. */
  lemma ConfirmedAfter(books: Books, e: Event, q: string)
    requires RowsValid(books)
    ensures Confirmed(After(books, e), q)
            == if TakenId(books, e) then
                 var row, booked := TakenRow(books, e), AmountUnnamed(books, e, Admit(books, e).value);
                 Confirmed(books, q) + if row.payment == q then booked - Confirms(row, q, None) else 0
               else
                 var c := Admit(books, e);
                 if c.Success? && e.kind.Refunding? && c.value.payment == q && PlanRefund(books, e, c.value).Planned?
                 then Confirmed(books, q) + PlanRefund(books, e, c.value).amount else Confirmed(books, q)
  {
    hide TallyTo, RowsValid, PlanRefund, Admit, After, UniqueRefunds, Headroom;
    TallyAfter(books, e, q);
    RowsUnique(books);
    OthersAre(books, e, q);
    if e.kind.Refunding? && Admit(books, e).Success? {
      var c := Admit(books, e).value;
      if e.refund.None? {
        UnnamedPlan(books, e, c);
      } else if PlanRefund(books, e, c).Planned? {
        NamedRow(books, e, c);
      }
    }
  }

  lemma TakenPlan(books: Books, e: Event, q: string)
    requires TakenId(books, e)
    ensures var c := Admit(books, e).value; var plan := PlanRefund(books, e, c);
            && plan.Planned? && plan.amount == AmountUnnamed(books, e, c) && 0 <= plan.amount <= Headroom(books, c)
            && (Closes(books, e, q) <==> c.payment == q && Captured(books, c) <= Confirmed(books, q) + plan.amount)
  {
    hide TallyTo, PlanRefund, Admit, Headroom;
    UnnamedPlan(books, e, Admit(books, e).value);
  }

  lemma FoundRow(books: Books, e: Event)
    requires RowsValid(books) && TakenId(books, e)
    ensures var row := TakenRow(books, e);
            row.payment in books.payments && 0 <= Confirms(row, row.payment, None) <= Confirmed(books, row.payment)
  {
    hide TallyTo, Headroom, Admit;
    var q := TakenRow(books, e).payment;
    ConfirmsNotNegative(books, q);
    OthersAre(books, e, q);
    AmountsValid(books);
    ConfirmedIsReserved(books.refunds, q, Some(RefundId(e)), |books.refunds|);
  }

  lemma NoRowsOfNew(books: Books, q: string)
    requires RowsValid(books) && q !in books.payments
    ensures TallyOf(books.refunds, q, None) == Tally(0, 0, false)
  {
    NoRows(books.refunds, q, None, |books.refunds|);
  }

  /**
   * Where refunded meant what it should, it does so after the event exactly if
   * the event does not split the payment.
   */
  lemma TerminalExactly(books: Books, e: Event, q: string)
    requires RowsValid(books) && TerminalAt(books, q)
    ensures TerminalAt(After(books, e), q) <==> !Splits(books, e, q)
  {
    hide RowsValid;
    if q in books.payments {
      KnownTerminal(books, e, q);
    } else if q in After(books, e).payments {
      NewTerminal(books, e, q);
    } else {
      NeverTerminal(books, e, q);
    }
  }

  lemma KnownTerminal(books: Books, e: Event, q: string)
    requires RowsValid(books) && TerminalAt(books, q) && q in books.payments
    ensures TerminalAt(After(books, e), q) <==> !Splits(books, e, q)
  {
    hide TallyTo, RowsValid, PlanRefund, Admit, After, UniqueRefunds, Headroom, Confirms, TakenId, AmountUnnamed;
    ConfirmedAfter(books, e, q);
    ConfirmsNotNegative(books, q);
    PaymentsStay(books, e, q);
    ClosesExactly(books, e, q);
    if TakenId(books, e) {
      AdmittedTaken(books, e);
      TakenPlan(books, e, q);
      LeftIsUnconfirmed(books, Admit(books, e).value);
      FoundRow(books, e);
    } else if Closes(books, e, q)
      || (Admit(books, e).Success? && PlanRefund(books, e, Admit(books, e).value).Planned?) {
      PlannedRows(books, e, Admit(books, e).value);
    }
  }

  lemma NewTerminal(books: Books, e: Event, q: string)
    requires RowsValid(books) && q !in books.payments && q in After(books, e).payments
    ensures TerminalAt(After(books, e), q) <==> !Splits(books, e, q)
  {
    hide TallyTo, RowsValid, PlanRefund, Admit, After, UniqueRefunds, Headroom, Confirms, TakenId, AmountUnnamed;
    ConfirmedAfter(books, e, q);
    ClosesExactly(books, e, q);
    NoRowsOfNew(books, q);
    NewPayment(books, e, q);
    if TakenId(books, e) {
      AdmittedTaken(books, e);
      TakenPlan(books, e, q);
      LeftIsUnconfirmed(books, Admit(books, e).value);
      FoundRow(books, e);
    }
  }

  lemma NeverTerminal(books: Books, e: Event, q: string)
    requires RowsValid(books) && q !in books.payments && q !in After(books, e).payments
    ensures TerminalAt(After(books, e), q) && !Splits(books, e, q)
  {
    hide TallyTo, RowsValid, PlanRefund, Admit, After, UniqueRefunds, Headroom, Confirms, TakenId, AmountUnnamed;
    PaymentsStay(books, e, q);
    if TakenId(books, e) {
      AdmittedTaken(books, e);
      TakenPlan(books, e, q);
      FoundRow(books, e);
    }
  }

  lemma AdmittedTaken(books: Books, e: Event)
    requires TakenId(books, e)
    ensures e.kind.Refunding? && Admit(books, e).Success? && 0 < Headroom(books, Admit(books, e).value)
  {
    hide Admit, Headroom;
  }

  lemma PaymentsStay(books: Books, e: Event, q: string)
    ensures q in books.payments ==> q in After(books, e).payments
    ensures Admit(books, e).Success? && PlanRefund(books, e, Admit(books, e).value).Planned? && e.kind.Refunding?
            ==> Admit(books, e).value.payment in After(books, e).payments
  {
    hide Admit, PlanRefund, PutRefund, PutOrder;
  }

  // ---- every event keeps the rows valid, and the books unless it splits a payment ----

  lemma PutRefundValid(rows: seq<Refund>, id: string, payment: string, amount: int, payments: set<string>)
    requires UniqueRefunds(rows) && 0 <= amount && payment in payments
    requires forall i :: 0 <= i < |rows| ==> RowValid(rows[i]) && rows[i].payment in payments
    ensures var after := PutRefund(rows, id, payment, amount);
            UniqueRefunds(after) && forall i :: 0 <= i < |after| ==> RowValid(after[i]) && after[i].payment in payments
  {
  }

  /** In every state the rows are unique, belong to payments, and confirmed ones have an amount. */
  lemma ApplyKeepsRows(books: Books, e: Event)
    requires RowsValid(books)
    ensures RowsValid(After(books, e))
  {
    hide PlanRefund, PutRefund, PutOrder, Granted, Admit, TallyTo;
    if !e.kind.Refunding? {
      OnlyRefundsTouchRefunds(books, e);
      forall q | q in books.payments ensures q in After(books, e).payments {
        PaymentsStay(books, e, q);
      }
      hide After;
    } else if Admit(books, e).Success? {
      var c := Admit(books, e).value;
      match PlanRefund(books, e, c)
      case NothingLeft(rows) => NothingLeftRows(books, e, c);
      case Planned(rows, amount, full) =>
        PlannedRows(books, e, c);
        PutRefundValid(rows, RefundId(e), c.payment, amount, books.payments.Keys + {c.payment});
      case _ =>
    }
  }

  lemma ValidExactly(books: Books, e: Event)
    requires ValidBooks(books)
    ensures ValidBooks(After(books, e)) <==> forall q :: !Splits(books, e, q)
  {
    hide RowsValid, TerminalAt, Splits, After;
    ApplyKeepsRows(books, e);
    forall q ensures TerminalAt(After(books, e), q) <==> !Splits(books, e, q) {
      UnknownIsTerminal(books, q);
      TerminalExactly(books, e, q);
    }
    forall q ensures q !in After(books, e).payments ==> TerminalAt(After(books, e), q) {
      UnknownIsTerminal(After(books, e), q);
    }
  }

  lemma UnknownIsTerminal(books: Books, q: string)
    ensures q !in books.payments ==> TerminalAt(books, q)
  {
  }

  /** An event whose derived id is free splits nothing. */
  lemma ApplyKeepsValid(books: Books, e: Event)
    requires ValidBooks(books) && OwnFallback(books, e)
    ensures ValidBooks(After(books, e))
  {
    hide ValidBooks, After, Admit, Headroom, TallyTo;
    ValidExactly(books, e);
  }

  /** A payment that is not split closes at the very step at which its confirmed refunds reach what was captured. */
  lemma ClosesExactlyWhenConfirmed(books: Books, e: Event, q: string)
    requires RowsValid(books) && TerminalAt(books, q) && !Splits(books, e, q)
    requires q in books.payments && 0 < books.payments[q].amount
    ensures var after := After(books, e);
            && q in after.payments && after.payments[q].amount == books.payments[q].amount
            && (!books.payments[q].status.Refunded? ==>
                  (after.payments[q].status.Refunded?
                   <==> Confirmed(books, q) < books.payments[q].amount <= Confirmed(after, q)))
  {
    hide After, TallyTo, RowsValid, Splits, Closes;
    TerminalExactly(books, e, q);
    PaymentsStay(books, e, q);
    ClosesExactly(books, e, q);
  }
}
