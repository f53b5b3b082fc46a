/**
 * The statements of each credit transaction, run with nothing in between,
 * do to the account exactly what the service function does.
 */
module CreditAlone {
  import opened Wrappers
  import opened CreditSchema
  import opened CreditBuckets
  import opened CreditService
  import opened CreditBalances
  import opened CreditWalks
  import opened CreditStatements

  ghost predicate Whole(l: Ledger) {
    OneAccount(l) && Balanced(l)
  }

  lemma WholeParts(l: Ledger)
    requires Whole(l)
    ensures OneAccount(l) && Walkable(l) && WellFormed(l.buckets) && Bound(l.accounts, l.reservations)
    ensures |l.accounts| == 1
  {
  }

  lemma MovedIsUpdate(l: Ledger, available: int, reserved: int)
    requires OneAccount(l)
    ensures Moved(l, available, reserved).accounts
            == l.accounts[0 := l.accounts[0].(available := l.accounts[0].available + available,
                                              reserved := l.accounts[0].reserved + reserved)]
  {
  }

  // ---- spending ----

  /** ReadRows and Spend at the end of a body are one consumption. */
  lemma SpendAlone(body: seq<Statement>, pc: nat, local: Local, l: Ledger)
    requires pc + 2 == |body| && body[pc].ReadRows? && body[pc + 1].Spend? && OneAccount(l) && WellFormed(l.buckets)
    requires 0 < body[pc].amount
    requires (body[pc + 1].rows.Spendable? || body[pc + 1].rows.Settleable?) && body[pc + 1].rows.account == 0
    ensures match Consume(l.buckets, body[pc + 1].rows, 0, body[pc].amount)
            case None => Finish(body, pc, local, Some(l)).flow == Throws
            case Some(buckets) => Finish(body, pc, local, Some(l)) == End(Next, Some(l.(buckets := buckets)))
  {
    hide WellFormed, Consume;
    var amount := body[pc].amount;
    FinishStep(body, pc, local, Some(l));
    SpendLoop(body, pc + 1, Local(l.buckets, 0, amount), l, l.buckets, amount);
  }

  /** What a debit leaves of the account's rows, if it goes through. */
  function Debited(l: Ledger, amount: int, now: Time): Option<Ledger>
    requires OneAccount(l)
  {
    if l.accounts[0].available < amount then None
    else
      match Consume(l.buckets, Spendable(0, now), 0, amount)
      case None => None
      case Some(buckets) => Some(Moved(l, -amount, 0).(buckets := buckets))
  }

  lemma DebitedIsDebit(l: Ledger, scope: Scope, d: DebitInput, now: Time)
    requires OneAccount(l) && PositiveAmount(d.amount)
    requires FindAccount(l.accounts, scope, d.customer, d.creditType) == Some(0)
    ensures var done := Debit(l, scope, d, now);
            Debited(l, d.amount, now) == if done.outcome.Success? then Some(Unlogged(done.ledger)) else None
  {
    hide Consume, FindAccount;
    MovedIsUpdate(l, -d.amount, 0);
  }

  lemma DebitBodyAlone(l: Ledger, amount: int, now: Time)
    requires OneAccount(l) && WellFormed(l.buckets) && 0 < amount
    ensures var end := Alone(DebitBody(amount, now), Some(l));
            match Debited(l, amount, now)
            case Some(after) => end == End(Next, Some(after))
            case None => end.flow == Throws
  {
    hide WellFormed, Consume, Finish, SpendOne, ExpireOne, InsertRow, LockReservation;
    var body := DebitBody(amount, now);
    FinishStep(body, 0, NOTHING_READ, Some(l));
    if amount <= l.accounts[0].available {
      SpendAlone(body, 1, NOTHING_READ, Moved(l, -amount, 0));
    }
  }

  lemma DebitAlone(l: Ledger, scope: Scope, d: DebitInput, now: Time)
    requires Whole(l) && PositiveAmount(d.amount) && FindAccount(l.accounts, scope, d.customer, d.creditType) == Some(0)
    ensures var done := Debit(l, scope, d, now); var end := Alone(DebitBody(d.amount, now), Some(l));
            if done.outcome.Success? then end == End(Next, Some(Unlogged(done.ledger))) else end.flow == Throws
  {
    WholeParts(l);
    DebitedIsDebit(l, scope, d, now);
    DebitBodyAlone(l, d.amount, now);
    hide *;
  }

  // ---- settling ----

  /** The reservation row and its account, as capture and release change them. */
  function Settled(l: Ledger, id: nat, into: ReservationStatus, amount: int, captured: int): Ledger
    requires OneAccount(l) && id < |l.reservations|
  {
    var v := l.reservations[id];
    var settled := v.(status := into, captured := captured);
    Moved(l, v.amount - amount, -v.amount).(reservations := l.reservations[id := settled])
  }

  /** The three statements that capture and release begin with. */
  lemma SettleAlone(body: seq<Statement>, l: Ledger)
    requires 3 <= |body| && body[0].Claim? && body[1].SettleBalance? && body[2].SettleRow? && OneAccount(l)
    requires body[0].id == body[1].id == body[2].id && body[0].amount == body[1].amount && body[0].into == body[2].into
    ensures var claim := LockReservation(l, body[0].scope, body[0].id);
            var end := Finish(body, 0, NOTHING_READ, Some(l));
            if claim.Refused? then end.flow == Throws
            else if claim.row.status == body[0].into then end == End(Over, Some(l))
            else if !claim.row.status.Open? || claim.row.amount < body[0].amount
              || l.accounts[0].reserved < claim.row.amount then end.flow == Throws
            else
              var captured := if body[2].captured.Some? then body[2].captured.value else claim.row.captured;
              end == Finish(body, 3, NOTHING_READ, Some(Settled(l, body[0].id, body[0].into, body[0].amount, captured)))
  {
    hide Finish;
    FinishStep(body, 0, NOTHING_READ, Some(l));
    var claim := LockReservation(l, body[0].scope, body[0].id);
    if claim.Held? {
      FinishStep(body, 1, NOTHING_READ, Some(l));
      if claim.row.amount <= l.accounts[0].reserved {
        FinishStep(body, 2, NOTHING_READ, Some(Moved(l, claim.row.amount - body[0].amount, -claim.row.amount)));
      }
    }
  }

  /** Past the checks on the reservation a capture settles the row and consumes the amount, or fails. */
  lemma CaptureBooks(l: Ledger, scope: Scope, id: nat, amount: int, key: string)
    requires OneAccount(l) && Bound(l.accounts, l.reservations) && PositiveAmount(amount)
    requires LockReservation(l, scope, id).Held?
    requires var v := l.reservations[id]; v.status.Open? && amount <= v.amount <= l.accounts[0].reserved
    ensures var done := Capture(l, scope, id, amount, key); var settled := Settled(l, id, Captured, amount, amount);
            match Consume(l.buckets, Settleable(0), 0, amount)
            case None => done.outcome.Failure? && done.ledger == l
            case Some(buckets) =>
              done.outcome == Success(Receipt.Settled(id, 0)) && Unlogged(done.ledger) == settled.(buckets := buckets)
  {
    hide Consume;
    MovedIsUpdate(l, l.reservations[id].amount - amount, -l.reservations[id].amount);
  }

  lemma CaptureAlone(l: Ledger, scope: Scope, id: nat, amount: int, key: string)
    requires Whole(l) && PositiveAmount(amount)
    ensures var done := Capture(l, scope, id, amount, key); var end := Alone(CaptureBody(scope, id, amount), Some(l));
            match done.outcome
            case Success(Settled(_, _)) => end == End(Next, Some(Unlogged(done.ledger)))
            case Success(_) => end == End(Over, Some(l)) && done.ledger == l
            case Failure(_) => end.flow == Throws && done.ledger == l
  {
    WholeParts(l);
    var body := CaptureBody(scope, id, amount);
    SettleAlone(body, l);
    var claim := LockReservation(l, scope, id);
    if claim.Held? && claim.row.status.Open? && amount <= claim.row.amount <= l.accounts[0].reserved {
      hide Balanced, WellFormed, Consume, Finish, Capture;
      CaptureBooks(l, scope, id, amount, key);
      SpendAlone(body, 3, NOTHING_READ, Settled(l, id, Captured, amount, amount));
    } else {
      hide Balanced, WellFormed, Consume, Finish;
    }
  }

  lemma ReleaseAlone(l: Ledger, scope: Scope, id: nat, key: string)
    requires Whole(l)
    ensures var done := Release(l, scope, id, key); var end := Alone(ReleaseBody(scope, id), Some(l));
            match done.outcome
            case Success(Settled(_, _)) => end == End(Next, Some(Unlogged(done.ledger)))
            case Success(_) => end == End(Over, Some(l)) && done.ledger == l
            case Failure(_) => end.flow == Throws && done.ledger == l
  {
    WholeParts(l);
    assert Reservable(l.reservations);
    hide Balanced, WellFormed, Finish;
    var body := ReleaseBody(scope, id);
    SettleAlone(body, l);
    var claim := LockReservation(l, scope, id);
    if claim.Held? {
      MovedIsUpdate(l, claim.row.amount, -claim.row.amount);
      FinishEnds(body, Settled(l, id, Released, 0, claim.row.captured));
    }
  }

  lemma FinishEnds(body: seq<Statement>, l: Ledger)
    ensures Finish(body, |body|, NOTHING_READ, Some(l)) == End(Next, Some(l))
  {
  }

  // ---- reserving and granting ----

  /** The end of a reservation, once the account's expiry is done. */
  lemma HoldAlone(r: ReserveInput, now: Time, clean: Ledger)
    requires OneAccount(clean)
    ensures Finish(ReserveBody(r, now), 2, NOTHING_READ, Some(clean))
            == if clean.accounts[0].available < r.amount then End(Over, Some(clean))
               else End(Next, Some(Unlogged(BookReservation(clean, clean.accounts[0].scope, r, 0))))
  {
    hide Finish, SpendOne, ExpireOne, InsertRow, LockReservation;
    var body := ReserveBody(r, now);
    FinishStep(body, 2, NOTHING_READ, Some(clean));
    if r.amount <= clean.accounts[0].available {
      MovedIsUpdate(clean, -r.amount, r.amount);
      FinishStep(body, 3, NOTHING_READ, Some(Moved(clean, -r.amount, r.amount)));
      FinishEnds(body, Unlogged(BookReservation(clean, clean.accounts[0].scope, r, 0)));
    }
  }

  lemma ExpiryKeepsOneAccount(l: Ledger, now: Time)
    requires OneAccount(l) && Walkable(l)
    ensures var clean := Unlogged(ExpireAccount(l, 0, now));
            OneAccount(clean) && clean.accounts[0].scope == l.accounts[0].scope && clean.reservations == l.reservations
  {
  }

  lemma ReserveAlone(l: Ledger, r: ReserveInput, now: Time)
    requires Whole(l)
    ensures var clean := Unlogged(ExpireAccount(l, 0, now));
            Alone(ReserveBody(r, now), Some(l))
            == if clean.accounts[0].available < r.amount then End(Over, Some(clean))
               else End(Next, Some(Unlogged(BookReservation(clean, l.accounts[0].scope, r, 0))))
  {
    WholeParts(l);
    ExpiryKeepsOneAccount(l, now);
    HoldAlone(r, now, Unlogged(ExpireAccount(l, 0, now)));
    assert Unlogged(Walk(l, DueIn(l.accounts[0].scope, 0, now), Expiry, 0)) == l;
    hide Balanced, WellFormed, Finish, Retire, Walkable, SpendOne, ExpireOne, InsertRow, LockReservation;
    var body := ReserveBody(r, now);
    FinishStep(body, 0, NOTHING_READ, Some(l));
    ExpireLoop(body, 1, Local(l.buckets, 0, 0), l);
  }

  /** The grant with the account's own name. */
  function Named(g: GrantInput, account: Account): GrantInput {
    g.(customer := account.customer, creditType := account.creditType)
  }

  /** A grant opens the account if there is none; otherwise the account row says whose it is. */
  lemma GrantAlone(rows: Option<Ledger>, owner: Account, g: GrantInput, now: Time)
    requires rows.Some? ==> OneAccount(rows.value)
    ensures var l := if rows.Some? then rows.value else EMPTY_LEDGER;
            var account := if rows.Some? then rows.value.accounts[0] else owner;
            Alone(GrantBody(owner, g, now), rows)
            == End(Next, Some(Unlogged(BookGrant(l, account.scope, Named(g, account), now))))
  {
    hide Finish, InsertRow, SpendOne, ExpireOne, LockReservation;
    var l := if rows.Some? then rows.value else EMPTY_LEDGER;
    var body := GrantBody(owner, g, now);
    FinishStep(body, 0, NOTHING_READ, rows);
    var credited := Moved(Owned(rows, owner), g.amount, 0);
    var account := credited.accounts[0];
    FinishStep(body, 1, NOTHING_READ, Some(credited));
    FinishEnds(body, credited.(buckets := InsertRow(credited.buckets, NewBucket(credited, account.scope, 0, g, now))));
    assert BookGrant(l, account.scope, Named(g, account), now).accounts == credited.accounts;
  }
}
