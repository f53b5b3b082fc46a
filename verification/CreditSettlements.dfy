/**
 * What the caller of a reserve, a capture or a release gets, in plain terms:
 * what is held, settled or given back, under which key and scope it is
 * refused, what asking again does, and what a settled reservation can still
 * move.
 */
module CreditSettlements {
  import opened Wrappers
  import opened CreditSchema
  import opened CreditBuckets
  import opened CreditService
  import opened CreditBalances
  import opened CreditLog
  import opened CreditReplay
  import opened CreditRuns
  import opened CreditExpiry
  import opened CreditLapses
  import opened CreditAnswers

  // ---- reserve ----

  /** No reservation has the key. */
  ghost predicate IsNewReservation(rows: seq<Reservation>, scope: Scope, key: string) {
    forall v :: 0 <= v < |rows| ==> !(rows[v].scope == scope && rows[v].key == key)
  }

  /** The same request, but for the credit type. */
  predicate Asks(row: Reservation, r: ReserveInput) {
    && row.customer == r.customer && row.amount == r.amount
    && row.referenceType == r.referenceType && row.referenceId == r.referenceId
  }

  /**
   * What a reservation leaves: what was due on the account is expired, the
   * amount is moved from available to reserved, one open row holds it, and one
   * entry after those of the expiry says so. Nothing else changes.
   */
  ghost predicate Holds(l: Ledger, after: Ledger, scope: Scope, r: ReserveInput, now: Time, a: nat) {
    && a < |l.accounts| && |l.log| < |after.log| && |after.buckets| == |l.buckets|
    && var due := DueTo(l.buckets, a, now, |l.buckets|);
       var left := Max(0, l.accounts[a].available - due) - r.amount; var held := l.accounts[a].reserved + r.amount;
       var last := |after.log| - 1;
       && after.accounts == l.accounts[a := l.accounts[a].(available := left, reserved := held)]
       && after.reservations
          == l.reservations
             + [Reservation(scope, r.customer, a, r.amount, 0, Open, r.referenceType, r.referenceId, r.key)]
       && after.log[last]
          == Entry(scope, r.customer, a, ReserveUsage, -r.amount, left, held, "reservation",
                   ReservationSource(|l.reservations|), ClientKey(r.key), None)
       && LogTells(l, after.(log := after.log[..last]), Expiry)
       && (forall i :: 0 <= i < |l.buckets| ==>
             var b := l.buckets[i];
             || after.buckets[i] == b
             || (&& b.account == a && b.expiresAt.Some? && b.expiresAt.value <= now
                 && GaveUp(b, after.buckets[i], BucketStatus.Expired)))
       && ActiveSum(after.buckets, a) == ActiveSum(l.buckets, a) - Min(l.accounts[a].available, due)
  }

  lemma LogTellsOf(l: Ledger, x: Ledger, y: Ledger, why: Retirement)
    requires LogTells(l, x, why) && y.log == x.log && y.buckets == x.buckets
    ensures LogTells(l, y, why)
  {
    forall k | |l.log| <= k < |y.log| ensures TellsOfSome(l, y, why, y.log[k]) {
      assert TellsOfSome(l, x, why, x.log[k]);
      var i: nat :| TellsOfRow(l, x, why, x.log[k], i);
      assert TellsOfRow(l, y, why, y.log[k], i);
    }
  }

  lemma BookedHolds(l: Ledger, scope: Scope, r: ReserveInput, now: Time, a: nat)
    requires Balanced(l) && a < |l.accounts| && l.accounts[a].scope == scope
    ensures Holds(l, BookReservation(ExpireAccount(l, a, now), scope, r, a), scope, r, now, a)
  {
    hide Balanced, LogTells, DueTo, Retire, SumTo, GaveUp, ActiveSum, Walkable;
    BalancedParts(l);
    ExpiryGives(l, a, now);
    var clean := ExpireAccount(l, a, now);
    var after := BookReservation(clean, scope, r, a);
    LogTellsPrefix(l, clean);
    assert after.log[..|after.log| - 1] == clean.log;
    LogTellsOf(l, clean, after.(log := after.log[..|after.log| - 1]), Expiry);
  }

  lemma LogTellsPrefix(l: Ledger, after: Ledger)
    requires LogTells(l, after, Expiry)
    ensures l.log <= after.log
  {
  }

  /**
   * A reservation under a new key goes through exactly when its amount is
   * positive, what is available after the account's expiry covers it, and the
   * log does not use the key; then it holds the amount. Too little credit
   * leaves the expiry, everything else leaves nothing.
   */
  lemma ReserveGives(l: Ledger, scope: Scope, r: ReserveInput, now: Time)
    requires Balanced(l) && IsNewReservation(l.reservations, scope, r.key)
    ensures Walkable(l)
    ensures var done := Reserve(l, scope, r, now); var a := FindAccount(l.accounts, scope, r.customer, r.creditType);
            if !(0 < r.amount <= 9007199254740991) then done == Done(l, Failure(InvalidAmount))
            else if a.None? then done == Done(l, Failure(InsufficientCredits))
            else if Max(0, l.accounts[a.value].available - DueTo(l.buckets, a.value, now, |l.buckets|)) < r.amount
              then done == Done(ExpireAccount(l, a.value, now), Failure(InsufficientCredits))
            else if !IsNew(l.log, scope, ClientKey(r.key)) then done == Done(l, Failure(UniqueViolation))
            else done.outcome == Success(Reserved(|l.reservations|)) && Holds(l, done.ledger, scope, r, now, a.value)
  {
    hide Balanced, Holds, DueTo, ExpireAccount, FindEntry, FindAccount, BookReservation, LogTells, GaveUp, SumTo;
    hide Walkable, ActiveSum, IsNew;
    BalancedParts(l);
    var found := FindAccount(l.accounts, scope, r.customer, r.creditType);
    if found.Some? {
      var a := found.value;
      ExpiryGives(l, a, now);
      KeyAfterExpiry(l, a, now, scope, r.key);
      BookedHolds(l, scope, r, now, a);
    }
  }

  lemma KeyAfterExpiry(l: Ledger, a: nat, now: Time, scope: Scope, key: string)
    requires Balanced(l) && a < |l.accounts|
    ensures FindEntry(ExpireAccount(l, a, now).log, scope, ClientKey(key)).None?
            <==> IsNew(l.log, scope, ClientKey(key))
  {
    BalancedParts(l);
    hide Balanced, RetirementEntries, Walkable;
    var rows := DueIn(l.accounts[a].scope, a, now);
    if FindEntry(l.log, scope, ClientKey(key)).None? {
      StageKeysAreNotClientKeys(l, rows, Expiry, |l.buckets|, scope, key);
    } else {
      var e := FindEntry(l.log, scope, ClientKey(key)).value;
      assert ExpireAccount(l, a, now).log[e] == l.log[e];
    }
  }

  /** What a reservation finds when its key has a row: the same request is answered with it, any other is refused. */
  lemma ReserveFinds(l: Ledger, scope: Scope, r: ReserveInput, now: Time, v: nat)
    requires Walkable(l) && FindReservation(l.reservations, scope, r.key) == Some(v) && v < |l.reservations|
    ensures Reserve(l, scope, r, now)
            == Done(l, if !(0 < r.amount <= 9007199254740991) then Failure(InvalidAmount)
                       else if Asks(l.reservations[v], r) then Success(ReservedBefore(v))
                       else Failure(IdempotencyConflict))
  {
    hide Walkable, FindReservation;
  }

  lemma {:induction false} FindUpdated(rows: seq<Reservation>, id: nat, row: Reservation, scope: Scope, key: string)
    requires id < |rows| && row.scope == rows[id].scope && row.key == rows[id].key
    ensures FindReservation(rows[id := row], scope, key) == FindReservation(rows, scope, key)
  {
    var last := |rows| - 1;
    if id < last {
      assert rows[id := row][..last] == rows[..last][id := row];
      FindUpdated(rows[..last], id, row, scope, key);
    } else {
      assert rows[id := row][..last] == rows[..last];
    }
  }

  lemma FindAppended(rows: seq<Reservation>, row: Reservation, scope: Scope, key: string)
    ensures FindReservation(rows + [row], scope, key)
            == if row.scope == scope && row.key == key then Some(|rows|) else FindReservation(rows, scope, key)
  {
    assert (rows + [row])[..|rows|] == rows;
  }

  /** No operation takes a reservation's key from it. */
  lemma StepKeepsFound(l: Ledger, op: Op, scope: Scope, key: string, v: nat)
    requires Sound(l) && FindReservation(l.reservations, scope, key) == Some(v)
    ensures FindReservation(Step(l, op).reservations, scope, key) == Some(v)
  {
    match op
    case DoReserve(s, r, now) => ReserveKeepsFound(l, s, r, now, scope, key, v);
    case DoCapture(s, id, amount, k) => CaptureKeepsFound(l, s, id, amount, k, scope, key);
    case DoRelease(s, id, k) => ReleaseKeepsFound(l, s, id, k, scope, key);
    case _ => OthersKeepReservations(l, op);
  }

  lemma OthersKeepReservations(l: Ledger, op: Op)
    requires Sound(l) && !op.DoReserve? && !op.DoCapture? && !op.DoRelease?
    ensures Step(l, op).reservations == l.reservations
  {
    hide Keyed, Replays, Consume, FindEntry, InsertRow, FindAccount, RetirementEntries, RetiredAccounts, Drawn;
  }

  lemma ReserveKeepsFound(l: Ledger, s: Scope, r: ReserveInput, now: Time, scope: Scope, key: string, v: nat)
    requires Walkable(l) && FindReservation(l.reservations, scope, key) == Some(v)
    ensures FindReservation(Reserve(l, s, r, now).ledger.reservations, scope, key) == Some(v)
  {
    hide Walkable, FindEntry, FindAccount, FindReservation, RetirementEntries, RetiredAccounts, Drawn;
    FindAppended(l.reservations, NewRow(l, s, r), scope, key);
    var found := FindAccount(l.accounts, s, r.customer, r.creditType);
    if found.Some? {
      FindAppended(l.reservations, NewRow(l, s, r).(account := found.value), scope, key);
    }
  }

  function NewRow(l: Ledger, scope: Scope, r: ReserveInput): Reservation {
    Reservation(scope, r.customer, 0, r.amount, 0, Open, r.referenceType, r.referenceId, r.key)
  }

  lemma CaptureKeepsFound(l: Ledger, s: Scope, id: nat, amount: int, k: string, scope: Scope, key: string)
    requires Bound(l.accounts, l.reservations)
    ensures FindReservation(Capture(l, s, id, amount, k).ledger.reservations, scope, key)
            == FindReservation(l.reservations, scope, key)
  {
    hide FindReservation, FindEntry, Consume;
    if id < |l.reservations| {
      FindUpdated(l.reservations, id, l.reservations[id].(status := Captured, captured := amount), scope, key);
    }
  }

  lemma ReleaseKeepsFound(l: Ledger, s: Scope, id: nat, k: string, scope: Scope, key: string)
    requires Bound(l.accounts, l.reservations)
    ensures FindReservation(Release(l, s, id, k).ledger.reservations, scope, key)
            == FindReservation(l.reservations, scope, key)
  {
    hide FindReservation, FindEntry;
    if id < |l.reservations| {
      FindUpdated(l.reservations, id, l.reservations[id].(status := Released), scope, key);
    }
  }

  lemma {:induction false} RunKeepsFound(l: Ledger, ops: seq<Op>, scope: Scope, key: string, v: nat)
    requires Sound(l) && FindReservation(l.reservations, scope, key) == Some(v)
    ensures FindReservation(Run(l, ops).reservations, scope, key) == Some(v)
    decreases |ops|
  {
    if ops != [] {
      StepIsSound(l, ops[0]);
      StepKeepsFound(l, ops[0], scope, key, v);
      hide Keyed, Replays, Step, FindReservation;
      RunKeepsFound(Step(l, ops[0]), ops[1..], scope, key, v);
    }
  }

  lemma ReservedRow(l: Ledger, scope: Scope, r: ReserveInput, now: Time)
    requires Sound(l) && Reserve(l, scope, r, now).outcome.Success?
    ensures var booked := Reserve(l, scope, r, now);
            && (booked.outcome.value.Reserved? || booked.outcome.value.ReservedBefore?)
            && var v := booked.outcome.value.reservation;
               && FindReservation(booked.ledger.reservations, scope, r.key) == Some(v)
               && v < |booked.ledger.reservations| && Asks(booked.ledger.reservations[v], r)
  {
    hide Keyed, Replays, FindEntry, FindAccount, FindReservation, RetirementEntries, RetiredAccounts, Drawn;
    var found := FindAccount(l.accounts, scope, r.customer, r.creditType);
    if found.Some? {
      FindAppended(l.reservations, NewRow(l, scope, r).(account := found.value), scope, r.key);
    }
  }

  /**
   * A reservation that went through is answered with its row for ever after,
   * whatever became of it, and anything else asked for under its key is
   * refused. Neither holds anything. (The credit type is not compared.)
   */
  lemma ReserveAnsweredOnce(l: Ledger, scope: Scope, r: ReserveInput, now: Time, ops: seq<Op>, again: ReserveInput,
                            later: Time)
    requires Sound(l) && Reserve(l, scope, r, now).outcome.Success? && again.key == r.key
    ensures Sound(Reserve(l, scope, r, now).ledger)
    ensures var booked := Reserve(l, scope, r, now); var after := Run(booked.ledger, ops);
            && (booked.outcome.value.Reserved? || booked.outcome.value.ReservedBefore?)
            && var v := booked.outcome.value.reservation;
               && v < |after.reservations| && Asks(after.reservations[v], r)
               && Reserve(after, scope, again, later)
                  == if again.(creditType := r.creditType) == r then Done(after, Success(ReservedBefore(v)))
                     else Done(after, Failure(if 0 < again.amount <= 9007199254740991 then IdempotencyConflict
                                              else InvalidAmount))
  {
    StepIsSound(l, DoReserve(scope, r, now));
    ReservedRow(l, scope, r, now);
    ReserveAmount(l, scope, r, now);
    var booked := Reserve(l, scope, r, now);
    var v := booked.outcome.value.reservation;
    RunKeepsFound(booked.ledger, ops, scope, r.key, v);
    ReservationsSettleOnce(booked.ledger, ops);
    hide Run, Reserve, FindReservation, Keyed, Replays;
    assert RowFollows(booked.ledger.reservations[v], Run(booked.ledger, ops).reservations[v]);
    ReserveFinds(Run(booked.ledger, ops), scope, again, later, v);
  }

  lemma ReserveAmount(l: Ledger, scope: Scope, r: ReserveInput, now: Time)
    requires Walkable(l) && Reserve(l, scope, r, now).outcome.Success?
    ensures 0 < r.amount <= 9007199254740991
  {
    hide Walkable, FindEntry, FindAccount, FindReservation, Retire;
  }

  // ---- capture and release ----

  /** The reservation does not exist for the application. */
  predicate Unknown(l: Ledger, scope: Scope, id: nat) {
    |l.reservations| <= id || l.reservations[id].scope.application != scope.application
  }

  /** It exists, but in the other environment. */
  predicate Elsewhere(l: Ledger, scope: Scope, id: nat) {
    && id < |l.reservations| && l.reservations[id].scope.application == scope.application
    && l.reservations[id].scope.environment != scope.environment
  }

  /** The one account, row and entry a settlement changes. */
  ghost predicate Settles(l: Ledger, after: Ledger, scope: Scope, id: nat, row: Reservation, given: int,
                          kind: EntryType, amount: int, key: string) {
    && id < |l.reservations| && l.reservations[id].account < |l.accounts|
    && var v := l.reservations[id]; var account := l.accounts[v.account];
       && after.accounts == l.accounts[v.account := account.(available := account.available + given,
                                                             reserved := account.reserved - v.amount)]
       && after.reservations == l.reservations[id := row]
       && after.log
          == l.log + [Entry(scope, v.customer, v.account, kind, amount, account.available + given,
                            account.reserved - v.amount, "reservation", ReservationSource(id), ClientKey(key), None)]
  }

  /** A capture takes its amount from active rows of the account, whatever their expiry. */
  ghost predicate TakesFromRows(before: seq<Bucket>, after: seq<Bucket>, a: nat, amount: int, accounts: nat) {
    && |after| == |before|
    && (forall i :: 0 <= i < |before| ==>
          after[i] == before[i] || (before[i].account == a && GaveUp(before[i], after[i], Consumed)))
    && (forall c :: 0 <= c < accounts ==> ActiveSum(after, c) == ActiveSum(before, c) - if c == a then amount else 0)
  }

  lemma SpentFromAccount(before: seq<Bucket>, after: seq<Bucket>, a: nat, amount: int, accounts: nat)
    requires Spends(before, after, Settleable(a), a, amount, accounts)
    ensures TakesFromRows(before, after, a, amount, accounts)
  {
    hide GaveUp, ActiveSum;
  }

  lemma CaptureTakes(l: Ledger, scope: Scope, id: nat, amount: int, key: string)
    requires Balanced(l) && Capture(l, scope, id, amount, key).outcome == Success(Settled(id, |l.log|))
    ensures id < |l.reservations|
    ensures var after := Capture(l, scope, id, amount, key).ledger; var v := l.reservations[id];
            && Settles(l, after, scope, id, v.(status := Captured, captured := amount), v.amount - amount,
                       CaptureUsage, -amount, key)
            && TakesFromRows(l.buckets, after.buckets, v.account, amount, |l.accounts|)
  {
    hide Balanced, FindEntry, SumTo, Drawn, Spends, TakesFromRows;
    BoundParts(l);
    var a := l.reservations[id].account;
    ConsumeSpends(l, Settleable(a), a, amount);
    SpentFromAccount(l.buckets, Drawn(l.buckets, Settleable(a), Fixed(amount), Consumed), a, amount, |l.accounts|);
  }

  /**
   * A capture under a new key: refused exactly when the amount is not
   * positive, the reservation is unknown or in the other environment, settled
   * otherwise, or smaller; answered with the row when it is captured already;
   * and otherwise it settles. Only then does anything change.
   */
  lemma CaptureGives(l: Ledger, scope: Scope, id: nat, amount: int, key: string)
    requires Balanced(l) && IsNew(l.log, scope, ClientKey(key))
    ensures Bound(l.accounts, l.reservations)
    ensures var done := Capture(l, scope, id, amount, key);
            && (done.outcome == Failure(InvalidAmount) <==> !(0 < amount <= 9007199254740991))
            && (0 < amount <= 9007199254740991 ==>
                  && (done.outcome == Failure(ReservationNotFound) <==> Unknown(l, scope, id))
                  && (done.outcome == Failure(EnvironmentMismatch) <==> Elsewhere(l, scope, id))
                  && (!Unknown(l, scope, id) && !Elsewhere(l, scope, id) ==>
                        var v := l.reservations[id];
                        done.outcome
                        == if v.status == Captured then Success(SettledBefore(id))
                           else if v.status != Open then Failure(TerminalState)
                           else if v.amount < amount then Failure(CaptureExceedsReserved)
                           else Success(Settled(id, |l.log|))))
            && (if done.outcome == Success(Settled(id, |l.log|)) then
                  && id < |l.reservations|
                  && var v := l.reservations[id];
                     && Settles(l, done.ledger, scope, id, v.(status := Captured, captured := amount),
                                v.amount - amount, CaptureUsage, -amount, key)
                     && TakesFromRows(l.buckets, done.ledger.buckets, v.account, amount, |l.accounts|)
                else done.ledger == l)
  {
    BoundParts(l);
    hide Balanced, Settles, TakesFromRows, FindEntry, SumTo, Drawn, BookCapture;
    if id < |l.reservations| && l.reservations[id].status.Open? {
      OpenIsReserved(l, id);
    }
    if Capture(l, scope, id, amount, key).outcome == Success(Settled(id, |l.log|)) {
      CaptureTakes(l, scope, id, amount, key);
    }
  }

  lemma BoundParts(l: Ledger)
    requires Balanced(l)
    ensures Bound(l.accounts, l.reservations) && Reservable(l.reservations)
  {
  }

  /** A release under a new key, likewise: what it settles goes back to available, and no row gives anything up. */
  lemma ReleaseGives(l: Ledger, scope: Scope, id: nat, key: string)
    requires Balanced(l) && IsNew(l.log, scope, ClientKey(key))
    ensures Bound(l.accounts, l.reservations)
    ensures var done := Release(l, scope, id, key);
            && (done.outcome == Failure(ReservationNotFound) <==> Unknown(l, scope, id))
            && (done.outcome == Failure(EnvironmentMismatch) <==> Elsewhere(l, scope, id))
            && (!Unknown(l, scope, id) && !Elsewhere(l, scope, id) ==>
                  var v := l.reservations[id];
                  done.outcome
                  == if v.status == Released then Success(SettledBefore(id))
                     else if v.status != Open then Failure(TerminalState)
                     else Success(Settled(id, |l.log|)))
            && (if done.outcome == Success(Settled(id, |l.log|)) then
                  && id < |l.reservations| && done.ledger.buckets == l.buckets
                  && var v := l.reservations[id];
                     Settles(l, done.ledger, scope, id, v.(status := Released), v.amount, ReleaseUsage, v.amount, key)
                else done.ledger == l)
  {
    BoundParts(l);
    hide Balanced, FindEntry, SumTo;
    if id < |l.reservations| && l.reservations[id].status.Open? {
      OpenIsReserved(l, id);
    }
  }

  /** The entry of the same capture. */
  predicate Captures(e: Entry, id: nat, amount: int) {
    e.kind == CaptureUsage && e.source == ReservationSource(id) && e.amount == -amount
  }

  predicate Releases(e: Entry, id: nat) {
    e.kind == ReleaseUsage && e.source == ReservationSource(id)
  }

  /** What a capture finds when its key has an entry: its own replays, any other is a conflict, and nothing changes. */
  lemma CaptureFinds(l: Ledger, scope: Scope, id: nat, amount: int, key: string, e: nat)
    requires Bound(l.accounts, l.reservations) && UniqueKeys(l.log)
    requires e < |l.log| && l.log[e].scope == scope && l.log[e].key == ClientKey(key)
    ensures Capture(l, scope, id, amount, key)
            == Done(l, if !(0 < amount <= 9007199254740991) then Failure(InvalidAmount)
                       else if Captures(l.log[e], id, amount) then Success(Replayed(e))
                       else Failure(IdempotencyConflict))
  {
    FoundByItsKey(l.log, e);
    hide UniqueKeys, FindEntry, Consume;
  }

  lemma ReleaseFinds(l: Ledger, scope: Scope, id: nat, key: string, e: nat)
    requires Bound(l.accounts, l.reservations) && UniqueKeys(l.log)
    requires e < |l.log| && l.log[e].scope == scope && l.log[e].key == ClientKey(key)
    ensures Release(l, scope, id, key)
            == Done(l, if Releases(l.log[e], id) then Success(Replayed(e)) else Failure(IdempotencyConflict))
  {
    FoundByItsKey(l.log, e);
    hide UniqueKeys, FindEntry;
  }

  lemma CapturedEntry(l: Ledger, scope: Scope, id: nat, amount: int, key: string)
    requires Bound(l.accounts, l.reservations)
    requires var o := Capture(l, scope, id, amount, key).outcome; o.Success? && !o.value.SettledBefore?
    ensures var booked := Capture(l, scope, id, amount, key);
            && (booked.outcome.value.Settled? || booked.outcome.value.Replayed?)
            && var e := booked.outcome.value.entry;
               && e < |booked.ledger.log| && Captures(booked.ledger.log[e], id, amount)
               && booked.ledger.log[e].scope == scope && booked.ledger.log[e].key == ClientKey(key)
    ensures 0 < amount <= 9007199254740991
  {
    hide FindEntry, Consume;
  }

  lemma ReleasedEntry(l: Ledger, scope: Scope, id: nat, key: string)
    requires Bound(l.accounts, l.reservations)
    requires var o := Release(l, scope, id, key).outcome; o.Success? && !o.value.SettledBefore?
    ensures var booked := Release(l, scope, id, key);
            && (booked.outcome.value.Settled? || booked.outcome.value.Replayed?)
            && var e := booked.outcome.value.entry;
               && e < |booked.ledger.log| && Releases(booked.ledger.log[e], id)
               && booked.ledger.log[e].scope == scope && booked.ledger.log[e].key == ClientKey(key)
  {
    hide FindEntry;
  }

  lemma RunIsBound(l: Ledger, ops: seq<Op>)
    requires Sound(l)
    ensures Bound(Run(l, ops).accounts, Run(l, ops).reservations)
  {
    hide Run, Keyed, Replays;
    BoundParts(Run(l, ops));
  }

  /**
   * A capture that went through is answered with its entry for ever after, and
   * anything else under its key is refused.
   */
  lemma CaptureAnsweredOnce(l: Ledger, scope: Scope, id: nat, amount: int, key: string, ops: seq<Op>,
                            other: nat, again: int)
    requires Sound(l)
    requires var o := Capture(l, scope, id, amount, key).outcome; o.Success? && !o.value.SettledBefore?
    ensures Sound(Capture(l, scope, id, amount, key).ledger)
    ensures var booked := Capture(l, scope, id, amount, key); var after := Run(booked.ledger, ops);
            && (booked.outcome.value.Settled? || booked.outcome.value.Replayed?)
            && Bound(after.accounts, after.reservations)
            && Capture(after, scope, other, again, key)
               == if other == id && again == amount then Done(after, Success(Replayed(booked.outcome.value.entry)))
                  else Done(after, Failure(if 0 < again <= 9007199254740991 then IdempotencyConflict
                                           else InvalidAmount))
  {
    StepIsSound(l, DoCapture(scope, id, amount, key));
    CapturedEntry(l, scope, id, amount, key);
    hide Sound, Run, Capture, UniqueKeys, Bound;
    var booked := Capture(l, scope, id, amount, key);
    var e := booked.outcome.value.entry;
    EntryIsFoundAgain(booked.ledger, ops, e);
    RunIsUnique(booked.ledger, ops);
    RunIsBound(booked.ledger, ops);
    CaptureFinds(Run(booked.ledger, ops), scope, other, again, key, e);
  }

  /** The same for a release. */
  lemma ReleaseAnsweredOnce(l: Ledger, scope: Scope, id: nat, key: string, ops: seq<Op>, other: nat)
    requires Sound(l)
    requires var o := Release(l, scope, id, key).outcome; o.Success? && !o.value.SettledBefore?
    ensures Sound(Release(l, scope, id, key).ledger)
    ensures var booked := Release(l, scope, id, key); var after := Run(booked.ledger, ops);
            && (booked.outcome.value.Settled? || booked.outcome.value.Replayed?)
            && Bound(after.accounts, after.reservations)
            && Release(after, scope, other, key)
               == if other == id then Done(after, Success(Replayed(booked.outcome.value.entry)))
                  else Done(after, Failure(IdempotencyConflict))
  {
    StepIsSound(l, DoRelease(scope, id, key));
    ReleasedEntry(l, scope, id, key);
    hide Sound, Run, Release, UniqueKeys, Bound;
    var booked := Release(l, scope, id, key);
    var e := booked.outcome.value.entry;
    EntryIsFoundAgain(booked.ledger, ops, e);
    RunIsUnique(booked.ledger, ops);
    RunIsBound(booked.ledger, ops);
    ReleaseFinds(Run(booked.ledger, ops), scope, other, key, e);
  }

  // ---- round trips ----

  /**
   * A release undoes its reservation: accounts and buckets are what the
   * account's expiry alone would have left, and the row stays as released.
   */
  lemma ReleaseUndoesReserve(l: Ledger, scope: Scope, r: ReserveInput, now: Time, key: string)
    requires Balanced(l) && Reserve(l, scope, r, now).outcome == Success(Reserved(|l.reservations|))
    requires FindEntry(Reserve(l, scope, r, now).ledger.log, scope, ClientKey(key)).None?
    ensures var a := FindAccount(l.accounts, scope, r.customer, r.creditType);
            var held := Reserve(l, scope, r, now).ledger;
            && a.Some? && Bound(held.accounts, held.reservations)
            && var expired := ExpireAccount(l, a.value, now); var done := Release(held, scope, |l.reservations|, key);
               && done.outcome == Success(Settled(|l.reservations|, |held.log|))
               && done.ledger.accounts == expired.accounts && done.ledger.buckets == expired.buckets
               && done.ledger.reservations[..|l.reservations|] == l.reservations
               && done.ledger.reservations[|l.reservations|].status.Released?
  {
    ReserveKeepsBalance(l, scope, r, now);
    var held := Reserve(l, scope, r, now).ledger;
    assert Bound(held.accounts, held.reservations);
    var a := FindAccount(l.accounts, scope, r.customer, r.creditType).value;
    var expired := ExpireAccount(l, a, now);
    HoldAndLetGo(expired, scope, r, a, key);
  }

  lemma HoldAndLetGo(l: Ledger, scope: Scope, r: ReserveInput, a: nat, key: string)
    requires a < |l.accounts| && 0 <= l.accounts[a].reserved
    requires var held := BookReservation(l, scope, r, a);
             FindEntry(held.log, scope, ClientKey(key)).None? && Bound(held.accounts, held.reservations)
    ensures var held := BookReservation(l, scope, r, a); var done := Release(held, scope, |l.reservations|, key);
            && done.outcome == Success(Settled(|l.reservations|, |held.log|))
            && done.ledger.accounts == l.accounts && done.ledger.buckets == l.buckets
            && done.ledger.reservations[..|l.reservations|] == l.reservations
            && done.ledger.reservations[|l.reservations|].status.Released?
  {
    hide FindEntry;
  }

  /**
   * Once a reservation is captured or released it moves nothing any more:
   * after any operations, no capture and no release of it changes anything,
   * whatever its key, scope or amount.
   */
  lemma SettledForGood(l: Ledger, ops: seq<Op>, scope: Scope, id: nat, amount: int, key: string)
    requires Sound(l) && id < |l.reservations| && !l.reservations[id].status.Open?
    ensures var after := Run(l, ops); var status := l.reservations[id].status;
            var capture, release := Capture(after, scope, id, amount, key), Release(after, scope, id, key);
            && capture.ledger == after && release.ledger == after
            && (scope == l.reservations[id].scope && FindEntry(after.log, scope, ClientKey(key)).None? ==>
                  && (PositiveAmount(amount) ==>
                        capture.outcome == if status.Captured? then Success(SettledBefore(id))
                          else Failure(TerminalState))
                  && release.outcome == if status.Released? then Success(SettledBefore(id)) else Failure(TerminalState))
  {
    ReservationsSettleOnce(l, ops);
    hide Run, Sound, FindEntry, Consume;
  }
}
