/**
 * What the caller of a grant or a debit gets: what changes and what does not,
 * in plain terms, and what asking again does.
 */
module CreditAnswers {
  import opened Wrappers
  import opened CreditSchema
  import opened CreditBuckets
  import opened CreditService
  import opened CreditBalances
  import opened CreditLog
  import opened CreditReplay
  import opened CreditRuns
  import opened CreditExpiry
  import opened CreditLapses

  // ---- the log only grows ----

  lemma StepAppends(l: Ledger, op: Op)
    requires Sound(l)
    ensures l.log <= Step(l, op).log
  {
    hide Balanced, Keyed, Consume, FindEntry, InsertRow, FindAccount, RetirementEntries;
  }

  lemma {:induction false} RunAppends(l: Ledger, ops: seq<Op>)
    requires Sound(l)
    ensures l.log <= Run(l, ops).log
    decreases |ops|
  {
    if ops != [] {
      StepIsSound(l, ops[0]);
      StepAppends(l, ops[0]);
      hide Keyed, Step;
      RunAppends(Step(l, ops[0]), ops[1..]);
    }
  }

  lemma FoundByItsKey(log: seq<Entry>, e: nat)
    requires UniqueKeys(log) && e < |log|
    ensures FindEntry(log, log[e].scope, log[e].key) == Some(e)
  {
  }

  /** An entry is found again by its key after any operations. */
  lemma EntryIsFoundAgain(l: Ledger, ops: seq<Op>, e: nat)
    requires Sound(l) && e < |l.log|
    ensures var after := Run(l, ops);
            && l.log <= after.log
            && FindEntry(after.log, l.log[e].scope, l.log[e].key) == Some(e)
  {
    hide Run, UniqueKeys, FindEntry, Replays, Balanced;
    RunAppends(l, ops);
    assert Keyed(Run(l, ops));
    FoundByItsKey(Run(l, ops).log, e);
    assert Run(l, ops).log[e] == l.log[e];
  }

  // ---- grants ----

  /** The entry a grant asks for. */
  predicate Records(e: Entry, scope: Scope, g: GrantInput) {
    && e.scope == scope && e.key == g.key && e.kind == g.kind && e.amount == g.amount && e.customer == g.customer
    && e.sourceType == g.sourceType && e.source == TextSource(g.sourceId) && e.expiry == g.expiresAt
  }

  /** The kind of bucket a grant makes. */
  predicate Makes(kind: GrantType, source: BucketSource) {
    && (kind == GrantPurchase <==> source == FromPurchase)
    && (kind == GrantSubscription <==> source == FromSubscription)
    && (kind == GrantPromotion <==> source == FromPromotion)
    && (kind == RefundUsage <==> source == FromRefund)
    && (kind == AdjustmentAdmin <==> source == FromAdmin)
  }

  /** The bucket a grant asks for, full and active. */
  predicate Issues(b: Bucket, scope: Scope, a: nat, g: GrantInput, entry: nat, now: Time) {
    && b.scope == scope && b.account == a && Makes(g.kind, b.source) && b.sourceId == g.sourceId
    && b.granted == b.remaining == g.amount && b.expiresAt == g.expiresAt && b.createdAt == now
    && b.transaction == entry && b.status.Active?
  }

  predicate IsAccountOf(account: Account, scope: Scope, g: GrantInput) {
    account.scope == scope && account.customer == g.customer && account.creditType == g.creditType
  }

  /** One account's balance and bucket sum rise by the amount, by one entry and one bucket; nothing else changes. */
  ghost predicate Adds(l: Ledger, after: Ledger, scope: Scope, g: GrantInput, now: Time) {
    exists a: nat, b: Bucket :: AddsTo(l, after, scope, g, now, a, b)
  }

  ghost predicate AddsTo(l: Ledger, after: Ledger, scope: Scope, g: GrantInput, now: Time, a: nat, b: Bucket) {
    && a < |after.accounts| && IsAccountOf(after.accounts[a], scope, g)
    && |l.accounts| <= |after.accounts| <= |l.accounts| + 1 && (|l.accounts| < |after.accounts| ==> a == |l.accounts|)
    && (forall c :: 0 <= c < |l.accounts| && c != a ==> after.accounts[c] == l.accounts[c])
    && (var available := if a < |l.accounts| then l.accounts[a].available else 0;
       && after.accounts[a].available == available + g.amount
       && after.accounts[a].reserved == (if a < |l.accounts| then l.accounts[a].reserved else 0)
       && |after.log| == |l.log| + 1 && l.log <= after.log
       && Records(after.log[|l.log|], scope, g) && after.log[|l.log|].account == a
       && after.log[|l.log|].availableAfter == available + g.amount)
    && Issues(b, scope, a, g, |l.log|, now)
    && multiset(after.buckets) == multiset(l.buckets) + multiset{b}
    && (forall c :: 0 <= c < |after.accounts| ==>
          ActiveSum(after.buckets, c) == ActiveSum(l.buckets, c) + if c == a then g.amount else 0)
    && after.reservations == l.reservations
  }

  lemma InsertAddsOne(buckets: seq<Bucket>, b: Bucket)
    ensures multiset(InsertRow(buckets, b)) == multiset(buckets) + multiset{b}
  {
    var k := Position(buckets, b);
    assert buckets == buckets[..k] + buckets[k..];
  }

  lemma BookGrantAdds(l: Ledger, scope: Scope, g: GrantInput, now: Time)
    requires PositiveAmount(g.amount)
    ensures Adds(l, BookGrant(l, scope, g, now), scope, g, now)
  {
    hide InsertRow, FindAccount;
    var (_, a) := EnsureAccount(l.accounts, scope, g.customer, g.creditType);
    var b := NewBucket(l, scope, a, g, now);
    var after := BookGrant(l, scope, g, now);
    InsertAddsOne(l.buckets, b);
    forall c | 0 <= c < |after.accounts|
      ensures ActiveSum(after.buckets, c) == ActiveSum(l.buckets, c) + if c == a then g.amount else 0
    {
      InsertedSum(l.buckets, b, c);
    }
    assert AddsTo(l, after, scope, g, now, a, b);
  }

  lemma InsertedSum(buckets: seq<Bucket>, b: Bucket, c: nat)
    ensures ActiveSum(InsertRow(buckets, b), c) == ActiveSum(buckets, c) + Weight(b, Settleable(c), c)
  {
    SumAfterInsert(buckets, b, Position(buckets, b), Settleable(c), c, |buckets|);
  }

  /**
   * A grant is booked exactly when its amount is positive and its key is new;
   * then it adds the amount, once. In every other case nothing changes, and
   * the answer says whether the same grant was booked before.
   */
  lemma GrantGives(l: Ledger, scope: Scope, g: GrantInput, now: Time)
    ensures var done := Grant(l, scope, g, now);
            && (done.outcome == Success(Recorded(|l.log|)) ==> Adds(l, done.ledger, scope, g, now))
            && (done.outcome != Success(Recorded(|l.log|)) ==> done.ledger == l)
            && (done.outcome == Success(Recorded(|l.log|))
                <==> && 0 < g.amount <= 9007199254740991
                     && forall e :: 0 <= e < |l.log| ==> !(l.log[e].scope == scope && l.log[e].key == g.key))
            && (done.outcome.Success? && done.outcome != Success(Recorded(|l.log|)) ==>
                  done.outcome.value.Replayed? && done.outcome.value.entry < |l.log|
                    && Records(l.log[done.outcome.value.entry], scope, g))
  {
    hide Adds, BookGrant;
    if PositiveAmount(g.amount) {
      BookGrantAdds(l, scope, g, now);
    }
  }

  /** What a grant finds when an entry has its key. */
  lemma KnownKey(l: Ledger, scope: Scope, g: GrantInput, e: nat, again: GrantInput, now: Time)
    requires FindEntry(l.log, scope, again.key) == Some(e) && Records(l.log[e], scope, g) && again.key == g.key
    requires PositiveAmount(g.amount)
    ensures Grant(l, scope, again, now)
            == if again.(creditType := g.creditType) == g then Done(l, Success(Replayed(e)))
               else Done(l, Failure(if PositiveAmount(again.amount) then IdempotencyConflict else InvalidAmount))
  {
    hide FindEntry, BookGrant;
  }

  /**
   * A grant that went through is answered with its entry for ever after,
   * whatever happened in between, and anything else asked for under its key
   * is refused. Neither changes anything. (The credit type is not compared.)
   */
  lemma GrantAnsweredOnce(l: Ledger, scope: Scope, g: GrantInput, now: Time, ops: seq<Op>, again: GrantInput,
                          later: Time)
    requires Sound(l) && Grant(l, scope, g, now).outcome.Success? && again.key == g.key
    ensures Sound(Grant(l, scope, g, now).ledger)
    ensures var booked := Grant(l, scope, g, now); var after := Run(booked.ledger, ops);
            && (booked.outcome.value.Recorded? || booked.outcome.value.Replayed?)
            && var e := booked.outcome.value.entry;
               && e < |after.log| && Records(after.log[e], scope, g)
               && Grant(after, scope, again, later)
                  == if again.(creditType := g.creditType) == g then Done(after, Success(Replayed(e)))
                     else Done(after, Failure(if 0 < again.amount <= 9007199254740991 then IdempotencyConflict
                                              else InvalidAmount))
  {
    GrantGives(l, scope, g, now);
    StepIsSound(l, DoGrant(scope, g, now));
    BookedEntry(l, scope, g, now);
    hide Sound, Run, Grant, Records;
    var booked := Grant(l, scope, g, now);
    var e := booked.outcome.value.entry;
    EntryIsFoundAgain(booked.ledger, ops, e);
    RecordsKey(booked.ledger.log[e], scope, g);
    KnownKey(Run(booked.ledger, ops), scope, g, e, again, later);
  }

  lemma RecordsKey(e: Entry, scope: Scope, g: GrantInput)
    requires Records(e, scope, g)
    ensures e.scope == scope && e.key == g.key
  {
  }

  lemma BookedEntry(l: Ledger, scope: Scope, g: GrantInput, now: Time)
    requires Grant(l, scope, g, now).outcome.Success?
    ensures var booked := Grant(l, scope, g, now);
            && (booked.outcome.value.Recorded? || booked.outcome.value.Replayed?)
            && booked.outcome.value.entry < |booked.ledger.log|
            && Records(booked.ledger.log[booked.outcome.value.entry], scope, g)
    ensures PositiveAmount(g.amount)
  {
    hide FindEntry, InsertRow, FindAccount;
  }

  // ---- debits ----

  /** No entry has the key. */
  ghost predicate IsNew(log: seq<Entry>, scope: Scope, key: Key) {
    forall e :: 0 <= e < |log| ==> !(log[e].scope == scope && log[e].key == key)
  }

  /** The entry of a debit. */
  predicate Charges(e: Entry, scope: Scope, d: DebitInput) {
    && e.scope == scope && e.key == ClientKey(d.key) && e.kind == DebitUsage && e.amount == -d.amount
    && e.customer == d.customer && e.sourceType == d.sourceType && e.source == TextSource(d.sourceId)
  }

  /**
   * What a debit leaves: one balance and its unexpired rows fall by the amount,
   * one entry says so, nothing else changes.
   */
  ghost predicate TakesFrom(l: Ledger, after: Ledger, scope: Scope, d: DebitInput, now: Time, a: nat) {
    && a < |l.accounts|
    && after.accounts == l.accounts[a := l.accounts[a].(available := l.accounts[a].available - d.amount)]
    && after.reservations == l.reservations
    && |after.log| == |l.log| + 1 && l.log <= after.log
    && (var e := after.log[|l.log|];
       && Charges(e, scope, d) && e.account == a && e.expiry == None
       && e.availableAfter == l.accounts[a].available - d.amount && e.reservedAfter == l.accounts[a].reserved)
    && |after.buckets| == |l.buckets|
    && (forall i :: 0 <= i < |l.buckets| ==>
          var b := l.buckets[i];
          || after.buckets[i] == b
          || (&& b.account == a && (b.expiresAt.None? || now < b.expiresAt.value)
              && GaveUp(b, after.buckets[i], Consumed)))
    && (forall c :: 0 <= c < |l.accounts| ==>
          ActiveSum(after.buckets, c) == ActiveSum(l.buckets, c) - if c == a then d.amount else 0)
  }

  lemma ConsumedRow(buckets: seq<Bucket>, rows: Rows, amount: int, i: nat)
    requires WellFormed(buckets) && 0 <= amount && i < |buckets| && (rows.Spendable? || rows.Settleable?)
    ensures var b, after := buckets[i], Drawn(buckets, rows, Fixed(amount), Consumed)[i];
            after == b || (Picks(rows, b) && GaveUp(b, after, Consumed))
  {
    ShareBounds(buckets, rows, Fixed(amount), i);
    assert WellFormedRow(buckets[i]);
  }

  /** What a consumption does to the rows. */
  ghost predicate Spends(before: seq<Bucket>, after: seq<Bucket>, rows: Rows, a: nat, amount: int, accounts: nat) {
    && |after| == |before|
    && (forall i :: 0 <= i < |before| ==>
          after[i] == before[i] || (Picks(rows, before[i]) && GaveUp(before[i], after[i], Consumed)))
    && (forall c :: 0 <= c < accounts ==> ActiveSum(after, c) == ActiveSum(before, c) - if c == a then amount else 0)
  }

  lemma ConsumeSpends(l: Ledger, rows: Rows, a: nat, amount: int)
    requires Balanced(l) && (rows.Spendable? || rows.Settleable?)
    requires rows.account == a && 0 < amount <= Sum(l.buckets, rows, a)
    ensures Spends(l.buckets, Drawn(l.buckets, rows, Fixed(amount), Consumed), rows, a, amount, |l.accounts|)
  {
    hide Balanced, SumTo, Sum, ActiveSum, Drawn, Picks, GaveUp, Walkable, Linked, Solvent, WellFormed;
    hide Canonical, DistinctIds;
    BalancedParts(l);
    ConsumeMoves(l.accounts, l.buckets, rows, a, amount);
    DrawnLength(l.buckets, rows, amount);
    forall i | 0 <= i < |l.buckets|
      ensures var b, after := l.buckets[i], Drawn(l.buckets, rows, Fixed(amount), Consumed)[i];
              after == b || (Picks(rows, b) && GaveUp(b, after, Consumed))
    {
      ConsumedRow(l.buckets, rows, amount, i);
    }
  }

  lemma SpentRows(before: seq<Bucket>, after: seq<Bucket>, a: nat, now: Time, amount: int, accounts: nat)
    requires Spends(before, after, Spendable(a, now), a, amount, accounts)
    ensures forall i :: 0 <= i < |before| ==>
              var b := before[i];
              || after[i] == b
              || (&& b.account == a && (b.expiresAt.None? || now < b.expiresAt.value) && GaveUp(b, after[i], Consumed))
  {
    hide GaveUp;
  }

  lemma DebitTakes(l: Ledger, scope: Scope, d: DebitInput, now: Time)
    requires Balanced(l) && Debit(l, scope, d, now).outcome == Success(Recorded(|l.log|))
    ensures var a := FindAccount(l.accounts, scope, d.customer, d.creditType);
            a.Some? && TakesFrom(l, Debit(l, scope, d, now).ledger, scope, d, now, a.value)
  {
    hide Balanced, FindEntry, FindAccount, SumTo, Drawn, GaveUp, Spends;
    var a := FindAccount(l.accounts, scope, d.customer, d.creditType).value;
    ConsumeSpends(l, Spendable(a, now), a, d.amount);
    SpentRows(l.buckets, Drawn(l.buckets, Spendable(a, now), Fixed(d.amount), Consumed), a, now, d.amount,
              |l.accounts|);
    SpentSums(l.buckets, Drawn(l.buckets, Spendable(a, now), Fixed(d.amount), Consumed), Spendable(a, now), a, d.amount,
              |l.accounts|);
  }

  lemma SpentSums(before: seq<Bucket>, after: seq<Bucket>, rows: Rows, a: nat, amount: int, accounts: nat)
    requires Spends(before, after, rows, a, amount, accounts)
    ensures |after| == |before|
    ensures forall c :: 0 <= c < accounts ==>
              ActiveSum(after, c) == ActiveSum(before, c) - if c == a then amount else 0
  {
    hide GaveUp, SumTo;
  }

  lemma DrawnLength(buckets: seq<Bucket>, rows: Rows, amount: int)
    requires 0 <= amount
    ensures |Drawn(buckets, rows, Fixed(amount), Consumed)| == |buckets|
  {
  }

  /**
   * A debit with a new key goes through exactly when its amount is positive
   * and both the balance and the unexpired rows cover it; then it takes the
   * amount, once. Otherwise nothing changes, and the answer says why.
   */
  lemma DebitGives(l: Ledger, scope: Scope, d: DebitInput, now: Time)
    requires Balanced(l) && IsNew(l.log, scope, ClientKey(d.key))
    ensures var done := Debit(l, scope, d, now); var a := FindAccount(l.accounts, scope, d.customer, d.creditType);
            && (done.outcome == Success(Recorded(|l.log|))
                <==> && 0 < d.amount <= 9007199254740991 && a.Some? && d.amount <= l.accounts[a.value].available
                     && d.amount <= UnexpiredTo(l.buckets, a.value, now, |l.buckets|))
            && (done.outcome == Success(Recorded(|l.log|)) ==> TakesFrom(l, done.ledger, scope, d, now, a.value))
            && (done.outcome != Success(Recorded(|l.log|)) ==>
                  && done.ledger == l
                  && done.outcome
                     == Failure(if !(0 < d.amount <= 9007199254740991) then InvalidAmount
                                else if a.None? || l.accounts[a.value].available < d.amount then InsufficientCredits
                                else AllocationViolated))
  {
    hide TakesFrom, Balanced, Drawn;
    if FindAccount(l.accounts, scope, d.customer, d.creditType).Some? {
      UnexpiredIsSpendable(l.buckets, FindAccount(l.accounts, scope, d.customer, d.creditType).value, now, |l.buckets|);
    }
    if Debit(l, scope, d, now).outcome == Success(Recorded(|l.log|)) {
      DebitTakes(l, scope, d, now);
    }
  }

  /**
   * What a debit finds when its key has an entry: the entry of the same
   * request is its answer, any other is a conflict, and nothing changes.
   */
  lemma DebitFinds(l: Ledger, scope: Scope, d: DebitInput, now: Time, e: nat)
    requires UniqueKeys(l.log) && e < |l.log| && l.log[e].scope == scope && l.log[e].key == ClientKey(d.key)
    ensures Debit(l, scope, d, now)
            == Done(l, if !(0 < d.amount <= 9007199254740991) then Failure(InvalidAmount)
                       else if Charges(l.log[e], scope, d) then Success(Replayed(e))
                       else Failure(IdempotencyConflict))
  {
    FoundByItsKey(l.log, e);
    hide UniqueKeys, FindEntry, Consume;
  }

  /**
   * A debit that went through is answered with its entry for ever after,
   * whatever happened in between, and anything else asked for under its key
   * is refused. Neither charges anything. (The credit type is not compared.)
   */
  lemma DebitAnsweredOnce(l: Ledger, scope: Scope, d: DebitInput, now: Time, ops: seq<Op>, again: DebitInput,
                          later: Time)
    requires Sound(l) && Debit(l, scope, d, now).outcome.Success? && again.key == d.key
    ensures Sound(Debit(l, scope, d, now).ledger)
    ensures var booked := Debit(l, scope, d, now); var after := Run(booked.ledger, ops);
            && (booked.outcome.value.Recorded? || booked.outcome.value.Replayed?)
            && var e := booked.outcome.value.entry;
               && e < |after.log| && Charges(after.log[e], scope, d)
               && Debit(after, scope, again, later)
                  == if again.(creditType := d.creditType) == d then Done(after, Success(Replayed(e)))
                     else Done(after, Failure(if 0 < again.amount <= 9007199254740991 then IdempotencyConflict
                                              else InvalidAmount))
  {
    StepIsSound(l, DoDebit(scope, d, now));
    DebitedEntry(l, scope, d, now);
    var booked := Debit(l, scope, d, now);
    var e := booked.outcome.value.entry;
    EntryIsFoundAgain(booked.ledger, ops, e);
    RunIsUnique(booked.ledger, ops);
    hide Sound, Run, Debit, UniqueKeys;
    DebitFinds(Run(booked.ledger, ops), scope, again, later, e);
  }

  lemma RunIsUnique(l: Ledger, ops: seq<Op>)
    requires Sound(l)
    ensures UniqueKeys(Run(l, ops).log)
  {
    hide Run, Balanced, Replays;
    assert Keyed(Run(l, ops));
  }

  lemma DebitedEntry(l: Ledger, scope: Scope, d: DebitInput, now: Time)
    requires Debit(l, scope, d, now).outcome.Success?
    ensures var booked := Debit(l, scope, d, now);
            && (booked.outcome.value.Recorded? || booked.outcome.value.Replayed?)
            && booked.outcome.value.entry < |booked.ledger.log|
            && Charges(booked.ledger.log[booked.outcome.value.entry], scope, d)
    ensures 0 < d.amount <= 9007199254740991
  {
    hide FindEntry, Consume, FindAccount;
  }
}
