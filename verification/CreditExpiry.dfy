/**
 * Expiry, clawback and what spending may still draw on afterwards.
 */
module CreditExpiry {
  import opened Wrappers
  import opened CreditSchema
  import opened CreditBuckets
  import opened CreditService
  import opened CreditBalances

  /** A sum of zero means no row was picked. */
  lemma {:induction false} EmptySumPicksNothing(buckets: seq<Bucket>, rows: Rows, account: nat, n: nat)
    requires WellFormed(buckets) && n <= |buckets| && SumTo(buckets, rows, account, n) == 0
    ensures forall i :: 0 <= i < n && buckets[i].account == account ==> !Picks(rows, buckets[i])
  {
    if 0 < n {
      SumBounds(buckets, rows, account, 0, n - 1);
      EmptySumPicksNothing(buckets, rows, account, n - 1);
    }
  }

  // ---- closed forms ----

  /** Expiry and clawback take exactly what the account has available, up to what the picked rows hold. */
  lemma RetireClosedForm(l: Ledger, rows: Rows, why: Retirement, a: nat)
    requires Walkable(l) && a < |l.accounts|
    ensures var after := Retire(l, rows, why); var held := Sum(l.buckets, rows, a);
            var available := l.accounts[a].available;
            && after.accounts[a] == l.accounts[a].(available := available - Min(available, held))
            && Sum(after.buckets, rows, a) == held - Min(available, held)
            && ActiveSum(after.buckets, a) == ActiveSum(l.buckets, a) - Min(available, held)
  {
    var budget := Budget.Available(Balances(l.accounts));
    DrawnSum(l.buckets, rows, budget, why.Status(), rows, a, |l.buckets|);
    DrawnSum(l.buckets, rows, budget, why.Status(), Settleable(a), a, |l.buckets|);
    SumBounds(l.buckets, rows, a, 0, |l.buckets|);
  }

  /** With something still available, the rows a walk picked hold nothing any more. */
  lemma AvailableMeansNothingPicked(l: Ledger, rows: Rows, why: Retirement, a: nat)
    requires Balanced(l) && a < |l.accounts| && 0 < Retire(l, rows, why).accounts[a].available
    ensures var after := Retire(l, rows, why).buckets;
            forall i :: 0 <= i < |after| && after[i].account == a ==> !Picks(rows, after[i])
  {
    RetireClosedForm(l, rows, why, a);
    RetireKeepsBalance(l, rows, why);
    EmptySumPicksNothing(Retire(l, rows, why).buckets, rows, a, |l.buckets|);
  }

  ghost predicate NothingDue(l: Ledger, a: nat, now: Time) {
    forall i :: 0 <= i < |l.buckets| && l.buckets[i].account == a && l.buckets[i].status.Active? ==>
        !PastExpiry(l.buckets[i], now)
  }

  /** After an account's expiry, either nothing is available or no due bucket is left. */
  lemma ExpiryClosedForm(l: Ledger, a: nat, now: Time)
    requires Balanced(l) && a < |l.accounts|
    ensures var due := DueIn(l.accounts[a].scope, a, now); var after := ExpireAccount(l, a, now);
            && Balanced(after)
            && after.accounts[a].available == Max(0, l.accounts[a].available - Sum(l.buckets, due, a))
            && after.accounts[a].reserved == l.accounts[a].reserved
            && (0 < after.accounts[a].available ==> NothingDue(after, a, now))
  {
    var due := DueIn(l.accounts[a].scope, a, now);
    var after := ExpireAccount(l, a, now);
    RetireClosedForm(l, due, Expiry, a);
    RetireKeepsBalance(l, due, Expiry);
    if 0 < after.accounts[a].available {
      AvailableMeansNothingPicked(l, due, Expiry, a);
      assert WellFormed(after.buckets) && Linked(after.accounts, after.buckets);
    }
  }

  /** Rows past their expiry are the only active rows new spending cannot use. */
  lemma {:induction false} SpendableIsActive(l: Ledger, a: nat, now: Time, n: nat)
    requires n <= |l.buckets| && NothingDue(l, a, now)
    ensures SumTo(l.buckets, Spendable(a, now), a, n) == SumTo(l.buckets, Settleable(a), a, n)
  {
    if 0 < n {
      SpendableIsActive(l, a, now, n - 1);
    }
  }

  /** A debit with a new key succeeds exactly when the balance and the unexpired rows both cover it. */
  lemma DebitSucceedsExactly(l: Ledger, scope: Scope, d: DebitInput, now: Time, a: nat)
    requires Balanced(l) && PositiveAmount(d.amount)
    requires FindEntry(l.log, scope, ClientKey(d.key)).None?
    requires FindAccount(l.accounts, scope, d.customer, d.creditType) == Some(a)
    ensures Debit(l, scope, d, now).outcome.Success?
            <==> d.amount <= l.accounts[a].available && d.amount <= Sum(l.buckets, Spendable(a, now), a)
    ensures Debit(l, scope, d, now).outcome.Failure? ==> Debit(l, scope, d, now).ledger == l
    ensures forall i :: 0 <= i < |l.buckets| && PastExpiry(l.buckets[i], now) ==>
              Debit(l, scope, d, now).ledger.buckets[i] == l.buckets[i]
  {
    if Debit(l, scope, d, now).outcome.Success? {
      forall i | 0 <= i < |l.buckets| && PastExpiry(l.buckets[i], now)
        ensures Debit(l, scope, d, now).ledger.buckets[i] == l.buckets[i]
      {
        ShareBounds(l.buckets, Spendable(a, now), Fixed(d.amount), i);
      }
    }
  }

  /** Right after the account's expiry the balance alone decides. */
  lemma DebitAfterExpiry(l: Ledger, scope: Scope, d: DebitInput, now: Time, a: nat)
    requires Balanced(l) && PositiveAmount(d.amount) && a < |l.accounts|
    requires var clean := ExpireAccount(l, a, now);
             FindEntry(clean.log, scope, ClientKey(d.key)).None?
               && FindAccount(clean.accounts, scope, d.customer, d.creditType) == Some(a)
    ensures var clean := ExpireAccount(l, a, now);
            Debit(clean, scope, d, now).outcome.Success? <==> d.amount <= clean.accounts[a].available
  {
    var clean := ExpireAccount(l, a, now);
    ExpiryClosedForm(l, a, now);
    RetireKeepsBalance(l, DueIn(l.accounts[a].scope, a, now), Expiry);
    assert Balanced(clean);
    DebitSucceedsExactly(clean, scope, d, now, a);
    if 0 < clean.accounts[a].available {
      SpendableIsActive(clean, a, now, |clean.buckets|);
    }
  }

  /**
   * A successful reservation leaves everything the account has, available and
   * reserved, on unexpired rows; a reservation rejected for lack of credit
   * commits the expiry and nothing else.
   */
  lemma ReserveIsBackedByUnexpired(l: Ledger, scope: Scope, r: ReserveInput, now: Time, a: nat)
    requires Balanced(l) && PositiveAmount(r.amount)
    requires FindReservation(l.reservations, scope, r.key).None?
    requires FindAccount(l.accounts, scope, r.customer, r.creditType) == Some(a)
    requires FindEntry(l.log, scope, ClientKey(r.key)).None?
    ensures var done := Reserve(l, scope, r, now); var due := DueIn(scope, a, now);
            && (done.outcome.Success? <==> r.amount <= Max(0, l.accounts[a].available - Sum(l.buckets, due, a)))
            && (done.outcome.Success? ==>
                  && Sum(done.ledger.buckets, Spendable(a, now), a)
                     == done.ledger.accounts[a].available + done.ledger.accounts[a].reserved)
            && (!done.outcome.Success? ==>
                  done == Done(ExpireAccount(l, a, now), Failure(InsufficientCredits)))
  {
    var clean := ExpireAccount(l, a, now);
    ExpiryClosedForm(l, a, now);
    StageKeysAreNotClientKeys(l, DueIn(scope, a, now), Expiry, |l.buckets|, scope, r.key);
    RetireKeepsBalance(l, DueIn(scope, a, now), Expiry);
    assert Balanced(clean);
    if r.amount <= clean.accounts[a].available {
      SpendableIsActive(clean, a, now, |clean.buckets|);
    }
  }

  /** A walk books stage keys only, so a caller's key stays unused. */
  lemma {:induction false} StageKeysAreNotClientKeys(l: Ledger, rows: Rows, why: Retirement, n: nat, scope: Scope,
                                                     key: string)
    requires Walkable(l) && n <= |l.buckets| && FindEntry(l.log, scope, ClientKey(key)).None?
    ensures FindEntry(l.log + RetirementEntries(l, rows, why, n), scope, ClientKey(key)).None?
  {
    hide FindEntry, Walkable, Share, AvailableAfter;
    var log := l.log + RetirementEntries(l, rows, why, n);
    if n == 0 {
      assert log == l.log;
    } else {
      StageKeysAreNotClientKeys(l, rows, why, n - 1, scope, key);
      var shorter := l.log + RetirementEntries(l, rows, why, n - 1);
      assert log == shorter || log == shorter + [BucketEntry(l, rows, why, n - 1)];
    }
  }

  // ---- the sweep against account-scoped expiry ----

  /** What is recorded for one account. */
  function EntriesOf(log: seq<Entry>, account: nat): seq<Entry> {
    if log == [] then []
    else
      var last := |log| - 1;
      EntriesOf(log[..last], account) + if log[last].account == account then [log[last]] else []
  }

  lemma EntriesOfAppend(log: seq<Entry>, e: Entry, account: nat)
    ensures EntriesOf(log + [e], account) == EntriesOf(log, account) + if e.account == account then [e] else []
  {
    assert (log + [e])[..|log|] == log;
  }

  /** Two ledgers show the same balances and rows for an account. */
  ghost predicate SameAccount(x: Ledger, y: Ledger, a: nat) {
    && |x.accounts| == |y.accounts| && |x.buckets| == |y.buckets| && a < |x.accounts|
    && x.accounts[a] == y.accounts[a]
    && (forall i :: 0 <= i < |x.buckets| ==> (x.buckets[i].account == a <==> y.buckets[i].account == a))
    && (forall i :: 0 <= i < |x.buckets| && x.buckets[i].account == a ==> x.buckets[i] == y.buckets[i])
  }

  /** The sweep and the account's own expiry pick the same rows of the account. */
  lemma SamePicks(x: Ledger, y: Ledger, a: nat, now: Time, n: nat)
    requires Walkable(x) && Walkable(y) && SameAccount(x, y, a) && n <= |x.buckets|
    ensures SumTo(x.buckets, DueAnywhere(now), a, n) == SumTo(y.buckets, DueIn(y.accounts[a].scope, a, now), a, n)
  {
    SumAgrees(x.buckets, DueAnywhere(now), y.buckets, DueIn(y.accounts[a].scope, a, now), a, n);
  }

  lemma SweepMatchesExpiryEntry(x: Ledger, y: Ledger, a: nat, now: Time, i: nat)
    requires Walkable(x) && Walkable(y) && SameAccount(x, y, a) && i < |x.buckets| && x.buckets[i].account == a
    ensures var due := DueIn(y.accounts[a].scope, a, now);
            && Share(x.buckets, DueAnywhere(now), Budget.Available(Balances(x.accounts)), i)
               == Share(y.buckets, due, Budget.Available(Balances(y.accounts)), i)
            && BucketEntry(x, DueAnywhere(now), Expiry, i) == BucketEntry(y, due, Expiry, i)
  {
    SamePicks(x, y, a, now, i);
    SamePicks(x, y, a, now, i + 1);
  }

  lemma RetiredRow(l: Ledger, rows: Rows, why: Retirement, i: nat)
    requires Walkable(l) && i < |l.buckets|
    ensures Retire(l, rows, why).buckets[i]
            == Draw(l.buckets[i], Share(l.buckets, rows, Budget.Available(Balances(l.accounts)), i), why.Status())
    ensures Retire(l, rows, why).buckets[i].account == l.buckets[i].account
  {
  }

  lemma SweepMatchesExpiryBucket(x: Ledger, y: Ledger, a: nat, now: Time, i: nat)
    requires Walkable(x) && Walkable(y) && SameAccount(x, y, a) && i < |x.buckets|
    ensures Sweep(x, now).buckets[i].account == x.buckets[i].account
    ensures ExpireAccount(y, a, now).buckets[i].account == y.buckets[i].account
    ensures x.buckets[i].account == a ==> Sweep(x, now).buckets[i] == ExpireAccount(y, a, now).buckets[i]
  {
    RetiredRow(x, DueAnywhere(now), Expiry, i);
    RetiredRow(y, DueIn(y.accounts[a].scope, a, now), Expiry, i);
    if x.buckets[i].account == a {
      SweepMatchesExpiryEntry(x, y, a, now, i);
    }
  }

  lemma SweepMatchesExpiry(x: Ledger, y: Ledger, a: nat, now: Time)
    requires Walkable(x) && Walkable(y) && SameAccount(x, y, a)
    ensures SameAccount(Sweep(x, now), ExpireAccount(y, a, now), a)
  {
    SamePicks(x, y, a, now, |x.buckets|);
    forall i | 0 <= i < |x.buckets|
      ensures Sweep(x, now).buckets[i].account == x.buckets[i].account
      ensures ExpireAccount(y, a, now).buckets[i].account == y.buckets[i].account
      ensures x.buckets[i].account == a ==> Sweep(x, now).buckets[i] == ExpireAccount(y, a, now).buckets[i]
    {
      SweepMatchesExpiryBucket(x, y, a, now, i);
    }
  }

  /** The entries a walk books for one account, row by row. */
  function AccountEntries(l: Ledger, rows: Rows, why: Retirement, a: nat, n: nat): seq<Entry>
    requires Walkable(l) && n <= |l.buckets|
  {
    if n == 0 then []
    else
      AccountEntries(l, rows, why, a, n - 1)
      + if l.buckets[n - 1].account == a && Share(l.buckets, rows, Budget.Available(Balances(l.accounts)), n - 1) != 0
        then [BucketEntry(l, rows, why, n - 1)] else []
  }

  lemma EntriesOfStep(before: seq<Entry>, after: seq<Entry>, booked: bool, e: Entry, a: nat)
    requires after == if booked then before + [e] else before
    ensures EntriesOf(after, a) == EntriesOf(before, a) + if e.account == a && booked then [e] else []
  {
    EntriesOfAppend(before, e, a);
  }

  lemma RetirementStep(l: Ledger, rows: Rows, why: Retirement, n: nat)
    requires Walkable(l) && 0 < n <= |l.buckets|
    ensures RetirementEntries(l, rows, why, n)
            == if Share(l.buckets, rows, Budget.Available(Balances(l.accounts)), n - 1) != 0
               then RetirementEntries(l, rows, why, n - 1) + [BucketEntry(l, rows, why, n - 1)]
               else RetirementEntries(l, rows, why, n - 1)
    ensures BucketEntry(l, rows, why, n - 1).account == l.buckets[n - 1].account
  {
  }

  lemma {:induction false} EntriesOfWalk(l: Ledger, rows: Rows, why: Retirement, a: nat, n: nat)
    requires Walkable(l) && n <= |l.buckets|
    ensures EntriesOf(RetirementEntries(l, rows, why, n), a) == AccountEntries(l, rows, why, a, n)
  {
    if 0 < n {
      EntriesOfWalk(l, rows, why, a, n - 1);
      RetirementStep(l, rows, why, n);
      EntriesOfStep(RetirementEntries(l, rows, why, n - 1), RetirementEntries(l, rows, why, n),
                    Share(l.buckets, rows, Budget.Available(Balances(l.accounts)), n - 1) != 0,
                      BucketEntry(l, rows, why, n - 1), a);
    }
  }

  lemma {:induction false} SameAccountEntries(x: Ledger, y: Ledger, a: nat, now: Time, n: nat)
    requires Walkable(x) && Walkable(y) && SameAccount(x, y, a) && n <= |x.buckets|
    ensures AccountEntries(x, DueAnywhere(now), Expiry, a, n)
            == AccountEntries(y, DueIn(y.accounts[a].scope, a, now), Expiry, a, n)
  {
    if 0 < n {
      SameAccountEntries(x, y, a, now, n - 1);
      if x.buckets[n - 1].account == a {
        SweepMatchesExpiryEntry(x, y, a, now, n - 1);
      }
    }
  }

  /** An account's expiry does not touch any other account. */
  lemma ExpiryTouchesOneAccount(l: Ledger, a: nat, now: Time, c: nat)
    requires Walkable(l) && a < |l.accounts| && c < |l.accounts| && c != a
    ensures SameAccount(l, ExpireAccount(l, a, now), c)
  {
    var due := DueIn(l.accounts[a].scope, a, now);
    NothingPicked(l.buckets, due, c, |l.buckets|);
    forall i | 0 <= i < |l.buckets|
      ensures ExpireAccount(l, a, now).buckets[i].account == l.buckets[i].account
      ensures l.buckets[i].account == c ==> ExpireAccount(l, a, now).buckets[i] == l.buckets[i]
    {
      DrawnRow(l.buckets, due, Budget.Available(Balances(l.accounts)), Expiry.Status(), i);
      ShareBounds(l.buckets, due, Budget.Available(Balances(l.accounts)), i);
    }
  }

  lemma SameAccountChains(x: Ledger, y: Ledger, z: Ledger, a: nat)
    requires SameAccount(x, y, a) && SameAccount(y, z, a)
    ensures SameAccount(x, z, a)
  {
  }

  /** Account-scoped expiry run on every account of the first ledger, one after the other. */
  ghost predicate ExpiredInTurn(states: seq<Ledger>, now: Time) {
    && 0 < |states| == |states[0].accounts| + 1
    && Walkable(states[0])
    && (forall k :: 0 <= k < |states| - 1 ==> TurnOf(states, k, now))
  }

  ghost predicate TurnOf(states: seq<Ledger>, k: nat, now: Time)
    requires k + 1 < |states|
  {
    ExpiresOne(states[k], states[k + 1], k, now)
  }

  ghost predicate ExpiresOne(before: Ledger, after: Ledger, a: nat, now: Time) {
    Walkable(before) && a < |before.accounts| && after == ExpireAccount(before, a, now)
  }

  lemma ExpiresOneKeeps(before: Ledger, after: Ledger, k: nat, now: Time, a: nat)
    requires ExpiresOne(before, after, k, now) && a < |before.accounts| && a != k
    ensures SameAccount(before, after, a)
  {
    ExpiryTouchesOneAccount(before, k, now, a);
  }

  lemma ExpiresOneMatchesSweep(l: Ledger, before: Ledger, after: Ledger, a: nat, now: Time)
    requires ExpiresOne(before, after, a, now) && Walkable(l) && SameAccount(l, before, a)
    ensures SameAccount(Sweep(l, now), after, a)
  {
    SweepMatchesExpiry(l, before, a, now);
  }

  /** Whatever an account shares with some ledger, the turns of other accounts keep. */
  lemma {:induction false} TurnsElsewhere(states: seq<Ledger>, now: Time, l: Ledger, a: nat, m: nat, n: nat)
    requires ExpiredInTurn(states, now) && m <= n < |states| && SameAccount(l, states[m], a)
    requires a < m || n <= a
    ensures SameAccount(l, states[n], a)
  {
    if m < n {
      TurnsElsewhere(states, now, l, a, m, n - 1);
      assert TurnOf(states, n - 1, now);
      ExpiresOneKeeps(states[n - 1], states[n], n - 1, now, a);
      SameAccountChains(l, states[n - 1], states[n], a);
    }
  }

  lemma TurnMatchesSweep(states: seq<Ledger>, now: Time, a: nat)
    requires ExpiredInTurn(states, now) && a < |states[0].accounts|
    ensures SameAccount(Sweep(states[0], now), states[|states| - 1], a)
  {
    TurnsElsewhere(states, now, states[0], a, 0, a);
    assert TurnOf(states, a, now);
    ExpiresOneMatchesSweep(states[0], states[a], states[a + 1], a, now);
    TurnsElsewhere(states, now, Sweep(states[0], now), a, a + 1, |states| - 1);
  }

  /** The sweep leaves the tables exactly as expiring every account in turn does. */
  lemma SweepIsExpiryOfEveryAccount(states: seq<Ledger>, now: Time)
    requires ExpiredInTurn(states, now)
    ensures Sweep(states[0], now).accounts == states[|states| - 1].accounts
    ensures Sweep(states[0], now).buckets == states[|states| - 1].buckets
  {
    hide WellFormed, Solvent, SumTo, RetirementEntries;
    var last := |states| - 1;
    RetireStaysWalkable(states[0], DueAnywhere(now), Expiry);
    if 0 < last {
      assert TurnOf(states, last - 1, now);
      RetireStaysWalkable(states[last - 1], DueIn(states[last - 1].accounts[last - 1].scope, last - 1, now), Expiry);
      TurnMatchesSweep(states, now, 0);
    }
    forall a | 0 <= a < last ensures SameAccount(Sweep(states[0], now), states[last], a) {
      TurnMatchesSweep(states, now, a);
    }
    SameAccountsSameTables(Sweep(states[0], now), states[last]);
  }

  lemma SameAccountsSameTables(x: Ledger, y: Ledger)
    requires Linked(x.accounts, x.buckets) && Linked(y.accounts, y.buckets) && |x.accounts| == |y.accounts|
    requires |x.buckets| == |y.buckets|
    requires forall a :: 0 <= a < |x.accounts| ==> SameAccount(x, y, a)
    ensures x.accounts == y.accounts && x.buckets == y.buckets
  {
    forall i | 0 <= i < |x.buckets| ensures x.buckets[i] == y.buckets[i] {
      assert SameAccount(x, y, x.buckets[i].account);
    }
    forall a | 0 <= a < |x.accounts| ensures x.accounts[a] == y.accounts[a] {
      assert SameAccount(x, y, a);
    }
  }

  /** And each account gets the same expiry entries, in the same order. */
  lemma SweepBooksTheSameEntries(l: Ledger, a: nat, now: Time)
    requires Walkable(l) && a < |l.accounts|
    ensures EntriesOf(RetirementEntries(l, DueAnywhere(now), Expiry, |l.buckets|), a)
            == EntriesOf(RetirementEntries(l, DueIn(l.accounts[a].scope, a, now), Expiry, |l.buckets|), a)
  {
    EntriesOfWalk(l, DueAnywhere(now), Expiry, a, |l.buckets|);
    EntriesOfWalk(l, DueIn(l.accounts[a].scope, a, now), Expiry, a, |l.buckets|);
    SameAccountEntries(l, l, a, now, |l.buckets|);
  }
}
