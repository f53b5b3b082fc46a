/**
 * Expiry, sweep and clawback in plain terms: which rows give something up,
 * what becomes of them, what the balances lose and what the log gains.
 */
module CreditLapses {
  import opened Wrappers
  import opened CreditSchema
  import opened CreditBuckets
  import opened CreditService
  import opened CreditBalances
  import opened CreditLog
  import opened CreditExpiry

  // ---- what the rows of an account hold ----

  /** What the account's active rows hold whose time has come. */
  function DueTo(buckets: seq<Bucket>, a: nat, now: Time, n: nat): int
    requires n <= |buckets|
  {
    if n == 0 then 0
    else
      var b := buckets[n - 1];
      DueTo(buckets, a, now, n - 1)
      + if b.account == a && b.status.Active? && b.expiresAt.Some? && b.expiresAt.value <= now then b.remaining else 0
  }

  /** What they hold that new spending may use. */
  function UnexpiredTo(buckets: seq<Bucket>, a: nat, now: Time, n: nat): int
    requires n <= |buckets|
  {
    if n == 0 then 0
    else
      var b := buckets[n - 1];
      UnexpiredTo(buckets, a, now, n - 1)
      + if b.account == a && b.status.Active? && (b.expiresAt.None? || now < b.expiresAt.value) then b.remaining else 0
  }

  /** What they hold of one subscription's grants. */
  function SubscribedTo(buckets: seq<Bucket>, a: nat, scope: Scope, subscription: string, n: nat): int
    requires n <= |buckets|
  {
    if n == 0 then 0
    else
      var b := buckets[n - 1];
      SubscribedTo(buckets, a, scope, subscription, n - 1)
      + if b.account == a && b.status.Active? && b.scope == scope && b.source == FromSubscription
           && b.sourceId == subscription
        then b.remaining else 0
  }

  lemma {:induction false} DueIsPicked(buckets: seq<Bucket>, scope: Scope, a: nat, now: Time, n: nat)
    requires n <= |buckets| && WellFormed(buckets)
    ensures SumTo(buckets, DueAnywhere(now), a, n) == DueTo(buckets, a, now, n)
    ensures (forall i :: 0 <= i < n && buckets[i].account == a ==> buckets[i].scope == scope) ==>
              SumTo(buckets, DueIn(scope, a, now), a, n) == DueTo(buckets, a, now, n)
  {
    if 0 < n {
      DueIsPicked(buckets, scope, a, now, n - 1);
    }
  }

  lemma {:induction false} UnexpiredIsSpendable(buckets: seq<Bucket>, a: nat, now: Time, n: nat)
    requires n <= |buckets|
    ensures SumTo(buckets, Spendable(a, now), a, n) == UnexpiredTo(buckets, a, now, n)
  {
    if 0 < n {
      UnexpiredIsSpendable(buckets, a, now, n - 1);
    }
  }

  lemma {:induction false} SubscribedIsPicked(buckets: seq<Bucket>, a: nat, scope: Scope, subscription: string, n: nat)
    requires n <= |buckets| && WellFormed(buckets)
    ensures SumTo(buckets, GrantedBy(scope, subscription), a, n) == SubscribedTo(buckets, a, scope, subscription, n)
  {
    if 0 < n {
      SubscribedIsPicked(buckets, a, scope, subscription, n - 1);
    }
  }

  // ---- one row ----

  /** The row gave up part of what it held, or all of it and with that its active status. */
  predicate GaveUp(before: Bucket, after: Bucket, drained: BucketStatus) {
    && 0 <= after.remaining < before.remaining && before.status == Active
    && after == before.(remaining := after.remaining, status := if after.remaining == 0 then drained else Active)
  }

  /** The entry that tells of it. */
  predicate TellsOf(e: Entry, b: Bucket, after: Bucket, account: Account, why: Retirement) {
    && e.scope == b.scope && e.customer == account.customer && e.account == b.account
    && e.amount == after.remaining - b.remaining && e.reservedAfter == account.reserved && e.expiry == None
    && match why
       case Expiry =>
         && e.kind == GrantExpired && e.sourceType == "expiration" && e.source == BucketSourceRow(b.id)
         && e.key == ExpiryKey(b.id, b.remaining)
       case Clawback(subscription) =>
         && e.kind == GrantRevoked && e.sourceType == "subscription" && e.source == TextSource(subscription)
         && e.key == RevocationKey(subscription, b.id, b.remaining)
  }

  /** What happens to a row that is picked, and to one that is not. */
  lemma RowRetires(l: Ledger, rows: Rows, why: Retirement, i: nat)
    requires Walkable(l) && i < |l.buckets|
    ensures var b, after := l.buckets[i], Retire(l, rows, why).buckets[i];
            && |Retire(l, rows, why).buckets| == |l.buckets|
            && (|| after == b
                || (Picks(rows, b) && GaveUp(b, after, if why.Expiry? then BucketStatus.Expired else Reversed)))
            && (after != b <==> Share(l.buckets, rows, Budget.Available(Balances(l.accounts)), i) != 0)
            && after.remaining == b.remaining - Share(l.buckets, rows, Budget.Available(Balances(l.accounts)), i)
  {
    hide Share, RetirementEntries;
    ShareBounds(l.buckets, rows, Budget.Available(Balances(l.accounts)), i);
    assert WellFormedRow(l.buckets[i]);
  }

  /** An entry of the walk tells of a row that gave something up. */
  ghost predicate TellsOfRow(l: Ledger, after: Ledger, why: Retirement, e: Entry, i: nat) {
    && i < |l.buckets| == |after.buckets| && after.buckets[i] != l.buckets[i] && l.buckets[i].account < |l.accounts|
    && TellsOf(e, l.buckets[i], after.buckets[i], l.accounts[l.buckets[i].account], why)
  }

  ghost predicate TellsOfSome(l: Ledger, after: Ledger, why: Retirement, e: Entry) {
    exists i: nat :: TellsOfRow(l, after, why, e, i)
  }

  function ChangesTo(before: seq<Bucket>, after: seq<Bucket>, n: nat): nat
    requires n <= |before| == |after|
  {
    if n == 0 then 0 else ChangesTo(before, after, n - 1) + if after[n - 1] != before[n - 1] then 1 else 0
  }

  /** The log gains one entry for each row that gave something up, and none else; their keys tell them apart. */
  ghost predicate LogTells(l: Ledger, after: Ledger, why: Retirement) {
    && l.log <= after.log && |after.buckets| == |l.buckets|
    && |after.log| == |l.log| + ChangesTo(l.buckets, after.buckets, |l.buckets|)
    && (forall x :: |l.log| <= x < |after.log| ==> TellsOfSome(l, after, why, after.log[x]))
  }

  lemma RowEntry(l: Ledger, rows: Rows, why: Retirement, i: nat)
    requires Walkable(l) && i < |l.buckets| && Share(l.buckets, rows, Budget.Available(Balances(l.accounts)), i) != 0
    ensures TellsOfRow(l, Retire(l, rows, why), why, BucketEntry(l, rows, why, i), i)
  {
    RowRetires(l, rows, why, i);
    hide Share, RetirementEntries, AvailableAfter, Drawn, WellFormed, Solvent;
  }

  lemma {:induction false} EntriesCount(l: Ledger, rows: Rows, why: Retirement, n: nat)
    requires Walkable(l) && n <= |l.buckets|
    ensures |Retire(l, rows, why).buckets| == |l.buckets|
    ensures |RetirementEntries(l, rows, why, n)| == ChangesTo(l.buckets, Retire(l, rows, why).buckets, n)
  {
    hide Share, Retire, Walkable, BucketEntry;
    if 0 < n {
      EntriesCount(l, rows, why, n - 1);
      RowRetires(l, rows, why, n - 1);
    } else {
      RetireKeepsLength(l, rows, why);
    }
  }

  lemma RetireKeepsLength(l: Ledger, rows: Rows, why: Retirement)
    requires Walkable(l)
    ensures |Retire(l, rows, why).buckets| == |l.buckets| && |Retire(l, rows, why).accounts| == |l.accounts|
    ensures Retire(l, rows, why).reservations == l.reservations
    ensures Retire(l, rows, why).log == l.log + RetirementEntries(l, rows, why, |l.buckets|)
  {
  }

  lemma RetireTells(l: Ledger, rows: Rows, why: Retirement)
    requires Walkable(l)
    ensures LogTells(l, Retire(l, rows, why), why)
  {
    hide Share, Retire, Walkable, BucketEntry, RetirementEntries;
    var after := Retire(l, rows, why);
    RetireKeepsLength(l, rows, why);
    EntriesCount(l, rows, why, |l.buckets|);
    EntriesComeFromRows(l, rows, why, |l.buckets|);
    forall x | |l.log| <= x < |after.log| ensures TellsOfSome(l, after, why, after.log[x]) {
      var e := after.log[x];
      assert e == RetirementEntries(l, rows, why, |l.buckets|)[x - |l.log|];
      assert e in RetirementEntries(l, rows, why, |l.buckets|);
      var i :| 0 <= i < |l.buckets| && FromRow(l, rows, why, i, e);
      RowEntry(l, rows, why, i);
    }
  }

  // ---- the three of them ----

  /** Every balance loses what `held` says, as far as it goes. */
  ghost predicate Loses(before: seq<Account>, after: seq<Account>, held: nat -> int) {
    && |after| == |before|
    && forall a: nat :: a < |before| ==>
         after[a] == before[a].(available := if before[a].available < held(a) then 0 else before[a].available - held(a))
  }

  lemma AccountLoses(l: Ledger, rows: Rows, why: Retirement, a: nat, held: int)
    requires Walkable(l) && a < |l.accounts| && Sum(l.buckets, rows, a) == held
    ensures var after := Retire(l, rows, why); var available := l.accounts[a].available;
            && |after.accounts| == |l.accounts|
            && after.accounts[a] == l.accounts[a].(available := if available < held then 0 else available - held)
            && ActiveSum(after.buckets, a) == ActiveSum(l.buckets, a) - Min(available, held)
  {
    RetireClosedForm(l, rows, why, a);
    RetireKeepsLength(l, rows, why);
    hide Retire, Walkable, SumTo;
  }

  lemma OtherAccountsKeep(l: Ledger, scope: Scope, a: nat, now: Time, c: nat)
    requires Walkable(l) && a < |l.accounts| && c < |l.accounts| && c != a
    ensures var after := Retire(l, DueIn(scope, a, now), Expiry);
            |after.accounts| == |l.accounts| && after.accounts[c] == l.accounts[c]
  {
    NothingPicked(l.buckets, DueIn(scope, a, now), c, |l.buckets|);
    AccountLoses(l, DueIn(scope, a, now), Expiry, c, 0);
    assert 0 <= l.accounts[c].available;
    hide Retire, Walkable, SumTo;
  }

  /** The expiry of one account. */
  lemma ExpiryGives(l: Ledger, a: nat, now: Time)
    requires Balanced(l) && a < |l.accounts|
    ensures var after := ExpireAccount(l, a, now); var due := DueTo(l.buckets, a, now, |l.buckets|);
            && after.accounts == l.accounts[a := l.accounts[a].(available := Max(0, l.accounts[a].available - due))]
            && after.reservations == l.reservations && |after.buckets| == |l.buckets|
            && (forall i :: 0 <= i < |l.buckets| ==>
                  var b := l.buckets[i];
                  || after.buckets[i] == b
                  || (&& b.account == a && b.expiresAt.Some? && b.expiresAt.value <= now
                      && GaveUp(b, after.buckets[i], BucketStatus.Expired)))
            && ActiveSum(after.buckets, a) == ActiveSum(l.buckets, a) - Min(l.accounts[a].available, due)
            && LogTells(l, after, Expiry)
  {
    hide Balanced, Retire, LogTells, SumTo, DueTo, Picks, GaveUp;
    var scope := l.accounts[a].scope;
    var rows := DueIn(scope, a, now);
    BalancedParts(l);
    var after := Retire(l, rows, Expiry);
    ScopesAgree(l, a);
    DueIsPicked(l.buckets, scope, a, now, |l.buckets|);
    AccountLoses(l, rows, Expiry, a, DueTo(l.buckets, a, now, |l.buckets|));
    RetireTells(l, rows, Expiry);
    RetireKeepsLength(l, rows, Expiry);
    hide Walkable, WellFormed, Linked, Solvent;
    forall c | 0 <= c < |l.accounts| && c != a ensures after.accounts[c] == l.accounts[c] {
      OtherAccountsKeep(l, scope, a, now, c);
    }
    forall i | 0 <= i < |l.buckets|
      ensures var b := l.buckets[i];
              || after.buckets[i] == b
              || (&& b.account == a && b.expiresAt.Some? && b.expiresAt.value <= now
                  && GaveUp(b, after.buckets[i], BucketStatus.Expired))
    {
      RowRetires(l, rows, Expiry, i);
      WhatIsDue(scope, a, now, l.buckets[i]);
    }
  }

  lemma WhatIsDue(scope: Scope, a: nat, now: Time, b: Bucket)
    ensures Picks(DueIn(scope, a, now), b) ==> b.account == a && b.expiresAt.Some? && b.expiresAt.value <= now
    ensures Picks(DueAnywhere(now), b) ==> b.expiresAt.Some? && b.expiresAt.value <= now
  {
  }

  lemma WhatIsRevoked(scope: Scope, subscription: string, b: Bucket)
    ensures Picks(GrantedBy(scope, subscription), b) ==>
              b.scope == scope && b.source == FromSubscription && b.sourceId == subscription
  {
  }

  lemma BalancedParts(l: Ledger)
    requires Balanced(l)
    ensures Walkable(l) && WellFormed(l.buckets) && Linked(l.accounts, l.buckets) && Solvent(l.accounts)
  {
  }

  lemma ScopesAgree(l: Ledger, a: nat)
    requires Linked(l.accounts, l.buckets) && a < |l.accounts|
    ensures forall i :: 0 <= i < |l.buckets| && l.buckets[i].account == a ==> l.buckets[i].scope == l.accounts[a].scope
  {
  }

  /** The sweep: every account loses what is due on it. */
  lemma SweepGives(l: Ledger, now: Time)
    requires Balanced(l)
    ensures var after := Sweep(l, now);
            && Loses(l.accounts, after.accounts, (a: nat) => DueTo(l.buckets, a, now, |l.buckets|))
            && after.reservations == l.reservations && |after.buckets| == |l.buckets|
            && (forall i :: 0 <= i < |l.buckets| ==>
                  var b := l.buckets[i];
                  || after.buckets[i] == b
                  || (&& b.expiresAt.Some? && b.expiresAt.value <= now
                      && GaveUp(b, after.buckets[i], BucketStatus.Expired)))
            && LogTells(l, after, Expiry)
  {
    hide Balanced, Retire, LogTells, SumTo, DueTo, Picks, GaveUp;
    var rows := DueAnywhere(now);
    BalancedParts(l);
    var after := Retire(l, rows, Expiry);
    RetireTells(l, rows, Expiry);
    RetireKeepsLength(l, rows, Expiry);
    hide Walkable, Linked, Solvent;
    forall a: nat | a < |l.accounts|
      ensures var due := DueTo(l.buckets, a, now, |l.buckets|);
              |after.accounts| == |l.accounts|
              && after.accounts[a]
                 == l.accounts[a].(available := if l.accounts[a].available < due then 0
                                   else l.accounts[a].available - due)
    {
      DueIsPicked(l.buckets, l.accounts[a].scope, a, now, |l.buckets|);
      AccountLoses(l, rows, Expiry, a, DueTo(l.buckets, a, now, |l.buckets|));
    }
    forall i | 0 <= i < |l.buckets|
      ensures var b := l.buckets[i];
              || after.buckets[i] == b
              || (&& b.expiresAt.Some? && b.expiresAt.value <= now && GaveUp(b, after.buckets[i], BucketStatus.Expired))
    {
      RowRetires(l, rows, Expiry, i);
      WhatIsDue(l.buckets[i].scope, 0, now, l.buckets[i]);
    }
  }

  /** The clawback: only rows granted by the subscription give anything, and every account loses what they hold. */
  lemma RevocationGives(l: Ledger, scope: Scope, subscription: string)
    requires Balanced(l)
    ensures var after := RevokeSubscription(l, scope, subscription);
            && Loses(l.accounts, after.accounts,
                     (a: nat) => SubscribedTo(l.buckets, a, scope, subscription, |l.buckets|))
            && after.reservations == l.reservations && |after.buckets| == |l.buckets|
            && (forall i :: 0 <= i < |l.buckets| ==>
                  var b := l.buckets[i];
                  || after.buckets[i] == b
                  || (&& b.scope == scope && b.source == FromSubscription && b.sourceId == subscription
                      && GaveUp(b, after.buckets[i], Reversed)))
            && LogTells(l, after, Clawback(subscription))
  {
    hide Balanced, Retire, LogTells, SumTo, SubscribedTo, Picks, GaveUp;
    var rows, why := GrantedBy(scope, subscription), Clawback(subscription);
    BalancedParts(l);
    var after := Retire(l, rows, why);
    RetireTells(l, rows, why);
    RetireKeepsLength(l, rows, why);
    hide Walkable, Linked, Solvent;
    forall a: nat | a < |l.accounts|
      ensures var held := SubscribedTo(l.buckets, a, scope, subscription, |l.buckets|);
              |after.accounts| == |l.accounts|
              && after.accounts[a]
                 == l.accounts[a].(available := if l.accounts[a].available < held then 0
                                   else l.accounts[a].available - held)
    {
      SubscribedIsPicked(l.buckets, a, scope, subscription, |l.buckets|);
      AccountLoses(l, rows, why, a, SubscribedTo(l.buckets, a, scope, subscription, |l.buckets|));
    }
    forall i | 0 <= i < |l.buckets|
      ensures var b := l.buckets[i];
              || after.buckets[i] == b
              || (&& b.scope == scope && b.source == FromSubscription && b.sourceId == subscription
                  && GaveUp(b, after.buckets[i], Reversed))
    {
      RowRetires(l, rows, why, i);
      WhatIsRevoked(scope, subscription, l.buckets[i]);
    }
  }
}
