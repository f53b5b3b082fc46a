/**
 * The append-only transaction log: its keys never repeat, and folding it
 * reproduces every balance the accounts ever had.
 */
module CreditLog {
  import opened Wrappers
  import opened CreditSchema
  import opened CreditBuckets
  import opened CreditService

  // ---- idempotency keys ----

  ghost predicate UniqueKeys(log: seq<Entry>) {
    forall i, j :: 0 <= i < j < |log| ==> log[i].scope != log[j].scope || log[i].key != log[j].key
  }

  predicate StageKey(key: Key) {
    key.ExpiryKey? || key.RevocationKey?
  }

  /** A stage key names a bucket that has dropped below the amount in the key. */
  ghost predicate StagesPassed(buckets: seq<Bucket>, log: seq<Entry>) {
    forall e :: 0 <= e < |log| && StageKey(log[e].key) ==>
      && log[e].key.bucket < |buckets|
      && (forall i :: 0 <= i < |buckets| && buckets[i].id == log[e].key.bucket ==>
          buckets[i].remaining < log[e].key.before)
  }

  /** Every bucket was issued by its own grant entry, for the same account and amount. */
  ghost predicate Issued(buckets: seq<Bucket>, log: seq<Entry>) {
    && (forall i :: 0 <= i < |buckets| ==> IssuedBy(buckets[i], log))
    && (forall i, j :: 0 <= i < j < |buckets| ==> buckets[i].transaction != buckets[j].transaction)
  }

  predicate IssuedBy(b: Bucket, log: seq<Entry>) {
    && b.transaction < |log|
    && var e := log[b.transaction];
       IsGrant(e.kind) && e.account == b.account && e.scope == b.scope && e.amount == b.granted
         && e.expiry == b.expiresAt
  }

  ghost predicate Keyed(l: Ledger) {
    UniqueKeys(l.log) && StagesPassed(l.buckets, l.log) && Issued(l.buckets, l.log)
  }

  lemma FreshKeepsKeys(log: seq<Entry>, e: Entry)
    requires UniqueKeys(log) && forall x :: 0 <= x < |log| ==> log[x].scope != e.scope || log[x].key != e.key
    ensures UniqueKeys(log + [e])
  {
  }

  lemma AppendKeepsKeys(log: seq<Entry>, e: Entry)
    requires UniqueKeys(log) && FindEntry(log, e.scope, e.key).None?
    ensures UniqueKeys(log + [e])
  {
    FreshKeepsKeys(log, e);
  }

  /** Rows that only ever lose credit, and a log that only grows, keep what the log says about them. */
  lemma KeysSurvive(buckets: seq<Bucket>, log: seq<Entry>, after: seq<Bucket>, e: Entry)
    requires StagesPassed(buckets, log) && Issued(buckets, log) && |after| == |buckets| && !StageKey(e.key)
    requires forall i :: 0 <= i < |buckets| ==>
               && after[i].(remaining := buckets[i].remaining, status := buckets[i].status) == buckets[i]
               && after[i].remaining <= buckets[i].remaining
    ensures StagesPassed(after, log + [e]) && Issued(after, log + [e])
  {
    forall i | 0 <= i < |after| ensures IssuedBy(after[i], log + [e]) {
      assert IssuedBy(buckets[i], log);
    }
  }

  /** Where the rows of the table stand once a new row is in. */
  lemma InsertedRows(buckets: seq<Bucket>, b: Bucket, i: nat)
    requires i <= |buckets|
    ensures InsertRow(buckets, b)[i] == b || (exists j :: 0 <= j < |buckets| && InsertRow(buckets, b)[i] == buckets[j])
  {
    var k := Position(buckets, b);
    if i != k {
      assert InsertRow(buckets, b)[i] == buckets[if i < k then i else i - 1];
    }
  }

  lemma GrantKeepsIssued(l: Ledger, scope: Scope, g: GrantInput, now: Time)
    requires Issued(l.buckets, l.log)
    ensures Issued(BookGrant(l, scope, g, now).buckets, BookGrant(l, scope, g, now).log)
  {
    var (_, a) := EnsureAccount(l.accounts, scope, g.customer, g.creditType);
    var b := NewBucket(l, scope, a, g, now);
    var k := Position(l.buckets, b);
    var after := BookGrant(l, scope, g, now);
    forall i | 0 <= i < |after.buckets|
      ensures IssuedBy(after.buckets[i], after.log)
      ensures if i == k then after.buckets[i].transaction == |l.log|
              else after.buckets[i] == l.buckets[if i < k then i else i - 1] && after.buckets[i].transaction < |l.log|
    {
      if i != k {
        assert IssuedBy(l.buckets[if i < k then i else i - 1], l.log);
      }
    }
  }

  lemma GrantKeepsKeys(l: Ledger, scope: Scope, g: GrantInput, now: Time)
    requires Keyed(l) && FindEntry(l.log, scope, g.key).None?
    ensures Keyed(BookGrant(l, scope, g, now))
  {
    var after := BookGrant(l, scope, g, now);
    AppendKeepsKeys(l.log, after.log[|l.log|]);
    GrantKeepsIssued(l, scope, g, now);
    forall e, i | 0 <= e < |after.log| && StageKey(after.log[e].key) && 0 <= i < |after.buckets|
      && after.buckets[i].id == after.log[e].key.bucket
      ensures after.buckets[i].remaining < after.log[e].key.before
    {
      var (_, a) := EnsureAccount(l.accounts, scope, g.customer, g.creditType);
      InsertedRows(l.buckets, NewBucket(l, scope, a, g, now), i);
    }
  }

  lemma DebitKeepsKeys(l: Ledger, scope: Scope, d: DebitInput, now: Time)
    requires Keyed(l) && WellFormed(l.buckets)
    ensures Keyed(Debit(l, scope, d, now).ledger)
  {
    var after := Debit(l, scope, d, now).ledger;
    if after != l {
      var a := FindAccount(l.accounts, scope, d.customer, d.creditType).value;
      AppendKeepsKeys(l.log, after.log[|l.log|]);
      forall i | 0 <= i < |l.buckets|
        ensures after.buckets[i].(remaining := l.buckets[i].remaining, status := l.buckets[i].status) == l.buckets[i]
        ensures after.buckets[i].remaining <= l.buckets[i].remaining
      {
        DrawnRow(l.buckets, Spendable(a, now), Fixed(d.amount), Consumed, i);
        ShareBounds(l.buckets, Spendable(a, now), Fixed(d.amount), i);
      }
      KeysSurvive(l.buckets, l.log, after.buckets, after.log[|l.log|]);
    }
  }

  lemma CaptureKeepsKeys(l: Ledger, scope: Scope, id: nat, amount: int, key: string)
    requires Keyed(l) && WellFormed(l.buckets) && Bound(l.accounts, l.reservations)
    ensures Keyed(Capture(l, scope, id, amount, key).ledger)
  {
    var after := Capture(l, scope, id, amount, key).ledger;
    if after != l {
      var a := l.reservations[id].account;
      AppendKeepsKeys(l.log, after.log[|l.log|]);
      forall i | 0 <= i < |l.buckets|
        ensures after.buckets[i].(remaining := l.buckets[i].remaining, status := l.buckets[i].status) == l.buckets[i]
        ensures after.buckets[i].remaining <= l.buckets[i].remaining
      {
        DrawnRow(l.buckets, Settleable(a), Fixed(amount), Consumed, i);
        ShareBounds(l.buckets, Settleable(a), Fixed(amount), i);
      }
      KeysSurvive(l.buckets, l.log, after.buckets, after.log[|l.log|]);
    }
  }

  lemma ReleaseKeepsKeys(l: Ledger, scope: Scope, id: nat, key: string)
    requires Keyed(l) && Bound(l.accounts, l.reservations)
    ensures Keyed(Release(l, scope, id, key).ledger)
  {
    var after := Release(l, scope, id, key).ledger;
    if after != l {
      AppendKeepsKeys(l.log, after.log[|l.log|]);
      KeysSurvive(l.buckets, l.log, after.buckets, after.log[|l.log|]);
    }
  }

  lemma ReservationKeepsKeys(l: Ledger, scope: Scope, r: ReserveInput, a: nat)
    requires Keyed(l) && a < |l.accounts| && FindEntry(l.log, scope, ClientKey(r.key)).None?
    ensures Keyed(BookReservation(l, scope, r, a))
  {
    var after := BookReservation(l, scope, r, a);
    AppendKeepsKeys(l.log, after.log[|l.log|]);
    KeysSurvive(l.buckets, l.log, after.buckets, after.log[|l.log|]);
  }

  /** `e` is the entry of row i, and row i gave something up. */
  ghost predicate FromRow(l: Ledger, rows: Rows, why: Retirement, i: nat, e: Entry)
    requires Walkable(l) && i < |l.buckets|
  {
    Share(l.buckets, rows, Budget.Available(Balances(l.accounts)), i) != 0 && e == BucketEntry(l, rows, why, i)
  }

  /** Each entry of a walk is the entry of one row that gave something up. */
  lemma {:induction false} EntriesComeFromRows(l: Ledger, rows: Rows, why: Retirement, n: nat)
    requires Walkable(l) && n <= |l.buckets|
    ensures forall e :: e in RetirementEntries(l, rows, why, n) ==> exists i ::
              0 <= i < n && FromRow(l, rows, why, i, e)
  {
    if 0 < n {
      EntriesComeFromRows(l, rows, why, n - 1);
      forall e | e in RetirementEntries(l, rows, why, n)
        ensures exists i :: 0 <= i < n && FromRow(l, rows, why, i, e)
      {
        if e !in RetirementEntries(l, rows, why, n - 1) {
          assert FromRow(l, rows, why, n - 1, e);
        }
      }
    }
  }

  /** Two rows book under different stage keys. */
  lemma RowsBookApart(l: Ledger, rows: Rows, why: Retirement, i: nat, n: nat, other: Entry, e: Entry)
    requires Walkable(l) && DistinctIds(l.buckets) && i < n < |l.buckets|
    requires FromRow(l, rows, why, i, other) && FromRow(l, rows, why, n, e)
    ensures other.key != e.key
  {
    assert l.buckets[i].id != l.buckets[n].id;
    hide Walkable, DistinctIds, Share;
  }

  /** The log's stage keys for a row lie above what the row still holds. */
  lemma OldKeysLieAbove(l: Ledger, rows: Rows, why: Retirement, n: nat, e: Entry, x: nat)
    requires Walkable(l) && Keyed(l) && n < |l.buckets| && FromRow(l, rows, why, n, e) && x < |l.log|
    ensures l.log[x].key != e.key
  {
    hide UniqueKeys, Issued, Share, WellFormed, Solvent;
  }

  /** The stage key of a row that gives something up is not in the log. */
  lemma StageKeyIsFresh(l: Ledger, rows: Rows, why: Retirement, n: nat, e: Entry, x: nat)
    requires Walkable(l) && Keyed(l) && DistinctIds(l.buckets) && n < |l.buckets| && FromRow(l, rows, why, n, e)
    requires x < |l.log + RetirementEntries(l, rows, why, n)|
    ensures (l.log + RetirementEntries(l, rows, why, n))[x].key != e.key
  {
    hide Walkable, Keyed, DistinctIds, FromRow, RetirementEntries;
    if x < |l.log| {
      OldKeysLieAbove(l, rows, why, n, e, x);
    } else {
      var other := RetirementEntries(l, rows, why, n)[x - |l.log|];
      EntriesComeFromRows(l, rows, why, n);
      assert other in RetirementEntries(l, rows, why, n);
      var i :| 0 <= i < n && FromRow(l, rows, why, i, other);
      RowsBookApart(l, rows, why, i, n, other, e);
    }
  }

  lemma WalkAppends(l: Ledger, rows: Rows, why: Retirement, n: nat)
    requires Walkable(l) && n < |l.buckets|
    ensures var log := l.log + RetirementEntries(l, rows, why, n); var e := BucketEntry(l, rows, why, n);
            l.log + RetirementEntries(l, rows, why, n + 1) == if FromRow(l, rows, why, n, e) then log + [e] else log
  {
  }

  lemma NothingBookedYet(l: Ledger, rows: Rows, why: Retirement)
    requires Walkable(l) && Keyed(l)
    ensures l.log + RetirementEntries(l, rows, why, 0) == l.log && UniqueKeys(l.log)
  {
  }

  /** No stage key of a walk is taken: the log's keys for a row lie above what the row still holds. */
  lemma {:induction false} WalkKeepsUniqueKeys(l: Ledger, rows: Rows, why: Retirement, n: nat)
    requires Walkable(l) && Keyed(l) && DistinctIds(l.buckets) && n <= |l.buckets|
    ensures UniqueKeys(l.log + RetirementEntries(l, rows, why, n))
  {
    hide Walkable, Keyed, UniqueKeys, DistinctIds, FromRow, RetirementEntries;
    if n == 0 {
      NothingBookedYet(l, rows, why);
    } else {
      WalkKeepsUniqueKeys(l, rows, why, n - 1);
      WalkAppends(l, rows, why, n - 1);
      var log := l.log + RetirementEntries(l, rows, why, n - 1);
      var e := BucketEntry(l, rows, why, n - 1);
      if FromRow(l, rows, why, n - 1, e) {
        forall x | 0 <= x < |log| ensures log[x].key != e.key {
          StageKeyIsFresh(l, rows, why, n - 1, e, x);
        }
        FreshKeepsKeys(log, e);
      }
    }
  }

  /** After a walk every row that gave something up holds less than the amount in its stage key. */
  lemma WalkPassesStages(l: Ledger, rows: Rows, why: Retirement, e: Entry, i: nat)
    requires Walkable(l) && DistinctIds(l.buckets) && i < |l.buckets|
    requires e in RetirementEntries(l, rows, why, |l.buckets|)
    ensures StageKey(e.key) && e.key.bucket < |l.buckets|
    ensures l.buckets[i].id == e.key.bucket ==> Retire(l, rows, why).buckets[i].remaining < e.key.before
  {
    EntriesComeFromRows(l, rows, why, |l.buckets|);
    var j :| 0 <= j < |l.buckets| && FromRow(l, rows, why, j, e);
    assert l.buckets[j].id < |l.buckets|;
    if l.buckets[i].id == e.key.bucket {
      assert i == j;
      ShareBounds(l.buckets, rows, Budget.Available(Balances(l.accounts)), i);
    }
  }

  lemma WalkKeepsRows(l: Ledger, rows: Rows, why: Retirement, i: nat)
    requires Walkable(l) && i < |l.buckets|
    ensures var after := Retire(l, rows, why).buckets[i]; var b := l.buckets[i];
            after.(remaining := b.remaining, status := b.status) == b && after.remaining <= b.remaining
  {
    DrawnRow(l.buckets, rows, Budget.Available(Balances(l.accounts)), why.Status(), i);
    ShareBounds(l.buckets, rows, Budget.Available(Balances(l.accounts)), i);
  }

  lemma WalkKeepsIssued(l: Ledger, rows: Rows, why: Retirement)
    requires Walkable(l) && Issued(l.buckets, l.log)
    ensures Issued(Retire(l, rows, why).buckets, Retire(l, rows, why).log)
  {
    forall i | 0 <= i < |l.buckets|
      ensures IssuedBy(Retire(l, rows, why).buckets[i], Retire(l, rows, why).log)
      ensures Retire(l, rows, why).buckets[i].transaction == l.buckets[i].transaction
    {
      WalkKeepsRows(l, rows, why, i);
      assert IssuedBy(l.buckets[i], l.log);
    }
  }

  lemma RetireKeepsKeys(l: Ledger, rows: Rows, why: Retirement)
    requires Walkable(l) && Keyed(l) && DistinctIds(l.buckets)
    ensures Keyed(Retire(l, rows, why))
  {
    var after := Retire(l, rows, why);
    WalkKeepsUniqueKeys(l, rows, why, |l.buckets|);
    WalkKeepsIssued(l, rows, why);
    forall e | 0 <= e < |after.log| && StageKey(after.log[e].key)
      ensures after.log[e].key.bucket < |after.buckets|
      ensures forall i :: 0 <= i < |after.buckets| && after.buckets[i].id == after.log[e].key.bucket
                          ==> after.buckets[i].remaining < after.log[e].key.before
    {
      if |l.buckets| != 0 && |l.log| <= e {
        WalkPassesStages(l, rows, why, after.log[e], 0);
      }
      forall i | 0 <= i < |after.buckets| && after.buckets[i].id == after.log[e].key.bucket
        ensures after.buckets[i].remaining < after.log[e].key.before
      {
        WalkKeepsRows(l, rows, why, i);
        if |l.log| <= e {
          WalkPassesStages(l, rows, why, after.log[e], i);
        }
      }
    }
  }
}
