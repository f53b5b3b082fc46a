/**
 * The credit tables as the service changes them: rows updated one statement at
 * a time, loops over buckets, and a rollback when a transaction throws. Every
 * method is proved to compute what CreditService says.
 */
module CreditStore {
  import opened Wrappers
  import opened CreditSchema
  import opened CreditBuckets
  import opened CreditService
  import opened CreditWalks

  class Store {
    var accounts: seq<Account>
    var buckets: seq<Bucket>
    var reservations: seq<Reservation>
    var log: seq<Entry>

    function Tables(): Ledger
      reads this
    {
      Ledger(accounts, buckets, reservations, log)
    }

    constructor ()
      ensures Tables() == EMPTY_LEDGER
    {
      accounts, buckets, reservations, log := [], [], [], [];
    }

    /** consumeBuckets. Returns false where the source throws; the caller rolls back. */
    method ConsumeBuckets(account: nat, amount: int, rows: Rows) returns (ok: bool)
      requires WellFormed(buckets) && (rows.Spendable? || rows.Settleable?) && rows.account == account
      modifies this`buckets
      ensures ok <==> Consume(old(buckets), rows, account, amount).Some?
      ensures ok ==> buckets == Consume(old(buckets), rows, account, amount).value
    {
      if amount <= 0 {
        return true;
      }
      ghost var before := buckets;
      var left := amount;
      var i := 0;
      while i < |buckets| && 0 < left
        invariant i <= |buckets| == |before|
        invariant i == 0 || SumTo(before, rows, account, i - 1) < amount
        invariant Consuming(buckets, left) == ConsumeWalk(before, rows, amount, i)
      {
        ConsumeWalkGoesOn(before, rows, account, amount, i);
        var b := buckets[i];
        if Picks(rows, b) {
          var take := Min(b.remaining, left);
          left := left - take;
          var next := b.remaining - take;
          buckets := buckets[i := b.(remaining := next, status := if next == 0 then Consumed else Active)];
        }
        i := i + 1;
      }
      ConsumeWalkEnds(before, rows, account, amount, i);
      ok := left <= 0;
    }

    /** The body shared by both expiries: what happens to one due bucket under the account lock. */
    method ExpireBucket(i: nat, now: Time)
      requires i < |buckets| && buckets[i].account < |accounts|
      requires 0 <= accounts[buckets[i].account].available
      modifies this
      ensures Tables() == RetireAny(old(Tables()), i, Expiry)
    {
      var bucket := buckets[i];
      var reversible := Min(bucket.remaining, accounts[bucket.account].available);
      if reversible <= 0 {
        return;
      }
      var id := |log|;
      log := log + [Entry(bucket.scope, accounts[bucket.account].customer, bucket.account, GrantExpired, -reversible,
                          0, 0,
                          "expiration", BucketSourceRow(bucket.id), ExpiryKey(bucket.id, bucket.remaining), None)];
      var updated := accounts[bucket.account].(available := Max(accounts[bucket.account].available - reversible, 0));
      accounts := accounts[bucket.account := updated];
      log := log[id := log[id].(availableAfter := updated.available, reservedAfter := updated.reserved)];
      var next := bucket.remaining - reversible;
      buckets := buckets[i := bucket.(remaining := next, status := if next == 0 then BucketStatus.Expired else Active)];
    }

    /** expireDueBucketsForAccount, run by the holder of the account lock. */
    method ExpireDueBucketsForAccount(scope: Scope, account: nat, now: Time)
      requires Walkable(Tables()) && account < |accounts| && accounts[account].scope == scope
      modifies this
      ensures Tables() == ExpireAccount(old(Tables()), account, now)
    {
      ghost var before := Tables();
      var i := 0;
      while i < |buckets|
        invariant i <= |buckets| == |before.buckets|
        invariant Tables() == Walk(before, DueIn(scope, account, now), Expiry, i)
      {
        WalkFinds(before, DueIn(scope, account, now), Expiry, i);
        ExpireIfDue(i, scope, account, now);
        i := i + 1;
      }
      WalkRetires(before, DueIn(scope, account, now), Expiry);
    }

    /** One round of that loop. */
    method ExpireIfDue(i: nat, scope: Scope, account: nat, now: Time)
      requires i < |buckets| && buckets[i].account < |accounts| && 0 <= accounts[buckets[i].account].available
      modifies this
      ensures Tables() == StepRow(old(Tables()), i, DueIn(scope, account, now), Expiry)
      ensures |buckets| == old(|buckets|)
    {
      if Picks(DueIn(scope, account, now), buckets[i]) {
        ExpireBucket(i, now);
      }
    }

    /** expireDueCreditBuckets: an unlocked scan, then one transaction per bucket found. */
    method ExpireDueCreditBuckets(now: Time)
      requires Walkable(Tables())
      modifies this
      ensures Tables() == Sweep(old(Tables()), now)
    {
      ghost var before := Tables();
      var scanned := buckets;
      var i := 0;
      while i < |scanned|
        invariant i <= |scanned| == |buckets| && scanned == before.buckets
        invariant Tables() == Walk(before, DueAnywhere(now), Expiry, i)
      {
        WalkFinds(before, DueAnywhere(now), Expiry, i);
        ExpireScanned(scanned[i], i, now);
        i := i + 1;
      }
      WalkRetires(before, DueAnywhere(now), Expiry);
    }

    /**
     * The transaction for one scanned bucket. The row may have changed since
     * the scan; under the account lock it is looked at again, except for its
     * expiry, which never changes.
     */
    method ExpireScanned(scanned: Bucket, i: nat, now: Time)
      requires i < |buckets| && buckets[i].account < |accounts| && 0 <= accounts[buckets[i].account].available
      requires Kept(scanned, buckets[i])
      modifies this
      ensures Tables()
              == if Picks(DueAnywhere(now), scanned) then StepRow(old(Tables()), i, DueAnywhere(now), Expiry)
                else old(Tables())
      ensures |buckets| == old(|buckets|)
    {
      if Picks(DueAnywhere(now), scanned) {
        var current := buckets[i];
        if current.status.Active? && 0 < current.remaining {
          ExpireBucket(i, now);
        }
      }
    }

    /** The three statements that take `take` from one locked bucket. */
    method RevokeFromBucket(i: nat, scope: Scope, subscription: string, take: int)
      requires i < |buckets| && buckets[i].account < |accounts| && buckets[i].scope == scope && 0 < take
      modifies this
      ensures Tables() == RetireRow(old(Tables()), i, Clawback(subscription), take)
    {
      var bucket := buckets[i];
      buckets := buckets[i := bucket.(remaining := bucket.remaining - take,
                                      status := if take == bucket.remaining then Reversed else Active)];
      var account := accounts[bucket.account].(available := accounts[bucket.account].available - take);
      accounts := accounts[bucket.account := account];
      log := log + [Entry(scope, account.customer, bucket.account, GrantRevoked, -take,
                          account.available, account.reserved, "subscription", TextSource(subscription),
                          RevocationKey(subscription, bucket.id, bucket.remaining), None)];
    }

    /** What the balance read under the lock, less what was taken since, says is still available. */
    static function Allowance(availableByAccount: seq<int>, takenByAccount: map<nat, int>, account: nat): int
      requires account < |availableByAccount|
    {
      availableByAccount[account] - if account in takenByAccount then takenByAccount[account] else 0
    }

    /** One round of the clawback loop. */
    method RevokeBucket(i: nat, scope: Scope, subscription: string, availableByAccount: seq<int>,
                        takenByAccount: map<nat, int>)
      returns (take: int, taken: map<nat, int>)
      requires i < |buckets| && buckets[i].account < |accounts| == |availableByAccount|
      requires 0 <= accounts[buckets[i].account].available
      requires forall a :: 0 <= a < |accounts| ==>
                 accounts[a].available == Allowance(availableByAccount, takenByAccount, a)
      modifies this
      ensures Tables() == StepRow(old(Tables()), i, GrantedBy(scope, subscription), Clawback(subscription))
      ensures |accounts| == old(|accounts|) && |buckets| == old(|buckets|)
      ensures forall a :: 0 <= a < |accounts| ==> accounts[a].available == Allowance(availableByAccount, taken, a)
      ensures 0 <= take
      ensures take == old(accounts[buckets[i].account].available) - accounts[old(buckets[i].account)].available
    {
      take, taken := 0, takenByAccount;
      if Picks(GrantedBy(scope, subscription), buckets[i]) {
        var bucket := buckets[i];
        var alreadyTaken := if bucket.account in takenByAccount then takenByAccount[bucket.account] else 0;
        var allowance := Allowance(availableByAccount, takenByAccount, bucket.account);
        if 0 < allowance {
          take := Min(bucket.remaining, allowance);
          if 0 < take {
            RevokeFromBucket(i, scope, subscription, take);
            taken := takenByAccount[bucket.account := alreadyTaken + take];
          }
        }
      }
    }

    /**
     * revokeSubscriptionCreditsInTransaction. The balances are read once, when
     * the account rows are locked; what was taken since is kept in a map.
     */
    method RevokeSubscriptionCredits(scope: Scope, subscription: string) returns (revokedByType: map<string, int>)
      requires Walkable(Tables())
      modifies this
      ensures Tables() == RevokeSubscription(old(Tables()), scope, subscription)
      ensures forall t :: (if t in revokedByType then revokedByType[t] else 0)
                          == RevokedTo(old(Tables()), GrantedBy(scope, subscription), t, |old(buckets)|)
    {
      hide Walkable, StepRow, Share;
      ghost var before := Tables();
      var availableByAccount := Balances(accounts);
      var takenByAccount: map<nat, int> := map[];
      revokedByType := map[];
      var i := 0;
      while i < |buckets|
        invariant i <= |buckets| == |before.buckets| && |availableByAccount| == |accounts| == |before.accounts|
        invariant Tables() == Walk(before, GrantedBy(scope, subscription), Clawback(subscription), i)
        invariant forall a :: 0 <= a < |accounts| ==>
                    accounts[a].available == Allowance(availableByAccount, takenByAccount, a)
        invariant forall t ::
                    (if t in revokedByType then revokedByType[t] else 0)
                    == RevokedTo(before, GrantedBy(scope, subscription), t, i)
      {
        WalkTakes(before, GrantedBy(scope, subscription), Clawback(subscription), i);
        WalkFinds(before, GrantedBy(scope, subscription), Clawback(subscription), i);
        var creditType := accounts[buckets[i].account].creditType;
        var take;
        take, takenByAccount := RevokeBucket(i, scope, subscription, availableByAccount, takenByAccount);
        if 0 < take {
          var revoked := if creditType in revokedByType then revokedByType[creditType] else 0;
          revokedByType := revokedByType[creditType := revoked + take];
        }
        i := i + 1;
      }
      WalkRetires(before, GrantedBy(scope, subscription), Clawback(subscription));
    }

    /** grantCreditsInTransaction */
    method GrantCredits(scope: Scope, g: GrantInput, now: Time) returns (outcome: Outcome)
      modifies this
      ensures Done(Tables(), outcome) == Grant(old(Tables()), scope, g, now)
    {
      if !PositiveAmount(g.amount) {
        return Failure(InvalidAmount);
      }
      var existing := FindEntry(log, scope, g.key);
      if existing.Some? {
        var e := log[existing.value];
        if !Matches(e, g.kind, g.amount, g.customer, g.sourceType, g.sourceId) || e.expiry != g.expiresAt {
          return Failure(IdempotencyConflict);
        }
        return Success(Replayed(existing.value));
      }
      var found := FindAccount(accounts, scope, g.customer, g.creditType);
      var a;
      if found.Some? {
        a := found.value;
      } else {
        a := |accounts|;
        accounts := accounts + [Account(scope, g.customer, g.creditType, 0, 0)];
      }
      var updated := accounts[a].(available := accounts[a].available + g.amount);
      accounts := accounts[a := updated];
      var transaction := |log|;
      log := log + [Entry(scope, g.customer, a, g.kind, g.amount, updated.available, updated.reserved,
                          g.sourceType, TextSource(g.sourceId), g.key, g.expiresAt)];
      buckets := InsertRow(buckets, Bucket(|buckets|, scope, a, BucketSourceFor(g.kind), g.sourceId, transaction,
                                           g.amount, g.amount, g.expiresAt, now, Active));
      return Success(Recorded(transaction));
    }

    /** debitCreditsForApplicationCustomerInTransaction */
    method DebitCredits(scope: Scope, d: DebitInput, now: Time) returns (outcome: Outcome)
      requires WellFormed(buckets)
      modifies this
      ensures Done(Tables(), outcome) == Debit(old(Tables()), scope, d, now)
    {
      if !PositiveAmount(d.amount) {
        return Failure(InvalidAmount);
      }
      var existing := FindEntry(log, scope, ClientKey(d.key));
      if existing.Some? {
        if !Matches(log[existing.value], DebitUsage, -d.amount, d.customer, d.sourceType, d.sourceId) {
          return Failure(IdempotencyConflict);
        }
        return Success(Replayed(existing.value));
      }
      var found := FindAccount(accounts, scope, d.customer, d.creditType);
      if found.None? || accounts[found.value].available < d.amount {
        return Failure(InsufficientCredits);
      }
      var a := found.value;
      var savedAccounts, savedBuckets := accounts, buckets;
      var updated := accounts[a].(available := accounts[a].available - d.amount);
      accounts := accounts[a := updated];
      var ok := ConsumeBuckets(a, d.amount, Spendable(a, now));
      if !ok {
        accounts, buckets := savedAccounts, savedBuckets;
        return Failure(AllocationViolated);
      }
      log := log + [Entry(scope, d.customer, a, DebitUsage, -d.amount, updated.available, updated.reserved,
                          d.sourceType, TextSource(d.sourceId), ClientKey(d.key), None)];
      return Success(Recorded(|log| - 1));
    }

    /** reserveCredits: expiry and reservation in one transaction. */
    method ReserveCredits(scope: Scope, r: ReserveInput, now: Time) returns (outcome: Outcome)
      requires Walkable(Tables())
      modifies this
      ensures Done(Tables(), outcome) == Reserve(old(Tables()), scope, r, now)
    {
      if !PositiveAmount(r.amount) {
        return Failure(InvalidAmount);
      }
      var existing := FindReservation(reservations, scope, r.key);
      if existing.Some? {
        var v := reservations[existing.value];
        if v.customer != r.customer || v.amount != r.amount || v.referenceType != r.referenceType
          || v.referenceId != r.referenceId {
          return Failure(IdempotencyConflict);
        }
        return Success(ReservedBefore(existing.value));
      }
      var found := FindAccount(accounts, scope, r.customer, r.creditType);
      if found.None? {
        return Failure(InsufficientCredits);
      }
      var a := found.value;
      var savedAccounts, savedBuckets, savedReservations, savedLog := accounts, buckets, reservations, log;
      ExpireDueBucketsForAccount(scope, a, now);
      if accounts[a].available < r.amount {
        return Failure(InsufficientCredits);
      }
      var updated := accounts[a].(available := accounts[a].available - r.amount,
                                  reserved := accounts[a].reserved + r.amount);
      accounts := accounts[a := updated];
      var id := |reservations|;
      reservations := reservations
        + [Reservation(scope, r.customer, a, r.amount, 0, Open, r.referenceType, r.referenceId, r.key)];
      if FindEntry(log, scope, ClientKey(r.key)).Some? {
        accounts, buckets, reservations, log := savedAccounts, savedBuckets, savedReservations, savedLog;
        return Failure(UniqueViolation);
      }
      log := log + [Entry(scope, r.customer, a, ReserveUsage, -r.amount, updated.available, updated.reserved,
                          "reservation", ReservationSource(id), ClientKey(r.key), None)];
      return Success(Reserved(id));
    }

    /** captureReservation */
    method CaptureReservation(scope: Scope, id: nat, amount: int, key: string) returns (outcome: Outcome)
      requires WellFormed(buckets) && Bound(accounts, reservations)
      modifies this
      ensures Done(Tables(), outcome) == Capture(old(Tables()), scope, id, amount, key)
    {
      if !PositiveAmount(amount) {
        return Failure(InvalidAmount);
      }
      var existing := FindEntry(log, scope, ClientKey(key));
      if existing.Some? {
        var e := log[existing.value];
        if !e.kind.CaptureUsage? || e.source != ReservationSource(id) || e.amount != -amount {
          return Failure(IdempotencyConflict);
        }
        return Success(Replayed(existing.value));
      }
      var claim := LockReservation(Tables(), scope, id);
      if claim.Refused? {
        return Failure(claim.error);
      }
      var v := claim.row;
      if v.status.Captured? {
        return Success(SettledBefore(id));
      }
      if !v.status.Open? {
        return Failure(TerminalState);
      }
      if v.amount < amount {
        return Failure(CaptureExceedsReserved);
      }
      if accounts[v.account].reserved < v.amount {
        return Failure(BalanceInconsistent);
      }
      var savedAccounts, savedBuckets, savedReservations := accounts, buckets, reservations;
      var unused := v.amount - amount;
      var account := accounts[v.account].(available := accounts[v.account].available + unused,
                                          reserved := accounts[v.account].reserved - v.amount);
      accounts := accounts[v.account := account];
      reservations := reservations[id := v.(status := Captured, captured := amount)];
      var ok := ConsumeBuckets(v.account, amount, Settleable(v.account));
      if !ok {
        accounts, buckets, reservations := savedAccounts, savedBuckets, savedReservations;
        return Failure(AllocationViolated);
      }
      log := log + [Entry(scope, v.customer, v.account, CaptureUsage, -amount, account.available, account.reserved,
                          "reservation", ReservationSource(id), ClientKey(key), None)];
      return Success(Settled(id, |log| - 1));
    }

    /** releaseReservation */
    method ReleaseReservation(scope: Scope, id: nat, key: string) returns (outcome: Outcome)
      requires Bound(accounts, reservations)
      modifies this
      ensures Done(Tables(), outcome) == Release(old(Tables()), scope, id, key)
    {
      var existing := FindEntry(log, scope, ClientKey(key));
      if existing.Some? {
        var e := log[existing.value];
        if !e.kind.ReleaseUsage? || e.source != ReservationSource(id) {
          return Failure(IdempotencyConflict);
        }
        return Success(Replayed(existing.value));
      }
      var claim := LockReservation(Tables(), scope, id);
      if claim.Refused? {
        return Failure(claim.error);
      }
      var v := claim.row;
      if v.status.Released? {
        return Success(SettledBefore(id));
      }
      if !v.status.Open? {
        return Failure(TerminalState);
      }
      if accounts[v.account].reserved < v.amount {
        return Failure(BalanceInconsistent);
      }
      var account := accounts[v.account].(available := accounts[v.account].available + v.amount,
                                          reserved := accounts[v.account].reserved - v.amount);
      accounts := accounts[v.account := account];
      reservations := reservations[id := v.(status := Released)];
      log := log + [Entry(scope, v.customer, v.account, ReleaseUsage, v.amount, account.available, account.reserved,
                          "reservation", ReservationSource(id), ClientKey(key), None)];
      return Success(Settled(id, |log| - 1));
    }
  }
}
