/**
 * The balance invariant of the ledger and its preservation by every booking:
 * the active buckets of an account hold exactly available + reserved, and what
 * is reserved is exactly what its open reservations claim.
 */
module CreditBalances {
  import opened CreditSchema
  import opened CreditBuckets
  import opened CreditService

  function Claimed(v: Reservation, account: nat): int {
    if v.account == account && v.status.Open? then v.amount else 0
  }

  function OpenSumTo(rows: seq<Reservation>, account: nat, n: nat): int
    requires n <= |rows|
  {
    if n == 0 then 0 else OpenSumTo(rows, account, n - 1) + Claimed(rows[n - 1], account)
  }

  function OpenSum(rows: seq<Reservation>, account: nat): int {
    OpenSumTo(rows, account, |rows|)
  }

  ghost predicate Reservable(rows: seq<Reservation>) {
    forall v :: 0 <= v < |rows| ==> 0 < rows[v].amount && 0 <= rows[v].captured <= rows[v].amount
  }

  ghost predicate Backed(accounts: seq<Account>, buckets: seq<Bucket>) {
    forall a :: 0 <= a < |accounts| ==> ActiveSum(buckets, a) == accounts[a].available + accounts[a].reserved
  }

  ghost predicate Committed(accounts: seq<Account>, reservations: seq<Reservation>) {
    forall a :: 0 <= a < |accounts| ==> accounts[a].reserved == OpenSum(reservations, a)
  }

  ghost predicate Balanced(l: Ledger) {
    && Walkable(l)
    && Canonical(l.buckets) && DistinctIds(l.buckets)
    && Bound(l.accounts, l.reservations) && Reservable(l.reservations)
    && Backed(l.accounts, l.buckets)
    && Committed(l.accounts, l.reservations)
  }

  // ---- sums over reservations ----

  lemma {:induction false} OpenSumAgrees(xs: seq<Reservation>, ys: seq<Reservation>, account: nat, n: nat)
    requires n <= |xs| && n <= |ys|
    requires forall v :: 0 <= v < n ==> Claimed(xs[v], account) == Claimed(ys[v], account)
    ensures OpenSumTo(xs, account, n) == OpenSumTo(ys, account, n)
  {
    if 0 < n {
      OpenSumAgrees(xs, ys, account, n - 1);
    }
  }

  lemma {:induction false} OpenSumUpdate(rows: seq<Reservation>, v: nat, row: Reservation, account: nat, n: nat)
    requires v < n <= |rows|
    ensures OpenSumTo(rows[v := row], account, n)
            == OpenSumTo(rows, account, n) - Claimed(rows[v], account) + Claimed(row, account)
  {
    if v < n - 1 {
      OpenSumUpdate(rows, v, row, account, n - 1);
    } else {
      OpenSumAgrees(rows[v := row], rows, account, n - 1);
    }
  }

  lemma {:induction false} OpenSumCovers(rows: seq<Reservation>, account: nat, n: nat)
    requires Reservable(rows) && n <= |rows|
    ensures 0 <= OpenSumTo(rows, account, n)
    ensures forall v :: 0 <= v < n ==> Claimed(rows[v], account) <= OpenSumTo(rows, account, n)
  {
    if 0 < n {
      OpenSumCovers(rows, account, n - 1);
    }
  }

  lemma {:induction false} NothingOpen(rows: seq<Reservation>, account: nat, n: nat)
    requires n <= |rows| && forall v :: 0 <= v < n ==> rows[v].account != account
    ensures OpenSumTo(rows, account, n) == 0
  {
    if 0 < n {
      NothingOpen(rows, account, n - 1);
    }
  }

  lemma {:induction false} NothingHeld(buckets: seq<Bucket>, rows: Rows, account: nat, n: nat)
    requires n <= |buckets| && forall i :: 0 <= i < n ==> buckets[i].account != account
    ensures SumTo(buckets, rows, account, n) == 0
  {
    if 0 < n {
      NothingHeld(buckets, rows, account, n - 1);
    }
  }

  // ---- bookings ----

  lemma RetireKeepsBacking(l: Ledger, rows: Rows, why: Retirement, a: nat)
    requires Walkable(l) && Backed(l.accounts, l.buckets) && a < |l.accounts|
    ensures var after := Retire(l, rows, why);
            ActiveSum(after.buckets, a) == after.accounts[a].available + after.accounts[a].reserved
  {
    DrawnSum(l.buckets, rows, Budget.Available(Balances(l.accounts)), why.Status(), Settleable(a), a, |l.buckets|);
  }

  lemma DrawnStaysLinked(accounts: seq<Account>, buckets: seq<Bucket>, rows: Rows, budget: Budget,
                         drained: BucketStatus)
    requires WellFormed(buckets) && Linked(accounts, buckets) && Covered(buckets, budget) && !drained.Active?
    ensures Linked(accounts, Drawn(buckets, rows, budget, drained))
  {
    forall i | 0 <= i < |buckets|
      ensures var after := Drawn(buckets, rows, budget, drained)[i];
              after.account == buckets[i].account && after.scope == buckets[i].scope
    {
      DrawnRow(buckets, rows, budget, drained, i);
    }
  }

  lemma RetireStaysWalkable(l: Ledger, rows: Rows, why: Retirement)
    requires Walkable(l)
    ensures Walkable(Retire(l, rows, why))
  {
    hide WellFormed, Canonical, DistinctIds, SumTo, Drawn;
    var budget := Budget.Available(Balances(l.accounts));
    DrawnIsWellFormed(l.buckets, rows, budget, why.Status());
    DrawnStaysLinked(l.accounts, l.buckets, rows, budget, why.Status());
  }

  lemma RetireKeepsOrder(l: Ledger, rows: Rows, why: Retirement)
    requires Walkable(l) && Canonical(l.buckets) && DistinctIds(l.buckets)
    ensures Canonical(Retire(l, rows, why).buckets) && DistinctIds(Retire(l, rows, why).buckets)
  {
    hide WellFormed, Canonical, DistinctIds, SumTo, Drawn;
    DrawnIsWellFormed(l.buckets, rows, Budget.Available(Balances(l.accounts)), why.Status());
  }

  lemma RetireKeepsBalance(l: Ledger, rows: Rows, why: Retirement)
    requires Balanced(l)
    ensures Balanced(Retire(l, rows, why))
  {
    hide Walkable, Canonical, DistinctIds, SumTo, OpenSumTo, Drawn;
    var after := Retire(l, rows, why);
    RetireStaysWalkable(l, rows, why);
    RetireKeepsOrder(l, rows, why);
    forall a | 0 <= a < |l.accounts|
      ensures ActiveSum(after.buckets, a) == after.accounts[a].available + after.accounts[a].reserved
    {
      RetireKeepsBacking(l, rows, why, a);
    }
    assert Committed(after.accounts, after.reservations);
    assert Bound(after.accounts, after.reservations);
  }

  /** The sums of an account the tables do not have yet are zero. */
  lemma NothingOfNewAccount(l: Ledger)
    requires Balanced(l)
    ensures ActiveSum(l.buckets, |l.accounts|) == 0 && OpenSum(l.reservations, |l.accounts|) == 0
  {
    NothingHeld(l.buckets, Settleable(|l.accounts|), |l.accounts|, |l.buckets|);
    NothingOpen(l.reservations, |l.accounts|, |l.reservations|);
  }

  lemma GrantAddsToOne(l: Ledger, scope: Scope, g: GrantInput, now: Time, c: nat)
    requires Balanced(l) && 0 < g.amount && c < |BookGrant(l, scope, g, now).accounts|
    ensures var after := BookGrant(l, scope, g, now);
            && ActiveSum(after.buckets, c) == after.accounts[c].available + after.accounts[c].reserved
            && after.accounts[c].reserved == OpenSum(after.reservations, c)
  {
    hide Canonical, DistinctIds, WellFormed, Linked, Bound, Reservable;
    var (_, a) := EnsureAccount(l.accounts, scope, g.customer, g.creditType);
    var b := NewBucket(l, scope, a, g, now);
    SumAfterInsert(l.buckets, b, Position(l.buckets, b), Settleable(c), c, |l.buckets|);
    assert ActiveSum(InsertRow(l.buckets, b), c) == ActiveSum(l.buckets, c) + if c == a then g.amount else 0;
    NothingOfNewAccount(l);
  }

  lemma GrantKeepsRows(l: Ledger, scope: Scope, g: GrantInput, now: Time)
    requires Balanced(l) && 0 < g.amount
    ensures var after := BookGrant(l, scope, g, now);
            Walkable(after) && Canonical(after.buckets) && DistinctIds(after.buckets)
  {
    var (accounts, a) := EnsureAccount(l.accounts, scope, g.customer, g.creditType);
    var b := NewBucket(l, scope, a, g, now);
    var after := BookGrant(l, scope, g, now);
    InsertKeepsOrder(l.buckets, b);
    var k := Position(l.buckets, b);
    forall i | 0 <= i < |after.buckets|
      ensures WellFormedRow(after.buckets[i])
      ensures after.buckets[i].account < |after.accounts|
      ensures after.buckets[i].scope == after.accounts[after.buckets[i].account].scope
    {
      assert after.buckets[i] == if i < k then l.buckets[i] else if i == k then b else l.buckets[i - 1];
    }
  }

  lemma GrantKeepsBalance(l: Ledger, scope: Scope, g: GrantInput, now: Time)
    requires Balanced(l) && 0 < g.amount
    ensures Balanced(BookGrant(l, scope, g, now))
  {
    var after := BookGrant(l, scope, g, now);
    GrantKeepsRows(l, scope, g, now);
    forall c | 0 <= c < |after.accounts|
      ensures ActiveSum(after.buckets, c) == after.accounts[c].available + after.accounts[c].reserved
      ensures after.accounts[c].reserved == OpenSum(after.reservations, c)
    {
      GrantAddsToOne(l, scope, g, now, c);
    }
  }

  /** Taking an amount from the active rows of one account leaves every other account's rows alone. */
  lemma ConsumeMoves(accounts: seq<Account>, buckets: seq<Bucket>, rows: Rows, account: nat, amount: int)
    requires WellFormed(buckets) && Linked(accounts, buckets)
    requires rows.Spendable? || rows.Settleable?
    requires rows.account == account && 0 < amount <= Sum(buckets, rows, account)
    ensures var after := Drawn(buckets, rows, Fixed(amount), Consumed);
            && WellFormed(after) && Linked(accounts, after)
            && (Canonical(buckets) ==> Canonical(after)) && (DistinctIds(buckets) ==> DistinctIds(after))
            && (forall a :: 0 <= a < |accounts| ==>
                  ActiveSum(after, a) == ActiveSum(buckets, a) - if a == account then amount else 0)
  {
    hide Canonical, DistinctIds, SumTo, WellFormedRow;
    var after := Drawn(buckets, rows, Fixed(amount), Consumed);
    DrawnIsWellFormed(buckets, rows, Fixed(amount), Consumed);
    DrawnStaysLinked(accounts, buckets, rows, Fixed(amount), Consumed);
    forall a | 0 <= a < |accounts|
      ensures ActiveSum(after, a) == ActiveSum(buckets, a) - if a == account then amount else 0
    {
      DrawnSum(buckets, rows, Fixed(amount), Consumed, Settleable(a), a, |buckets|);
      if a != account {
        NothingPicked(buckets, rows, a, |buckets|);
      }
    }
  }

  lemma {:induction false} NothingPicked(buckets: seq<Bucket>, rows: Rows, account: nat, n: nat)
    requires n <= |buckets| && (rows.Spendable? || rows.Settleable? || rows.DueIn?) && rows.account != account
    ensures SumTo(buckets, rows, account, n) == 0
  {
    if 0 < n {
      NothingPicked(buckets, rows, account, n - 1);
    }
  }

  lemma DebitKeepsBalance(l: Ledger, scope: Scope, d: DebitInput, now: Time)
    requires Balanced(l)
    ensures Balanced(Debit(l, scope, d, now).ledger)
  {
    var after := Debit(l, scope, d, now).ledger;
    if after != l {
      var a := FindAccount(l.accounts, scope, d.customer, d.creditType).value;
      ConsumeMoves(l.accounts, l.buckets, Spendable(a, now), a, d.amount);
    }
  }

  lemma ReservationKeepsBalance(l: Ledger, scope: Scope, r: ReserveInput, a: nat)
    requires Balanced(l) && a < |l.accounts| && l.accounts[a].scope == scope
    requires 0 < r.amount <= l.accounts[a].available
    ensures Balanced(BookReservation(l, scope, r, a))
  {
    var after := BookReservation(l, scope, r, a);
    forall c | 0 <= c < |after.accounts|
      ensures after.accounts[c].reserved == OpenSum(after.reservations, c)
    {
      OpenSumAgrees(l.reservations, after.reservations, c, |l.reservations|);
    }
    forall c | 0 <= c < |after.accounts|
      ensures ActiveSum(after.buckets, c) == after.accounts[c].available + after.accounts[c].reserved
    {
    }
  }

  /** An open reservation is always covered by its account's reserved balance. */
  lemma OpenIsReserved(l: Ledger, id: nat)
    requires Balanced(l) && id < |l.reservations| && l.reservations[id].status.Open?
    ensures l.reservations[id].amount <= l.accounts[l.reservations[id].account].reserved
    ensures l.reservations[id].amount <= ActiveSum(l.buckets, l.reservations[id].account)
  {
    var a := l.reservations[id].account;
    OpenSumCovers(l.reservations, a, |l.reservations|);
    assert Claimed(l.reservations[id], a) <= OpenSum(l.reservations, a);
  }

  lemma CaptureMovesOne(l: Ledger, scope: Scope, id: nat, amount: int, key: string, c: nat)
    requires Balanced(l) && id < |l.reservations| && l.reservations[id].status.Open? && c < |l.accounts|
    requires 0 < amount <= l.reservations[id].amount
    ensures var a := l.reservations[id].account;
            && amount <= ActiveSum(l.buckets, a)
            && var after := BookCapture(l, scope, id, amount, key,
                                        Drawn(l.buckets, Settleable(a), Fixed(amount), Consumed));
               && ActiveSum(after.buckets, c) == after.accounts[c].available + after.accounts[c].reserved
               && after.accounts[c].reserved == OpenSum(after.reservations, c)
               && 0 <= after.accounts[c].available && 0 <= after.accounts[c].reserved
  {
    var a := l.reservations[id].account;
    OpenIsReserved(l, id);
    ConsumeMoves(l.accounts, l.buckets, Settleable(a), a, amount);
    OpenSumUpdate(l.reservations, id, l.reservations[id].(status := Captured, captured := amount), c, |l.reservations|);
  }

  lemma CaptureKeepsRows(l: Ledger, scope: Scope, id: nat, amount: int, key: string)
    requires Balanced(l) && id < |l.reservations| && l.reservations[id].status.Open?
    requires 0 < amount <= l.reservations[id].amount && amount <= ActiveSum(l.buckets, l.reservations[id].account)
    ensures var a := l.reservations[id].account;
            var after := BookCapture(l, scope, id, amount, key,
                                     Drawn(l.buckets, Settleable(a), Fixed(amount), Consumed));
            && WellFormed(after.buckets) && Linked(after.accounts, after.buckets)
            && Canonical(after.buckets) && DistinctIds(after.buckets)
            && Bound(after.accounts, after.reservations) && Reservable(after.reservations)
  {
    hide Drawn, WellFormed, Canonical, DistinctIds, Backed, Committed, SumTo;
    var a := l.reservations[id].account;
    ConsumeMoves(l.accounts, l.buckets, Settleable(a), a, amount);
  }

  lemma CaptureBooksBalance(l: Ledger, scope: Scope, id: nat, amount: int, key: string)
    requires Balanced(l) && id < |l.reservations| && l.reservations[id].status.Open?
    requires 0 < amount <= l.reservations[id].amount && amount <= ActiveSum(l.buckets, l.reservations[id].account)
    ensures var a := l.reservations[id].account;
            Balanced(BookCapture(l, scope, id, amount, key, Drawn(l.buckets, Settleable(a), Fixed(amount), Consumed)))
  {
    var a := l.reservations[id].account;
    var after := BookCapture(l, scope, id, amount, key, Drawn(l.buckets, Settleable(a), Fixed(amount), Consumed));
    CaptureKeepsRows(l, scope, id, amount, key);
    hide Drawn, WellFormed, Canonical, DistinctIds, Linked, Bound, Reservable;
    forall c | 0 <= c < |l.accounts|
      ensures ActiveSum(after.buckets, c) == after.accounts[c].available + after.accounts[c].reserved
      ensures after.accounts[c].reserved == OpenSum(after.reservations, c)
      ensures 0 <= after.accounts[c].available && 0 <= after.accounts[c].reserved
    {
      CaptureMovesOne(l, scope, id, amount, key, c);
    }
  }

  lemma CaptureKeepsBalance(l: Ledger, scope: Scope, id: nat, amount: int, key: string)
    requires Balanced(l)
    ensures Balanced(Capture(l, scope, id, amount, key).ledger)
  {
    if Capture(l, scope, id, amount, key).ledger != l {
      CaptureBooksBalance(l, scope, id, amount, key);
    }
  }

  lemma ReleaseKeepsBalance(l: Ledger, scope: Scope, id: nat, key: string)
    requires Balanced(l)
    ensures Balanced(Release(l, scope, id, key).ledger)
  {
    var after := Release(l, scope, id, key).ledger;
    if after != l {
      OpenIsReserved(l, id);
      forall c | 0 <= c < |after.accounts|
        ensures after.accounts[c].reserved == OpenSum(after.reservations, c)
      {
        OpenSumUpdate(l.reservations, id, after.reservations[id], c, |l.reservations|);
      }
      forall c | 0 <= c < |after.accounts|
        ensures ActiveSum(after.buckets, c) == after.accounts[c].available + after.accounts[c].reserved
      {
      }
    }
  }

  lemma ReserveKeepsBalance(l: Ledger, scope: Scope, r: ReserveInput, now: Time)
    requires Balanced(l)
    ensures Balanced(Reserve(l, scope, r, now).ledger)
  {
    var after := Reserve(l, scope, r, now).ledger;
    if after != l {
      var a := FindAccount(l.accounts, scope, r.customer, r.creditType).value;
      RetireKeepsBalance(l, DueIn(l.accounts[a].scope, a, now), Expiry);
      var clean := ExpireAccount(l, a, now);
      if after != clean {
        ReservationKeepsBalance(clean, scope, r, a);
      }
    }
  }
}
