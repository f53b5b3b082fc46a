/**
 * Expiry and clawback list their buckets before they hold a lock. With a
 * list that is up to date they leave what the service's expiry and clawback
 * leave; with a stale one they take what the listed rows still hold, as far
 * as the balance goes, and only from rows that are still due or still of the
 * subscription.
 */
module CreditCandidates {
  import opened Wrappers
  import opened CreditSchema
  import opened CreditBuckets
  import opened CreditService
  import opened CreditBalances
  import opened CreditWalks
  import opened CreditStatements
  import opened CreditAlone
  import opened CreditInterleavings
  import opened CreditConcurrency

  // ---- lists of candidates ----

  /** The scan: the picked rows among the first n of an account, in canonical order. */
  function CandidatesTo(buckets: seq<Bucket>, a: nat, rows: Rows, n: nat): seq<Candidate>
    requires n <= |buckets|
  {
    if n == 0 then []
    else
      CandidatesTo(buckets, a, rows, n - 1)
      + if Picks(rows, buckets[n - 1]) then [Candidate(a, buckets[n - 1].id)] else []
  }

  /** The candidates on one account. */
  function Own(cs: seq<Candidate>, a: nat): seq<Candidate> {
    if cs == [] then []
    else Own(cs[..|cs| - 1], a) + if cs[|cs| - 1].account == a then [cs[|cs| - 1]] else []
  }

  function Retired(cell: Cell, a: nat, cs: seq<Candidate>, why: Retirement): Cell {
    RetiredCell(cell, a, cs, why, |cs|)
  }

  lemma {:induction false} RetiredPrefix(cell: Cell, a: nat, cs: seq<Candidate>, c: Candidate, why: Retirement, j: nat)
    requires j <= |cs|
    ensures RetiredCell(cell, a, cs + [c], why, j) == RetiredCell(cell, a, cs, why, j)
  {
    hide RetireIn;
    if 0 < j {
      RetiredPrefix(cell, a, cs, c, why, j - 1);
    }
  }

  lemma RetiredAppend(cell: Cell, a: nat, cs: seq<Candidate>, c: Candidate, why: Retirement)
    ensures Retired(cell, a, cs + [c], why) == RetireIn(Retired(cell, a, cs, why), a, c, why)
  {
    hide RetireIn;
    RetiredPrefix(cell, a, cs, c, why, |cs|);
  }

  lemma LastOne(cs: seq<Candidate>)
    requires cs != []
    ensures cs == cs[..|cs| - 1] + [cs[|cs| - 1]]
  {
  }

  /** An account only notices its own candidates. */
  lemma {:induction false} OnlyOwnCount(cell: Cell, a: nat, cs: seq<Candidate>, why: Retirement)
    ensures Retired(cell, a, cs, why) == Retired(cell, a, Own(cs, a), why)
  {
    if cs != [] {
      var rest, c := cs[..|cs| - 1], cs[|cs| - 1];
      LastOne(cs);
      OnlyOwnCount(cell, a, rest, why);
      RetiredAppend(cell, a, rest, c, why);
      RetiredAppend(cell, a, Own(rest, a), c, why);
      hide Retired, RetireById;
      assert Own(rest, a) + [] == Own(rest, a);
    }
  }

  // ---- a list that is up to date ----

  lemma RowFound(buckets: seq<Bucket>, n: nat)
    requires DistinctIds(buckets) && n < |buckets|
    ensures RowOf(buckets, buckets[n].id) == Some(n)
  {
  }

  lemma SameIdsStayDistinct(before: seq<Bucket>, after: seq<Bucket>)
    requires DistinctIds(before) && |after| == |before| && forall i :: 0 <= i < |before| ==> after[i].id == before[i].id
    ensures DistinctIds(after)
  {
  }

  lemma DrawnToKeepsIds(buckets: seq<Bucket>, rows: Rows, budget: Budget, drained: BucketStatus, n: nat)
    requires Covered(buckets, budget) && n <= |buckets|
    ensures var after := DrawnTo(buckets, rows, budget, drained, n);
            |after| == |buckets| && forall i :: 0 <= i < |buckets| ==> after[i].id == buckets[i].id
  {
    hide Share;
  }

  lemma WalkKeepsIds(l: Ledger, rows: Rows, why: Retirement, n: nat)
    requires Whole(l) && n <= |l.buckets|
    ensures var after := Walk(l, rows, why, n);
            && |after.accounts| == 1 && |after.buckets| == |l.buckets|
            && DistinctIds(after.buckets)
            && (forall i :: 0 <= i < |l.buckets| ==> after.buckets[i].id == l.buckets[i].id)
  {
    WholeParts(l);
    assert DistinctIds(l.buckets);
    WalkIsClosedForm(l, rows, why, n);
    DrawnToKeepsIds(l.buckets, rows, Budget.Available(Balances(l.accounts)), why.Status(), n);
    hide Whole, Balanced, WellFormed, Canonical, DistinctIds, RetirementEntries, Share, DrawnTo, Walk;
    SameIdsStayDistinct(l.buckets, RetiredTo(l, rows, why, n).buckets);
  }

  /** A row found again by its id is retired as the service's loop retires it. */
  lemma FoundRowIsRetired(cur: Ledger, a: nat, n: nat, why: Retirement)
    requires |cur.accounts| == 1 && n < |cur.buckets| && RowOf(cur.buckets, cur.buckets[n].id) == Some(n)
    requires WellFormedRow(cur.buckets[n]) && cur.buckets[n].status.Active? && cur.buckets[n].account == 0
    requires 0 <= cur.accounts[0].available
    ensures RetireIn(AccountRows(Unlogged(cur)), a, Candidate(a, cur.buckets[n].id), why)
            == AccountRows(Unlogged(RetireAny(cur, n, why)))
  {
    hide RowOf;
  }

  lemma CandidateIsRow(l: Ledger, a: nat, rows: Rows, why: Retirement, n: nat)
    requires Whole(l) && n < |l.buckets| && Picks(rows, l.buckets[n])
    ensures RetireIn(AccountRows(Unlogged(Walk(l, rows, why, n))), a, Candidate(a, l.buckets[n].id), why)
            == AccountRows(Unlogged(Walk(l, rows, why, n + 1)))
  {
    WholeParts(l);
    assert WellFormedRow(l.buckets[n]);
    hide Whole, Walkable, DistinctIds, Walk, RowOf, RetireIn, RetireAny, WellFormedRow;
    WalkKeepsIds(l, rows, why, n);
    WalkFinds(l, rows, why, n);
    WalkOneMore(l, rows, why, n);
    var cur := Walk(l, rows, why, n);
    RowFound(cur.buckets, n);
    FoundRowIsRetired(cur, a, n, why);
  }

  lemma RowIsPassedOver(l: Ledger, rows: Rows, why: Retirement, n: nat)
    requires Whole(l) && n < |l.buckets| && !Picks(rows, l.buckets[n])
    ensures Walk(l, rows, why, n + 1) == Walk(l, rows, why, n)
  {
    WholeParts(l);
    hide Whole, Walk, Walkable, Picks;
    WalkFinds(l, rows, why, n);
    WalkOneMore(l, rows, why, n);
  }

  lemma {:induction false} CandidatesAreTheWalk(l: Ledger, a: nat, rows: Rows, why: Retirement, n: nat)
    requires Whole(l) && n <= |l.buckets|
    ensures Retired(AccountRows(l), a, CandidatesTo(l.buckets, a, rows, n), why)
            == AccountRows(Unlogged(Walk(l, rows, why, n)))
  {
    if n == 0 {
      assert Unlogged(l) == l;
    } else {
      hide Whole, Walk, RetireIn, Retired, Picks;
      CandidatesAreTheWalk(l, a, rows, why, n - 1);
      var rest, c := CandidatesTo(l.buckets, a, rows, n - 1), Candidate(a, l.buckets[n - 1].id);
      assert rest + [] == rest;
      if Picks(rows, l.buckets[n - 1]) {
        RetiredAppend(AccountRows(l), a, rest, c, why);
        CandidateIsRow(l, a, rows, why, n - 1);
      } else {
        RowIsPassedOver(l, rows, why, n - 1);
      }
    }
  }

  /** With the picked rows of the account as candidates, retiring one after the other is the service's Retire. */
  lemma RetiredIsRetire(l: Ledger, a: nat, cs: seq<Candidate>, rows: Rows, why: Retirement)
    requires Whole(l) && Own(cs, a) == CandidatesTo(l.buckets, a, rows, |l.buckets|)
    ensures Walkable(l) && Retired(AccountRows(l), a, cs, why) == AccountRows(Unlogged(Retire(l, rows, why)))
  {
    WholeParts(l);
    hide Walkable, Walk, Retired, Retire;
    OnlyOwnCount(AccountRows(l), a, cs, why);
    CandidatesAreTheWalk(l, a, rows, why, |l.buckets|);
    WalkRetires(l, rows, why);
  }

  /** What a scan of the whole store finds. */
  ghost predicate Scanned(store: Store, rows: Rows, cs: seq<Candidate>) {
    forall a: nat ::
      match RowsIn(store[AccountLock(a)])
      case Some(l) => Own(cs, a) == CandidatesTo(l.buckets, a, rows, |l.buckets|)
      case None => Own(cs, a) == []
  }

  lemma {:induction false} NoneOwned(cs: seq<Candidate>, accounts: seq<nat>, a: nat)
    requires (forall c :: c in cs ==> c.account in accounts) && a !in accounts
    ensures Own(cs, a) == []
  {
    if cs != [] {
      NoneOwned(cs[..|cs| - 1], accounts, a);
      assert cs[|cs| - 1] in cs;
    }
  }

  /** Each account as the service's Retire leaves it. */
  ghost predicate EveryAccountRetired(before: Store, after: Store, rows: Rows, why: Retirement)
    requires WholeStore(before)
  {
    forall a: nat ::
      match RowsIn(before[AccountLock(a)])
      case Some(l) => Walkable(l) && after[AccountLock(a)] == AccountRows(Unlogged(Retire(l, rows, why)))
      case None => after[AccountLock(a)] == before[AccountLock(a)]
  }

  lemma {:induction false} NobodysRows(cell: Cell, a: nat, cs: seq<Candidate>, why: Retirement, j: nat)
    requires !cell.AccountRows? && j <= |cs|
    ensures RetiredCell(cell, a, cs, why, j) == cell
  {
    if 0 < j {
      NobodysRows(cell, a, cs, why, j - 1);
    }
  }

  lemma RetiredAccount(store: Store, a: nat, cs: seq<Candidate>, rows: Rows, why: Retirement)
    requires WholeStore(store) && Scanned(store, rows, cs)
    ensures match RowsIn(store[AccountLock(a)])
            case Some(l) =>
              Walkable(l) && Retired(store[AccountLock(a)], a, cs, why) == AccountRows(Unlogged(Retire(l, rows, why)))
            case None => Retired(store[AccountLock(a)], a, cs, why) == store[AccountLock(a)]
  {
    var cell := store[AccountLock(a)];
    assert WholeRows(RowsIn(cell));
    hide Whole, Retire;
    if cell.AccountRows? {
      RetiredIsRetire(cell.ledger, a, cs, rows, why);
    } else {
      NobodysRows(cell, a, cs, why, |cs|);
    }
  }

  lemma ClawbackCell(store: Store, subscription: string, accounts: seq<nat>, cs: seq<Candidate>, lock: Lock)
    requires forall c :: c in cs ==> c.account in accounts
    ensures Apply(store, OpOf(CallClawback(subscription, accounts, cs)))[lock]
            == if lock.AccountLock? then Retired(store[lock], lock.account, cs, Clawback(subscription)) else store[lock]
  {
    hide RetireIn;
    if lock.AccountLock? && lock.account !in accounts {
      NoneOwned(cs, accounts, lock.account);
      OnlyOwnCount(store[lock], lock.account, cs, Clawback(subscription));
    }
  }

  /**
   * A clawback that found the rows of the subscription as they are leaves
   * every account as the service's clawback does, and everything else alone.
   */
  lemma ClawbackAlone(store: Store, scope: Scope, subscription: string, accounts: seq<nat>, cs: seq<Candidate>)
    requires WholeStore(store) && Scanned(store, GrantedBy(scope, subscription), cs)
    requires forall c :: c in cs ==> c.account in accounts
    ensures var after := Apply(store, OpOf(CallClawback(subscription, accounts, cs)));
            && EveryAccountRetired(store, after, GrantedBy(scope, subscription), Clawback(subscription))
            && (forall lock: Lock :: !lock.AccountLock? ==> after[lock] == store[lock])
  {
    hide WholeStore, Scanned, Retired, Apply, Retire, OpOf;
    var rows, why := GrantedBy(scope, subscription), Clawback(subscription);
    var after := Apply(store, OpOf(CallClawback(subscription, accounts, cs)));
    forall lock: Lock
      ensures after[lock] == if lock.AccountLock? then Retired(store[lock], lock.account, cs, why) else store[lock]
    {
      ClawbackCell(store, subscription, accounts, cs, lock);
    }
    forall a: nat
      ensures match RowsIn(store[AccountLock(a)])
              case Some(l) => Walkable(l) && after[AccountLock(a)] == AccountRows(Unlogged(Retire(l, rows, why)))
              case None => after[AccountLock(a)] == store[AccountLock(a)]
    {
      RetiredAccount(store, a, cs, rows, why);
    }
  }

  /** The transactions of a sweep: one for each bucket found. */
  function SweepOps(cs: seq<Candidate>): seq<Op> {
    seq(|cs|, i requires 0 <= i < |cs| => OpOf(CallExpireBucket(cs[i].account, cs[i].bucket)))
  }

  lemma ExpireOneBucket(store: Store, c: Candidate, lock: Lock)
    ensures Apply(store, OpOf(CallExpireBucket(c.account, c.bucket)))[lock]
            == if lock.AccountLock? then RetireIn(store[lock], lock.account, c, Expiry) else store[lock]
  {
    hide RetireById;
    if lock.AccountLock? {
      RetiredAppend(store[lock], lock.account, [], c, Expiry);
      assert [] + [c] == [c];
    }
  }

  lemma {:induction false} SweepOneByOne(store: Store, cs: seq<Candidate>, lock: Lock)
    ensures Serial(store, SweepOps(cs))[lock]
            == if lock.AccountLock? then Retired(store[lock], lock.account, cs, Expiry) else store[lock]
  {
    if cs != [] {
      var rest, c := cs[..|cs| - 1], cs[|cs| - 1];
      LastOne(cs);
      SweepOneByOne(store, rest, lock);
      assert SweepOps(cs)[..|cs| - 1] == SweepOps(rest);
      hide Retired, RetireIn, Apply;
      ExpireOneBucket(Serial(store, SweepOps(rest)), c, lock);
      if lock.AccountLock? {
        RetiredAppend(store[lock], lock.account, rest, c, Expiry);
      }
    }
  }

  /**
   * The transactions of a sweep that nothing comes between leave every
   * account as the service's sweep does, and everything else alone.
   */
  lemma SweepAlone(store: Store, now: Time, cs: seq<Candidate>)
    requires WholeStore(store) && Scanned(store, DueAnywhere(now), cs)
    ensures var after := Serial(store, SweepOps(cs));
            && EveryAccountRetired(store, after, DueAnywhere(now), Expiry)
            && (forall lock: Lock :: !lock.AccountLock? ==> after[lock] == store[lock])
  {
    hide WholeStore, Scanned, Retired, Serial, Retire;
    var after := Serial(store, SweepOps(cs));
    forall lock: Lock
      ensures after[lock] == if lock.AccountLock? then Retired(store[lock], lock.account, cs, Expiry) else store[lock]
    {
      SweepOneByOne(store, cs, lock);
    }
    forall a: nat
      ensures match RowsIn(store[AccountLock(a)])
              case Some(l) =>
                Walkable(l) && after[AccountLock(a)] == AccountRows(Unlogged(Retire(l, DueAnywhere(now), Expiry)))
              case None => after[AccountLock(a)] == store[AccountLock(a)]
    {
      RetiredAccount(store, a, cs, DueAnywhere(now), Expiry);
    }
  }
}
