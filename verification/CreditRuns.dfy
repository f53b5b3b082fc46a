/**
 * Whole runs of the ledger. Every ledger a sequence of operations can reach,
 * rejected and replayed operations included, is sound; from soundness follow
 * the guarantees callers rely on.
 */
module CreditRuns {
  import opened Wrappers
  import opened CreditSchema
  import opened CreditBuckets
  import opened CreditService
  import opened CreditBalances
  import opened CreditLog
  import opened CreditReplay

  datatype Op =
    | DoGrant(scope: Scope, grant: GrantInput, now: Time)
    | DoDebit(scope: Scope, debit: DebitInput, now: Time)
    | DoReserve(scope: Scope, reserve: ReserveInput, now: Time)
    | DoCapture(scope: Scope, reservation: nat, amount: int, key: string)
    | DoRelease(scope: Scope, reservation: nat, key: string)
    | DoExpireAccount(account: nat, now: Time)
    | DoSweep(now: Time)
    | DoRevoke(scope: Scope, subscription: string)

  ghost predicate Sound(l: Ledger) {
    Balanced(l) && Keyed(l) && Replays(l)
  }

  function Step(l: Ledger, op: Op): Ledger
    requires Walkable(l) && Bound(l.accounts, l.reservations)
  {
    match op
    case DoGrant(scope, grant, now) => Grant(l, scope, grant, now).ledger
    case DoDebit(scope, debit, now) => Debit(l, scope, debit, now).ledger
    case DoReserve(scope, reserve, now) => Reserve(l, scope, reserve, now).ledger
    case DoCapture(scope, reservation, amount, key) => Capture(l, scope, reservation, amount, key).ledger
    case DoRelease(scope, reservation, key) => Release(l, scope, reservation, key).ledger
    case DoExpireAccount(account, now) => if account < |l.accounts| then ExpireAccount(l, account, now) else l
    case DoSweep(now) => Sweep(l, now)
    case DoRevoke(scope, subscription) => RevokeSubscription(l, scope, subscription)
  }

  lemma RetireIsSound(l: Ledger, rows: Rows, why: Retirement)
    requires Sound(l)
    ensures Sound(Retire(l, rows, why))
  {
    RetireKeepsBalance(l, rows, why);
    RetireKeepsKeys(l, rows, why);
    RetireReplays(l, rows, why);
  }

  lemma ReserveIsSound(l: Ledger, scope: Scope, r: ReserveInput, now: Time)
    requires Sound(l)
    ensures Sound(Reserve(l, scope, r, now).ledger)
  {
    ReserveKeepsBalance(l, scope, r, now);
    var after := Reserve(l, scope, r, now).ledger;
    if after != l {
      var a := FindAccount(l.accounts, scope, r.customer, r.creditType).value;
      RetireIsSound(l, DueIn(l.accounts[a].scope, a, now), Expiry);
      var clean := ExpireAccount(l, a, now);
      if after != clean {
        ReservationKeepsKeys(clean, scope, r, a);
        ReservationReplays(clean, scope, r, a);
      }
    }
  }

  lemma GrantIsSound(l: Ledger, scope: Scope, grant: GrantInput, now: Time)
    requires Sound(l)
    ensures Sound(Grant(l, scope, grant, now).ledger)
  {
    if Grant(l, scope, grant, now).ledger != l {
      GrantKeepsBalance(l, scope, grant, now);
      GrantKeepsKeys(l, scope, grant, now);
      GrantReplays(l, scope, grant, now);
    }
  }

  lemma DebitIsSound(l: Ledger, scope: Scope, debit: DebitInput, now: Time)
    requires Sound(l)
    ensures Sound(Debit(l, scope, debit, now).ledger)
  {
    DebitKeepsBalance(l, scope, debit, now);
    DebitKeepsKeys(l, scope, debit, now);
    DebitReplays(l, scope, debit, now);
  }

  lemma CaptureIsSound(l: Ledger, scope: Scope, id: nat, amount: int, key: string)
    requires Sound(l)
    ensures Sound(Capture(l, scope, id, amount, key).ledger)
  {
    CaptureKeepsBalance(l, scope, id, amount, key);
    CaptureKeepsKeys(l, scope, id, amount, key);
    CaptureReplays(l, scope, id, amount, key);
  }

  lemma ReleaseIsSound(l: Ledger, scope: Scope, id: nat, key: string)
    requires Sound(l)
    ensures Sound(Release(l, scope, id, key).ledger)
  {
    ReleaseKeepsBalance(l, scope, id, key);
    ReleaseKeepsKeys(l, scope, id, key);
    ReleaseReplays(l, scope, id, key);
  }

  /** Every operation keeps the ledger sound, whatever its outcome. */
  lemma StepIsSound(l: Ledger, op: Op)
    requires Sound(l)
    ensures Sound(Step(l, op))
  {
    hide Sound;
    match op
    case DoGrant(scope, grant, now) => GrantIsSound(l, scope, grant, now);
    case DoDebit(scope, debit, now) => DebitIsSound(l, scope, debit, now);
    case DoReserve(scope, reserve, now) => ReserveIsSound(l, scope, reserve, now);
    case DoCapture(scope, reservation, amount, key) => CaptureIsSound(l, scope, reservation, amount, key);
    case DoRelease(scope, reservation, key) => ReleaseIsSound(l, scope, reservation, key);
    case DoExpireAccount(account, now) =>
      if account < |l.accounts| {
        RetireIsSound(l, DueIn(l.accounts[account].scope, account, now), Expiry);
      }
    case DoSweep(now) => RetireIsSound(l, DueAnywhere(now), Expiry);
    case DoRevoke(scope, subscription) => RetireIsSound(l, GrantedBy(scope, subscription), Clawback(subscription));
  }

  /** The ledger after a sequence of operations. */
  function Run(l: Ledger, ops: seq<Op>): (r: Ledger)
    requires Sound(l)
    ensures Sound(r)
    decreases |ops|
  {
    if ops == [] then l
    else
      StepIsSound(l, ops[0]);
      Run(Step(l, ops[0]), ops[1..])
  }

  lemma EmptyIsSound()
    ensures Sound(EMPTY_LEDGER)
  {
  }

  /** The ledgers reachable from the empty one. */
  function Reach(ops: seq<Op>): (r: Ledger)
    ensures Sound(r)
  {
    EmptyIsSound();
    Run(EMPTY_LEDGER, ops)
  }

  /** The backing invariant in every reachable state, row by row. */
  lemma BackingInEveryReachableState(ops: seq<Op>)
    ensures var l := Reach(ops);
            && (forall a :: 0 <= a < |l.accounts| ==>
                  && 0 <= l.accounts[a].available && 0 <= l.accounts[a].reserved
                  && ActiveSum(l.buckets, a) == l.accounts[a].available + l.accounts[a].reserved
                  && l.accounts[a].reserved == OpenSum(l.reservations, a))
            && (forall i :: 0 <= i < |l.buckets| ==>
                  && 0 <= l.buckets[i].remaining <= l.buckets[i].granted
                  && (l.buckets[i].status.Active? <==> 0 < l.buckets[i].remaining))
  {
    var l := Reach(ops);
    assert Balanced(l);
  }

  /** In every reachable state a grant key has at most one entry and issued at most one bucket. */
  lemma GrantKeysFireOnce(ops: seq<Op>, scope: Scope, key: Key)
    ensures var l := Reach(ops);
            && (forall x, y | 0 <= x < |l.log| && 0 <= y < |l.log| && BookedUnder(l, x, scope, key)
                && BookedUnder(l, y, scope, key) :: x == y)
            && (forall i, j | 0 <= i < |l.buckets| && 0 <= j < |l.buckets| && IssuedUnder(l, i, scope, key)
                && IssuedUnder(l, j, scope, key) ::
                  i == j)
  {
    var l := Reach(ops);
    assert Keyed(l);
    forall i, j | 0 <= i < |l.buckets| && 0 <= j < |l.buckets| && IssuedUnder(l, i, scope, key)
      && IssuedUnder(l, j, scope, key)
      ensures i == j
    {
      var p, q := l.buckets[i].transaction, l.buckets[j].transaction;
      assert !(p < q) && !(q < p);
    }
  }

  ghost predicate BookedUnder(l: Ledger, e: nat, scope: Scope, key: Key)
    requires e < |l.log|
  {
    l.log[e].scope == scope && l.log[e].key == key
  }

  ghost predicate IssuedUnder(l: Ledger, i: nat, scope: Scope, key: Key)
    requires i < |l.buckets|
  {
    l.buckets[i].transaction < |l.log| && BookedUnder(l, l.buckets[i].transaction, scope, key)
  }

  // ---- settlement ----

  /** Capturing any amount up to the reservation succeeds, whatever became of the buckets behind it. */
  lemma CaptureNeverStuck(l: Ledger, scope: Scope, id: nat, amount: int, key: string)
    requires Sound(l) && id < |l.reservations| && l.reservations[id].status.Open? && l.reservations[id].scope == scope
    requires PositiveAmount(amount) && amount <= l.reservations[id].amount
    requires FindEntry(l.log, scope, ClientKey(key)).None?
    ensures var v := l.reservations[id]; var done := Capture(l, scope, id, amount, key);
            && done.outcome == Success(Settled(id, |l.log|))
            && done.ledger.reservations == l.reservations[id := v.(status := Captured, captured := amount)]
            && done.ledger.accounts[v.account].available == l.accounts[v.account].available + v.amount - amount
            && ActiveSum(done.ledger.buckets, v.account) == ActiveSum(l.buckets, v.account) - amount
  {
    var a := l.reservations[id].account;
    OpenIsReserved(l, id);
    ConsumeMoves(l.accounts, l.buckets, Settleable(a), a, amount);
  }

  lemma ReleaseNeverStuck(l: Ledger, scope: Scope, id: nat, key: string)
    requires Sound(l) && id < |l.reservations| && l.reservations[id].status.Open? && l.reservations[id].scope == scope
    requires FindEntry(l.log, scope, ClientKey(key)).None?
    ensures var v := l.reservations[id]; var done := Release(l, scope, id, key);
            && done.outcome == Success(Settled(id, |l.log|))
            && done.ledger.buckets == l.buckets
            && done.ledger.accounts[v.account].available == l.accounts[v.account].available + v.amount
  {
    OpenIsReserved(l, id);
  }

  /** The errors for inconsistent books are unreachable, for any input at all. */
  lemma NoInconsistencyError(l: Ledger, scope: Scope, id: nat, amount: int, key: string)
    requires Sound(l)
    ensures Capture(l, scope, id, amount, key).outcome != Failure(BalanceInconsistent)
    ensures Capture(l, scope, id, amount, key).outcome != Failure(AllocationViolated)
    ensures Release(l, scope, id, key).outcome != Failure(BalanceInconsistent)
  {
    if id < |l.reservations| && l.reservations[id].status.Open? {
      OpenIsReserved(l, id);
    }
  }

  /** A reservation's identity never changes, and once it is no longer open nothing about it does. */
  predicate RowFollows(before: Reservation, after: Reservation) {
    && after.(status := before.status, captured := before.captured) == before
    && (!before.status.Open? ==> after == before)
  }

  ghost predicate Follows(before: seq<Reservation>, after: seq<Reservation>) {
    |before| <= |after| && forall v :: 0 <= v < |before| ==> RowFollows(before[v], after[v])
  }

  lemma CaptureFollows(l: Ledger, scope: Scope, id: nat, amount: int, key: string)
    requires Bound(l.accounts, l.reservations)
    ensures Follows(l.reservations, Capture(l, scope, id, amount, key).ledger.reservations)
  {
    var after := Capture(l, scope, id, amount, key).ledger;
    assert after.reservations == l.reservations
        || (id < |l.reservations| && l.reservations[id].status.Open?
            && after.reservations == l.reservations[id := l.reservations[id].(status := Captured, captured := amount)]);
  }

  lemma ReleaseFollows(l: Ledger, scope: Scope, id: nat, key: string)
    requires Bound(l.accounts, l.reservations)
    ensures Follows(l.reservations, Release(l, scope, id, key).ledger.reservations)
  {
    var after := Release(l, scope, id, key).ledger;
    assert after.reservations == l.reservations
        || (id < |l.reservations| && l.reservations[id].status.Open?
            && after.reservations == l.reservations[id := l.reservations[id].(status := Released)]);
  }

  lemma ReserveFollows(l: Ledger, scope: Scope, r: ReserveInput, now: Time)
    requires Walkable(l)
    ensures l.reservations <= Reserve(l, scope, r, now).ledger.reservations
  {
  }

  lemma StepFollows(l: Ledger, op: Op)
    requires Sound(l)
    ensures Follows(l.reservations, Step(l, op).reservations)
  {
    hide Keyed, Replays, Consume, FindEntry, InsertRow, FindAccount, RetirementEntries, RetiredAccounts, Drawn,
      Canonical, DistinctIds;
    match op
    case DoReserve(scope, reserve, now) => ReserveFollows(l, scope, reserve, now);
    case DoCapture(scope, reservation, amount, key) => CaptureFollows(l, scope, reservation, amount, key);
    case DoRelease(scope, reservation, key) => ReleaseFollows(l, scope, reservation, key);
    case _ => assert Step(l, op).reservations == l.reservations;
  }

  lemma {:induction false} ReservationsSettleOnce(l: Ledger, ops: seq<Op>)
    requires Sound(l)
    ensures Follows(l.reservations, Run(l, ops).reservations)
    decreases |ops|
  {
    if ops != [] {
      StepIsSound(l, ops[0]);
      StepFollows(l, ops[0]);
      ReservationsSettleOnce(Step(l, ops[0]), ops[1..]);
    }
  }

  // ---- replay ----

  /** The log of a reachable ledger reproduces every balance, and conserves credit. */
  lemma LogReproducesBalances(ops: seq<Op>, account: nat)
    requires account < |Reach(ops).accounts|
    ensures var l := Reach(ops); var amounts := Amounts(l.reservations);
            && AllRefer(l.log, |l.accounts|, amounts)
            && FoldTo(l.log, amounts, account, |l.log|)
              == Balance(l.accounts[account].available, l.accounts[account].reserved)
            && (forall e :: 0 <= e < |l.log| ==>
                  FoldTo(l.log, amounts, l.log[e].account, e + 1)
                    == Balance(l.log[e].availableAfter, l.log[e].reservedAfter))
            && Total(l.log, account, Granting)
               == ActiveSum(l.buckets, account) + Total(l.log, account, Spending) + Total(l.log, account, Capturing)
                  + Total(l.log, account, Lapsing) + Total(l.log, account, Revoking)
  {
    var l := Reach(ops);
    assert Replays(l);
    CreditIsConserved(l, account);
    assert Backed(l.accounts, l.buckets);
  }
}
