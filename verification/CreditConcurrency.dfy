/**
 * The credit operations as concurrent transactions: whatever the schedule, an
 * account that no transaction holds is balanced, and is what a serial run of
 * the committed operations leaves.
 */
module CreditConcurrency {
  import opened Wrappers
  import opened CreditSchema
  import opened CreditBuckets
  import opened CreditService
  import opened CreditBalances
  import opened CreditStatements
  import opened CreditAlone
  import opened CreditInterleavings
  import opened CreditSerializability

  /** The operations, with the ids they read before they held a lock. */
  datatype Call =
    | CallDebit(key: string, account: nat, amount: int, now: Time)
    | CallReserve(account: nat, input: ReserveInput, now: Time)
    | CallCapture(key: string, account: nat, scope: Scope, reservation: nat, amount: int)
    | CallRelease(key: string, account: nat, scope: Scope, reservation: nat)
    | CallGrant(key: string, account: nat, owner: Account, grant: GrantInput, now: Time)
    | CallExpireBucket(account: nat, bucket: nat)
    | CallClawback(subscription: string, accounts: seq<nat>, buckets: seq<Candidate>)

  predicate ValidCall(call: Call) {
    match call
    case CallDebit(_, _, amount, _) => PositiveAmount(amount)
    case CallReserve(_, input, _) => PositiveAmount(input.amount)
    case CallCapture(_, _, _, _, amount) => PositiveAmount(amount)
    case CallGrant(_, _, _, grant, _) => PositiveAmount(grant.amount)
    case _ => true
  }

  function OpOf(call: Call): Op {
    match call
    case CallDebit(key, account, amount, now) => Single(key, false, None, account, DebitBody(amount, now))
    case CallReserve(account, input, now) => Single(input.key, true, None, account, ReserveBody(input, now))
    case CallCapture(key, account, scope, id, amount) =>
      Single(key, false, Some(id), account, CaptureBody(scope, id, amount))
    case CallRelease(key, account, scope, id) => Single(key, false, Some(id), account, ReleaseBody(scope, id))
    case CallGrant(key, account, owner, grant, now) => Single(key, false, None, account, GrantBody(owner, grant, now))
    case CallExpireBucket(account, bucket) => Many([account], [Candidate(account, bucket)], Expiry)
    case CallClawback(subscription, accounts, buckets) => Many(accounts, buckets, Clawback(subscription))
  }

  ghost predicate WholeRows(rows: Option<Ledger>) {
    rows.Some? ==> Whole(rows.value)
  }

  ghost predicate WholeStore(store: Store) {
    forall a :: WholeRows(RowsIn(store[AccountLock(a)]))
  }

  // ---- single account operations keep the account whole ----

  /** Keeping the rows of an account whole, whatever way the statements end (unless they throw). */
  ghost predicate KeepsWhole(body: seq<Statement>, rows: Option<Ledger>) {
    WholeRows(rows) ==> var end := Alone(body, rows); end.flow.Throws? || WholeRows(end.rows)
  }

  lemma BalancedIgnoresLog(l: Ledger)
    requires Balanced(l)
    ensures Balanced(Unlogged(l))
  {
  }

  lemma NoAccountThrows(body: seq<Statement>)
    requires |body| != 0 && !body[0].Credit?
    ensures Alone(body, None).flow.Throws?
  {
  }

  /** The account's own name finds it. */
  lemma FindsItself(l: Ledger)
    requires OneAccount(l)
    ensures FindAccount(l.accounts, l.accounts[0].scope, l.accounts[0].customer, l.accounts[0].creditType) == Some(0)
  {
  }

  lemma DebitKeepsWhole(l: Ledger, amount: int, now: Time)
    requires Whole(l) && PositiveAmount(amount)
    ensures KeepsWhole(DebitBody(amount, now), Some(l))
  {
    var account := l.accounts[0];
    var d := DebitInput(account.customer, account.creditType, amount, "", "", "");
    FindsItself(l);
    DebitAlone(l, account.scope, d, now);
    DebitKeepsBalance(l, account.scope, d, now);
    BalancedIgnoresLog(Debit(l, account.scope, d, now).ledger);
    DebitKeepsOneAccount(l, account.scope, d, now);
    hide Balanced, Alone, Debit, DebitBody;
  }

  lemma DebitKeepsOneAccount(l: Ledger, scope: Scope, d: DebitInput, now: Time)
    ensures |Debit(l, scope, d, now).ledger.accounts| == |l.accounts|
  {
  }

  lemma CaptureKeepsWhole(l: Ledger, scope: Scope, id: nat, amount: int)
    requires Whole(l) && PositiveAmount(amount)
    ensures KeepsWhole(CaptureBody(scope, id, amount), Some(l))
  {
    CaptureAlone(l, scope, id, amount, "");
    CaptureKeepsBalance(l, scope, id, amount, "");
    BalancedIgnoresLog(Capture(l, scope, id, amount, "").ledger);
    assert |Capture(l, scope, id, amount, "").ledger.accounts| == |l.accounts|;
    hide Balanced, Alone, Capture, CaptureBody;
  }

  lemma ReleaseKeepsWhole(l: Ledger, scope: Scope, id: nat)
    requires Whole(l)
    ensures KeepsWhole(ReleaseBody(scope, id), Some(l))
  {
    ReleaseAlone(l, scope, id, "");
    ReleaseKeepsBalance(l, scope, id, "");
    BalancedIgnoresLog(Release(l, scope, id, "").ledger);
    assert |Release(l, scope, id, "").ledger.accounts| == |l.accounts|;
    hide Balanced, Alone, Release, ReleaseBody;
  }

  lemma ReserveKeepsWhole(l: Ledger, r: ReserveInput, now: Time)
    requires Whole(l) && PositiveAmount(r.amount)
    ensures KeepsWhole(ReserveBody(r, now), Some(l))
  {
    ReserveAlone(l, r, now);
    RetireKeepsBalance(l, DueIn(l.accounts[0].scope, 0, now), Expiry);
    var clean := Unlogged(ExpireAccount(l, 0, now));
    BalancedIgnoresLog(ExpireAccount(l, 0, now));
    ExpiryKeepsOneAccount(l, now);
    if r.amount <= clean.accounts[0].available {
      ReservationKeepsBalance(clean, l.accounts[0].scope, r, 0);
      BalancedIgnoresLog(BookReservation(clean, l.accounts[0].scope, r, 0));
    }
    hide Balanced, Alone, Retire, ReserveBody;
  }

  lemma EmptyIsBalanced()
    ensures Balanced(EMPTY_LEDGER)
  {
  }

  lemma GrantKeepsWhole(rows: Option<Ledger>, owner: Account, g: GrantInput, now: Time)
    requires WholeRows(rows) && PositiveAmount(g.amount)
    ensures KeepsWhole(GrantBody(owner, g, now), rows)
  {
    EmptyIsBalanced();
    GrantAlone(rows, owner, g, now);
    var l := if rows.Some? then rows.value else EMPTY_LEDGER;
    var account := if rows.Some? then rows.value.accounts[0] else owner;
    var named := g.(customer := account.customer, creditType := account.creditType);
    GrantKeepsBalance(l, account.scope, named, now);
    BalancedIgnoresLog(BookGrant(l, account.scope, named, now));
    GrantKeepsOneAccount(rows, account, named, now);
    hide Balanced, Alone, BookGrant, GrantBody;
  }

  lemma GrantKeepsOneAccount(rows: Option<Ledger>, account: Account, g: GrantInput, now: Time)
    requires rows.Some? ==> OneAccount(rows.value) && account == rows.value.accounts[0]
    requires g.customer == account.customer && g.creditType == account.creditType
    ensures |BookGrant(if rows.Some? then rows.value else EMPTY_LEDGER, account.scope, g, now).accounts| == 1
  {
    if rows.Some? {
      FindsItself(rows.value);
    }
  }

  lemma CallKeepsWhole(call: Call, rows: Option<Ledger>)
    requires ValidCall(call) && OpOf(call).Single? && WholeRows(rows)
    ensures KeepsWhole(OpOf(call).body, rows)
  {
    hide Alone, Whole;
    if call.CallGrant? {
      GrantKeepsWhole(rows, call.owner, call.grant, call.now);
    } else if rows.None? {
      NoAccountThrows(OpOf(call).body);
    } else {
      match call
      case CallDebit(_, _, amount, now) => DebitKeepsWhole(rows.value, amount, now);
      case CallReserve(_, input, now) => ReserveKeepsWhole(rows.value, input, now);
      case CallCapture(_, _, scope, id, amount) => CaptureKeepsWhole(rows.value, scope, id, amount);
      case CallRelease(_, _, scope, id) => ReleaseKeepsWhole(rows.value, scope, id);
    }
  }

  // ---- retiring one bucket keeps the account whole ----

  lemma {:induction false} SumUpdate(buckets: seq<Bucket>, n: nat, row: Bucket, rows: Rows, account: nat, m: nat)
    requires n < |buckets| && m <= |buckets|
    ensures SumTo(buckets[n := row], rows, account, m)
            == SumTo(buckets, rows, account, m)
               + if n < m then Weight(row, rows, account) - Weight(buckets[n], rows, account) else 0
  {
    if 0 < m {
      SumUpdate(buckets, n, row, rows, account, m - 1);
    }
  }

  /** Retiring changes a row's remaining amount and status, nothing that places it. */
  lemma RetireSeenRow(l: Ledger, n: nat, why: Retirement, i: nat)
    requires Whole(l) && n < |l.buckets| && l.buckets[n].status.Active? && i < |l.buckets|
    ensures var after := RetireSeen(l, n, l.buckets[n], l.accounts[0].available, why);
            && |after.buckets| == |l.buckets|
            && after.buckets[i].(remaining := l.buckets[i].remaining, status := l.buckets[i].status) == l.buckets[i]
            && WellFormedRow(after.buckets[i])
  {
    hide Canonical, DistinctIds, Backed, Committed, Bound, Reservable;
    assert WellFormedRow(l.buckets[n]) && WellFormedRow(l.buckets[i]);
  }

  lemma RetireSeenKeepsRows(l: Ledger, n: nat, why: Retirement)
    requires Whole(l) && n < |l.buckets| && l.buckets[n].status.Active?
    ensures var after := RetireSeen(l, n, l.buckets[n], l.accounts[0].available, why);
            Walkable(after) && Canonical(after.buckets) && DistinctIds(after.buckets)
  {
    var after := RetireSeen(l, n, l.buckets[n], l.accounts[0].available, why);
    assert 0 <= after.accounts[0].available && |after.accounts| == 1 && after.accounts[0].scope == l.accounts[0].scope;
    assert 0 <= after.accounts[0].reserved;
    assert |after.buckets| == |l.buckets|;
    hide RetireSeen, WellFormedRow, Backed, Committed;
    forall i | 0 <= i < |l.buckets|
      ensures after.buckets[i].(remaining := l.buckets[i].remaining, status := l.buckets[i].status) == l.buckets[i]
      ensures WellFormedRow(after.buckets[i])
    {
      RetireSeenRow(l, n, why, i);
    }
    forall i, j | 0 <= i < j < |after.buckets| ensures Before(after.buckets[i], after.buckets[j]) {
      assert Before(l.buckets[i], l.buckets[j]);
    }
  }

  lemma RetireSeenKeepsWhole(l: Ledger, n: nat, why: Retirement)
    requires Whole(l) && n < |l.buckets| && l.buckets[n].status.Active?
    ensures Whole(RetireSeen(l, n, l.buckets[n], l.accounts[0].available, why))
  {
    var b := l.buckets[n];
    var take := Min(b.remaining, l.accounts[0].available);
    RetireSeenKeepsRows(l, n, why);
    SumUpdate(l.buckets, n, Draw(b, take, why.Status()), Settleable(0), 0, |l.buckets|);
    assert WellFormedRow(b);
    hide Canonical, DistinctIds;
  }

  lemma RetireInKeepsWhole(cell: Cell, account: nat, c: Candidate, why: Retirement)
    requires WholeRows(RowsIn(cell))
    ensures WholeRows(RowsIn(RetireIn(cell, account, c, why)))
  {
    if cell.AccountRows? {
      var l := cell.ledger;
      var n := RowOf(l.buckets, c.bucket);
      if n.Some? && l.buckets[n.value].status.Active? {
        RetireSeenKeepsWhole(l, n.value, why);
      }
    }
    hide Balanced, RetireSeen;
  }

  lemma {:induction false} RetiredCellKeepsWhole(cell: Cell, account: nat, candidates: seq<Candidate>, why: Retirement,
                                                 j: nat)
    requires WholeRows(RowsIn(cell)) && j <= |candidates|
    ensures WholeRows(RowsIn(RetiredCell(cell, account, candidates, why, j)))
  {
    hide WholeRows, RetireIn;
    if 0 < j {
      RetiredCellKeepsWhole(cell, account, candidates, why, j - 1);
      RetireInKeepsWhole(RetiredCell(cell, account, candidates, why, j - 1), account, candidates[j - 1], why);
    }
  }

  // ---- every schedule ----

  lemma ApplyKeepsWhole(store: Store, call: Call)
    requires WholeStore(store) && ValidCall(call)
    ensures WholeStore(Apply(store, OpOf(call)))
  {
    var op := OpOf(call);
    forall a ensures WholeRows(RowsIn(Apply(store, op)[AccountLock(a)])) {
      if op.Single? {
        CallKeepsWhole(call, RowsIn(store[AccountLock(op.account)]));
        SingleKeepsWhole(store, op, a);
      } else {
        RetiredCellKeepsWhole(store[AccountLock(a)], a, op.candidates, op.why, |op.candidates|);
      }
    }
  }

  lemma SingleKeepsWhole(store: Store, op: Op, a: nat)
    requires WholeStore(store) && op.Single? && KeepsWhole(op.body, RowsIn(store[AccountLock(op.account)]))
    ensures WholeRows(RowsIn(Apply(store, op)[AccountLock(a)]))
  {
    hide Alone, Whole;
  }

  ghost predicate Callable(op: Op) {
    exists call :: ValidCall(call) && OpOf(call) == op
  }

  lemma {:induction false} SerialKeepsWhole(store: Store, history: seq<Op>)
    requires WholeStore(store) && forall i :: 0 <= i < |history| ==> Callable(history[i])
    ensures WholeStore(Serial(store, history))
  {
    if history != [] {
      var n := |history| - 1;
      SerialKeepsWhole(store, history[..n]);
      assert Callable(history[n]);
      var call :| ValidCall(call) && OpOf(call) == history[n];
      hide WholeStore, Apply;
      ApplyKeepsWhole(Serial(store, history[..n]), call);
    }
  }

  ghost predicate CallsOnly(s: System) {
    && (forall p :: p in s.procs ==> Callable(s.procs[p].op))
    && (forall i :: 0 <= i < |s.history| ==> Callable(s.history[i]))
  }

  lemma {:induction false} RunKeepsCalls(s: System, moves: seq<Move>)
    requires CallsOnly(s) && forall m :: m in moves && m.Begin? ==> Callable(m.op)
    ensures CallsOnly(Run(s, moves))
    decreases |moves|
  {
    if moves != [] {
      AdvanceKeepsCalls(s, moves[0]);
      assert forall m :: m in moves[1..] ==> m in moves;
      hide Advance, CallsOnly;
      RunKeepsCalls(Advance(s, moves[0]), moves[1..]);
    }
  }

  lemma AdvanceKeepsCalls(s: System, m: Move)
    requires CallsOnly(s) && (m.Begin? ==> Callable(m.op))
    ensures CallsOnly(Advance(s, m))
  {
    hide Callable, Publish, Do, RetireById, TakeById;
  }

  /**
   * Every schedule of debits, reserves, captures, releases, grants, expiries
   * and clawbacks, crashes included: the committed cells are what the
   * committed operations produce one after the other, and every account is
   * balanced.
   */
  lemma EveryScheduleIsSerial(store: Store, moves: seq<Move>)
    requires WholeStore(store) && forall m :: m in moves && m.Begin? ==> Callable(m.op)
    ensures var s := Run(System(store, map[], []), moves);
            && s.store == Serial(store, s.history)
            && WholeStore(s.store)
            && (forall i :: 0 <= i < |s.history| ==> Callable(s.history[i]))
            && Exclusive(s.procs)
  {
    var initial := System(store, map[], []);
    Serializable(initial, store, moves);
    RunKeepsCalls(initial, moves);
    SerialKeepsWhole(store, Run(initial, moves).history);
  }

  // ---- keys ----

  /** A cell of a key that is used stays as it is. */
  lemma UsedStays(store: Store, op: Op, key: string)
    requires store[KeyLock(key)].Used?
    ensures Apply(store, op)[KeyLock(key)] == store[KeyLock(key)]
  {
    hide Alone, RetiredCell;
  }

  lemma {:induction false} UsedStaysFor(store: Store, history: seq<Op>, key: string)
    requires store[KeyLock(key)].Used?
    ensures Serial(store, history)[KeyLock(key)] == store[KeyLock(key)]
  {
    hide Apply;
    if history != [] {
      var n := |history| - 1;
      UsedStaysFor(store, history[..n], key);
      UsedStays(Serial(store, history[..n]), history[n], key);
    }
  }

  lemma {:induction false} SerialInParts(store: Store, xs: seq<Op>, ys: seq<Op>)
    ensures Serial(store, xs + ys) == Serial(Serial(store, xs), ys)
  {
    hide Apply;
    if ys == [] {
      assert xs + ys == xs;
    } else {
      var n := |ys| - 1;
      assert (xs + ys)[..|xs + ys| - 1] == xs + ys[..n];
      SerialInParts(store, xs, ys[..n]);
    }
  }

  /** Whether the statements of an operation go through to the end, so that it is recorded under its key. */
  ghost predicate GoesThrough(store: Store, op: Op)
    requires op.Single?
  {
    store[KeyLock(op.key)] == Vacant && Alone(op.body, RowsIn(store[AccountLock(op.account)])).flow == Flow.Next
  }

  lemma RecordsItsKey(store: Store, op: Op)
    requires op.Single? && GoesThrough(store, op)
    ensures Apply(store, op)[KeyLock(op.key)] == Used(op.byReservation)
  {
    hide Alone;
  }

  lemma UsedKeyStops(store: Store, op: Op)
    requires op.Single? && store[KeyLock(op.key)].Used? && (op.byReservation ==> store[KeyLock(op.key)].byReservation)
    ensures Apply(store, op) == store
  {
    hide Alone;
  }

  /**
   * In every serial history, and so in every schedule: once an operation went
   * through under a key, no later operation with the key changes anything
   * (a reservation: if the first was one; otherwise it may still expire what
   * is due).
   */
  lemma KeysWorkOnce(store: Store, earlier: seq<Op>, first: Op, between: seq<Op>, again: Op)
    requires first.Single? && again.Single? && first.key == again.key && (again.byReservation ==> first.byReservation)
    requires GoesThrough(Serial(store, earlier), first)
    ensures var before := Serial(store, earlier + [first] + between);
            Serial(store, earlier + [first] + between + [again]) == before
  {
    hide Apply, Alone;
    var before := Serial(store, earlier);
    SerialAppend(store, earlier, first);
    RecordsItsKey(before, first);
    SerialInParts(store, earlier + [first], between);
    UsedStaysFor(Serial(store, earlier + [first]), between, first.key);
    SerialAppend(store, earlier + [first] + between, again);
    UsedKeyStops(Serial(store, earlier + [first] + between), again);
  }
}
