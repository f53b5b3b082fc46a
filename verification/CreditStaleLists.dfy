/**
 * What an expiry or a clawback takes when other transactions committed
 * between its scan and its turn.
 */
module CreditStaleLists {
  import opened Wrappers
  import opened CreditSchema
  import opened CreditBuckets
  import opened CreditService
  import opened CreditBalances
  import opened CreditStatements
  import opened CreditAlone
  import opened CreditInterleavings
  import opened CreditConcurrency
  import opened CreditCandidates

  // ---- what the listed rows still hold ----

  /** What a candidate's row holds by now: nothing if it is gone or retired. */
  function Held(buckets: seq<Bucket>, a: nat, c: Candidate): int {
    var n := RowOf(buckets, c.bucket);
    if c.account == a && n.Some? && buckets[n.value].status.Active? then buckets[n.value].remaining else 0
  }

  function HeldTo(buckets: seq<Bucket>, a: nat, cs: seq<Candidate>, j: nat): int
    requires j <= |cs|
  {
    if j == 0 then 0 else HeldTo(buckets, a, cs, j - 1) + Held(buckets, a, cs[j - 1])
  }

  /** What the i-th candidate gives up of a balance, after those listed before it. */
  function ListShare(l: Ledger, a: nat, cs: seq<Candidate>, i: nat): int
    requires OneAccount(l) && i < |cs|
  {
    var available := l.accounts[0].available;
    Min(available, HeldTo(l.buckets, a, cs, i + 1)) - Min(available, HeldTo(l.buckets, a, cs, i))
  }

  /** A scan lists a row once. */
  ghost predicate ListsOnce(cs: seq<Candidate>, a: nat) {
    forall i, j :: 0 <= i < j < |cs| && cs[i].account == a && cs[j].account == a ==> cs[i].bucket != cs[j].bucket
  }

  ghost predicate ListedTo(cs: seq<Candidate>, a: nat, j: nat, id: nat)
    requires j <= |cs|
  {
    exists i :: 0 <= i < j && cs[i] == Candidate(a, id)
  }

  ghost predicate CandidateDrawn(l: Ledger, after: seq<Bucket>, a: nat, cs: seq<Candidate>, why: Retirement, i: nat)
    requires OneAccount(l) && i < |cs| && |after| == |l.buckets|
  {
    var n := RowOf(l.buckets, cs[i].bucket);
    cs[i].account == a && n.Some? ==> after[n.value] == Draw(l.buckets[n.value], ListShare(l, a, cs, i), why.Status())
  }

  /** The account after the first j candidates, from the rows as they are now. */
  ghost predicate RetiredListed(l: Ledger, after: Ledger, a: nat, cs: seq<Candidate>, why: Retirement, j: nat)
    requires OneAccount(l) && j <= |cs|
  {
    && OneAccount(after) && after.reservations == l.reservations && |after.buckets| == |l.buckets|
    && after.accounts[0]
       == l.accounts[0].(available := l.accounts[0].available
                         - Min(l.accounts[0].available, HeldTo(l.buckets, a, cs, j)))
    && (forall i :: 0 <= i < j ==> CandidateDrawn(l, after.buckets, a, cs, why, i))
    && (forall n :: 0 <= n < |l.buckets| && !ListedTo(cs, a, j, l.buckets[n].id) ==> after.buckets[n] == l.buckets[n])
    && (forall n :: 0 <= n < |l.buckets| ==> after.buckets[n].id == l.buckets[n].id)
  }

  lemma SameIdsSameRow(xs: seq<Bucket>, ys: seq<Bucket>, id: nat)
    requires DistinctIds(xs) && |ys| == |xs| && forall i :: 0 <= i < |xs| ==> ys[i].id == xs[i].id
    ensures RowOf(ys, id) == RowOf(xs, id)
  {
  }

  lemma {:induction false} HeldIsNotNegative(buckets: seq<Bucket>, a: nat, cs: seq<Candidate>, j: nat)
    requires WellFormed(buckets) && j <= |cs|
    ensures 0 <= HeldTo(buckets, a, cs, j)
    ensures forall i :: 0 <= i < |cs| ==> 0 <= Held(buckets, a, cs[i])
  {
    if 0 < j {
      HeldIsNotNegative(buckets, a, cs, j - 1);
    }
  }

  lemma NextHeld(buckets: seq<Bucket>, a: nat, cs: seq<Candidate>, j: nat)
    requires j < |cs|
    ensures HeldTo(buckets, a, cs, j + 1) == HeldTo(buckets, a, cs, j) + Held(buckets, a, cs[j])
  {
  }

  /** What one row that is found by its id gives up. */
  function Given(b: Bucket, available: int): int {
    if b.status.Active? then Min(b.remaining, available) else 0
  }

  lemma RetireFoundRow(cur: Ledger, id: nat, n: nat, why: Retirement)
    requires OneAccount(cur) && RowOf(cur.buckets, id) == Some(n) && n < |cur.buckets|
    requires WellFormedRow(cur.buckets[n]) && 0 <= cur.accounts[0].available
    ensures var take := Given(cur.buckets[n], cur.accounts[0].available);
            RetireById(cur, id, cur.accounts[0].available, why)
            == cur.(accounts := [cur.accounts[0].(available := cur.accounts[0].available - take)],
                    buckets := cur.buckets[n := Draw(cur.buckets[n], take, why.Status())])
  {
    hide RowOf;
    assert cur.buckets[n := cur.buckets[n]] == cur.buckets;
  }

  lemma ShareOfCandidate(l: Ledger, a: nat, cs: seq<Candidate>, j: nat)
    requires OneAccount(l) && WellFormed(l.buckets) && 0 <= l.accounts[0].available && j < |cs|
    ensures var before := l.accounts[0].available - Min(l.accounts[0].available, HeldTo(l.buckets, a, cs, j));
            var n := RowOf(l.buckets, cs[j].bucket);
            && 0 <= before
            && ListShare(l, a, cs, j) == if cs[j].account == a && n.Some? then Given(l.buckets[n.value], before) else 0
  {
    HeldIsNotNegative(l.buckets, a, cs, j);
    NextHeld(l.buckets, a, cs, j);
    hide RowOf, HeldTo;
  }

  /** A row that is listed once is still as it was when its turn comes. */
  lemma FoundAsListed(l: Ledger, cur: Ledger, a: nat, cs: seq<Candidate>, why: Retirement, j: nat)
    requires Whole(l) && j < |cs| && ListsOnce(cs, a) && RetiredListed(l, cur, a, cs, why, j) && cs[j].account == a
    ensures var n := RowOf(l.buckets, cs[j].bucket);
            RowOf(cur.buckets, cs[j].bucket) == n
              && (n.Some? ==> n.value < |cur.buckets| && cur.buckets[n.value] == l.buckets[n.value])
  {
    assert DistinctIds(l.buckets);
    SameIdsSameRow(l.buckets, cur.buckets, cs[j].bucket);
    hide Whole, RowOf, DistinctIds;
    var n := RowOf(l.buckets, cs[j].bucket);
    if n.Some? {
      assert !ListedTo(cs, a, j, l.buckets[n.value].id);
    }
  }

  /** The account after one more candidate: its row gives up its share, the balance drops by it. */
  function AfterCandidate(l: Ledger, cur: Ledger, a: nat, cs: seq<Candidate>, why: Retirement, j: nat): Ledger
    requires OneAccount(l) && OneAccount(cur) && |cur.buckets| == |l.buckets| && j < |cs|
  {
    var n, share := RowOf(l.buckets, cs[j].bucket), ListShare(l, a, cs, j);
    if cs[j].account == a && n.Some? then
      cur.(accounts := [cur.accounts[0].(available := cur.accounts[0].available - share)],
           buckets := cur.buckets[n.value := Draw(l.buckets[n.value], share, why.Status())])
    else cur
  }

  lemma OneCandidate(l: Ledger, cur: Ledger, a: nat, cs: seq<Candidate>, why: Retirement, j: nat)
    requires Whole(l) && j < |cs| && ListsOnce(cs, a) && RetiredListed(l, cur, a, cs, why, j)
    ensures RetireIn(AccountRows(cur), a, cs[j], why) == AccountRows(AfterCandidate(l, cur, a, cs, why, j))
  {
    hide ListsOnce, Canonical, DistinctIds, Backed, Committed, HeldTo, RowOf, ListShare, RetireById;
    WholeParts(l);
    assert 0 <= l.accounts[0].available;
    ShareOfCandidate(l, a, cs, j);
    if cs[j].account == a {
      FoundAsListed(l, cur, a, cs, why, j);
      var n := RowOf(l.buckets, cs[j].bucket);
      if n.Some? {
        assert WellFormedRow(l.buckets[n.value]);
        RetireFoundRow(cur, cs[j].bucket, n.value, why);
      } else {
        NothingFound(cur, cs[j].bucket, why);
      }
    }
  }

  lemma NothingFound(cur: Ledger, id: nat, why: Retirement)
    requires OneAccount(cur) && RowOf(cur.buckets, id).None?
    ensures RetireById(cur, id, cur.accounts[0].available, why) == cur
  {
  }

  /** The rows of the candidates so far, after one more. */
  lemma EarlierStay(l: Ledger, cur: Ledger, a: nat, cs: seq<Candidate>, why: Retirement, j: nat, i: nat)
    requires OneAccount(l) && i <= j < |cs| && ListsOnce(cs, a) && RetiredListed(l, cur, a, cs, why, j)
    ensures CandidateDrawn(l, AfterCandidate(l, cur, a, cs, why, j).buckets, a, cs, why, i)
  {
    hide HeldTo, RowOf, ListShare, Draw;
    if i < j {
      assert CandidateDrawn(l, cur.buckets, a, cs, why, i);
    }
  }

  lemma OthersStay(l: Ledger, cur: Ledger, a: nat, cs: seq<Candidate>, why: Retirement, j: nat, n: nat)
    requires OneAccount(l) && j < |cs| && RetiredListed(l, cur, a, cs, why, j) && n < |l.buckets|
    ensures var after := AfterCandidate(l, cur, a, cs, why, j).buckets;
            && after[n].id == l.buckets[n].id
            && (!ListedTo(cs, a, j + 1, l.buckets[n].id) ==> after[n] == l.buckets[n])
  {
    hide HeldTo, RowOf, ListShare, CandidateDrawn;
    var id := l.buckets[n].id;
    assert cs[j] == Candidate(a, id) ==> ListedTo(cs, a, j + 1, id);
    if ListedTo(cs, a, j, id) {
      var i :| 0 <= i < j && cs[i] == Candidate(a, id);
      assert ListedTo(cs, a, j + 1, id);
    }
  }

  lemma NextBalance(l: Ledger, cur: Ledger, a: nat, cs: seq<Candidate>, why: Retirement, j: nat)
    requires OneAccount(l) && j < |cs| && RetiredListed(l, cur, a, cs, why, j)
    ensures var available := l.accounts[0].available;
            AfterCandidate(l, cur, a, cs, why, j).accounts[0]
            == l.accounts[0].(available := available - Min(available, HeldTo(l.buckets, a, cs, j + 1)))
  {
    hide RowOf, CandidateDrawn, ListedTo, Draw, HeldTo;
    NextHeld(l.buckets, a, cs, j);
  }

  lemma NextCandidate(l: Ledger, cur: Ledger, a: nat, cs: seq<Candidate>, why: Retirement, j: nat)
    requires OneAccount(l) && j < |cs| && ListsOnce(cs, a) && RetiredListed(l, cur, a, cs, why, j)
    ensures RetiredListed(l, AfterCandidate(l, cur, a, cs, why, j), a, cs, why, j + 1)
  {
    hide ListsOnce, HeldTo, RowOf, ListShare, CandidateDrawn, ListedTo, Draw;
    var after := AfterCandidate(l, cur, a, cs, why, j).buckets;
    NextBalance(l, cur, a, cs, why, j);
    forall i | 0 <= i < j + 1 ensures CandidateDrawn(l, after, a, cs, why, i) {
      EarlierStay(l, cur, a, cs, why, j, i);
    }
    forall n | 0 <= n < |l.buckets|
      ensures after[n].id == l.buckets[n].id && (!ListedTo(cs, a, j + 1, l.buckets[n].id) ==> after[n] == l.buckets[n])
    {
      OthersStay(l, cur, a, cs, why, j, n);
    }
  }

  lemma NoCandidateYet(l: Ledger, a: nat, cs: seq<Candidate>, why: Retirement)
    requires Whole(l)
    ensures RetiredListed(l, l, a, cs, why, 0)
  {
    hide Backed, Committed, Canonical, DistinctIds, WellFormed;
  }

  /**
   * A list of candidates, however old: the balance drops by what the listed
   * rows hold now or by itself, whichever is less; each listed row gives up
   * its share in the order of the list, and no other row changes.
   */
  lemma {:induction false} StaleListTakes(l: Ledger, a: nat, cs: seq<Candidate>, why: Retirement, j: nat)
    requires Whole(l) && j <= |cs| && ListsOnce(cs, a)
    ensures OneAccount(l)
    ensures var cell := RetiredCell(AccountRows(l), a, cs, why, j);
            cell.AccountRows? && RetiredListed(l, cell.ledger, a, cs, why, j)
  {
    hide RetiredListed, RetireIn, Balanced, ListsOnce, AfterCandidate;
    if j == 0 {
      NoCandidateYet(l, a, cs, why);
    } else {
      StaleListTakes(l, a, cs, why, j - 1);
      var cur := RetiredCell(AccountRows(l), a, cs, why, j - 1).ledger;
      OneCandidate(l, cur, a, cs, why, j - 1);
      NextCandidate(l, cur, a, cs, why, j - 1);
    }
  }

  // ---- rows last ----

  ghost predicate Lasting(before: seq<Bucket>, after: seq<Bucket>) {
    forall x :: x in before ==> exists y :: y in after && Kept(x, y)
  }

  lemma LastingOn(xs: seq<Bucket>, ys: seq<Bucket>, zs: seq<Bucket>)
    requires Lasting(xs, ys) && Lasting(ys, zs)
    ensures Lasting(xs, zs)
  {
    forall x | x in xs ensures exists z :: z in zs && Kept(x, z) {
      var y :| y in ys && Kept(x, y);
      var z :| z in zs && Kept(y, z);
      assert Kept(x, z);
    }
  }

  lemma RowByRowLasts(xs: seq<Bucket>, ys: seq<Bucket>)
    requires |xs| == |ys| && forall i :: 0 <= i < |xs| ==> Kept(xs[i], ys[i])
    ensures Lasting(xs, ys)
  {
    hide Kept;
    forall x | x in xs ensures exists y :: y in ys && Kept(x, y) {
      var i :| 0 <= i < |xs| && xs[i] == x;
      assert ys[i] in ys;
    }
  }

  lemma NothingChangesLasts(xs: seq<Bucket>)
    ensures Lasting(xs, xs)
  {
    RowByRowLasts(xs, xs);
  }

  lemma DrawnLasts(buckets: seq<Bucket>, rows: Rows, budget: Budget, drained: BucketStatus)
    requires WellFormed(buckets) && Covered(buckets, budget) && !drained.Active?
    ensures Lasting(buckets, Drawn(buckets, rows, budget, drained))
  {
    hide Share;
    forall i | 0 <= i < |buckets| ensures Kept(buckets[i], Drawn(buckets, rows, budget, drained)[i]) {
      DrawnRow(buckets, rows, budget, drained, i);
      ShareBounds(buckets, rows, budget, i);
    }
    RowByRowLasts(buckets, Drawn(buckets, rows, budget, drained));
  }

  lemma InsertLasts(buckets: seq<Bucket>, b: Bucket)
    ensures Lasting(buckets, InsertRow(buckets, b))
  {
    var k := Position(buckets, b);
    forall x | x in buckets ensures x in InsertRow(buckets, b) && Kept(x, x) {
      var i :| 0 <= i < |buckets| && buckets[i] == x;
      assert buckets == buckets[..k] + buckets[k..];
    }
  }

  lemma ConsumeLasts(buckets: seq<Bucket>, rows: Rows, account: nat, amount: int)
    requires WellFormed(buckets)
    ensures var after := Consume(buckets, rows, account, amount); after.Some? ==> Lasting(buckets, after.value)
  {
    hide Lasting, WellFormed, Drawn;
    NothingChangesLasts(buckets);
    if 0 < amount {
      DrawnLasts(buckets, rows, Fixed(amount), Consumed);
    }
  }

  /** Bucket rows of an account, whatever way the statements end. */
  ghost predicate BodyLasts(body: seq<Statement>, rows: Option<Ledger>) {
    rows.Some? ==>
      var end := Alone(body, rows);
      end.flow.Throws? || (end.rows.Some? && Lasting(rows.value.buckets, end.rows.value.buckets))
  }

  lemma DebitLasts(l: Ledger, amount: int, now: Time)
    requires Whole(l) && PositiveAmount(amount)
    ensures BodyLasts(DebitBody(amount, now), Some(l))
  {
    var account := l.accounts[0];
    var d := DebitInput(account.customer, account.creditType, amount, "", "", "");
    FindsItself(l);
    DebitAlone(l, account.scope, d, now);
    WholeParts(l);
    ConsumeLasts(l.buckets, Spendable(0, now), 0, amount);
    hide Whole, Walkable, Alone, Consume, DebitBody, Lasting, WellFormed, FindAccount;
  }

  lemma CaptureLasts(l: Ledger, scope: Scope, id: nat, amount: int)
    requires Whole(l) && PositiveAmount(amount)
    ensures BodyLasts(CaptureBody(scope, id, amount), Some(l))
  {
    CaptureAlone(l, scope, id, amount, "");
    WholeParts(l);
    NothingChangesLasts(l.buckets);
    ConsumeLasts(l.buckets, Settleable(0), 0, amount);
    hide Whole, Walkable, Alone, Consume, CaptureBody, Lasting, WellFormed;
  }

  lemma ReleaseLasts(l: Ledger, scope: Scope, id: nat)
    requires Whole(l)
    ensures BodyLasts(ReleaseBody(scope, id), Some(l))
  {
    ReleaseAlone(l, scope, id, "");
    WholeParts(l);
    NothingChangesLasts(l.buckets);
    hide Whole, Walkable, Alone, ReleaseBody, Lasting, WellFormed;
  }

  lemma ReserveLasts(l: Ledger, r: ReserveInput, now: Time)
    requires Whole(l)
    ensures BodyLasts(ReserveBody(r, now), Some(l))
  {
    ReserveAlone(l, r, now);
    WholeParts(l);
    DrawnLasts(l.buckets, DueIn(l.accounts[0].scope, 0, now), Budget.Available(Balances(l.accounts)),
               BucketStatus.Expired);
    hide Whole, Walkable, Alone, ReserveBody, Lasting, WellFormed, RetirementEntries, RetiredAccounts, Drawn;
  }

  lemma GrantLasts(rows: Option<Ledger>, owner: Account, g: GrantInput, now: Time)
    requires WholeRows(rows)
    ensures BodyLasts(GrantBody(owner, g, now), rows)
  {
    GrantAlone(rows, owner, g, now);
    if rows.Some? {
      var l, account := rows.value, rows.value.accounts[0];
      var named := g.(customer := account.customer, creditType := account.creditType);
      FindsItself(l);
      InsertLasts(l.buckets, NewBucket(l, account.scope, 0, named, now));
    }
    hide Balanced, Alone, GrantBody, Lasting, InsertRow, FindAccount;
  }

  lemma CallLasts(call: Call, rows: Option<Ledger>)
    requires ValidCall(call) && OpOf(call).Single? && WholeRows(rows)
    ensures BodyLasts(OpOf(call).body, rows)
  {
    hide BodyLasts, Whole;
    if call.CallGrant? {
      GrantLasts(rows, call.owner, call.grant, call.now);
    } else if rows.None? {
      NoRowsLast(OpOf(call).body);
    } else {
      match call
      case CallDebit(_, _, amount, now) => DebitLasts(rows.value, amount, now);
      case CallReserve(_, input, now) => ReserveLasts(rows.value, input, now);
      case CallCapture(_, _, scope, id, amount) => CaptureLasts(rows.value, scope, id, amount);
      case CallRelease(_, _, scope, id) => ReleaseLasts(rows.value, scope, id);
    }
  }

  lemma NoRowsLast(body: seq<Statement>)
    ensures BodyLasts(body, None)
  {
  }

  // ---- along a history ----

  ghost predicate CellLasts(before: Cell, after: Cell) {
    before.AccountRows? ==> after.AccountRows? && Lasting(before.ledger.buckets, after.ledger.buckets)
  }

  lemma GivingLasts(buckets: seq<Bucket>, n: nat, take: int, drained: BucketStatus)
    requires n < |buckets| && 0 <= take && WellFormedRow(buckets[n])
    requires (take == 0 || (take <= buckets[n].remaining && !drained.Active?))
    ensures Lasting(buckets, buckets[n := Draw(buckets[n], take, drained)])
  {
    RowByRowLasts(buckets, buckets[n := Draw(buckets[n], take, drained)]);
  }

  lemma RetireByIdLasts(l: Ledger, id: nat, why: Retirement)
    requires Whole(l)
    ensures OneAccount(l) && Lasting(l.buckets, RetireById(l, id, l.accounts[0].available, why).buckets)
  {
    WholeParts(l);
    assert 0 <= l.accounts[0].available;
    NothingChangesLasts(l.buckets);
    var n := RowOf(l.buckets, id);
    if n.Some? {
      assert WellFormedRow(l.buckets[n.value]);
      hide Whole, Walkable, WellFormed, Lasting, RowOf, RetireById;
      RetireFoundRow(l, id, n.value, why);
      GivingLasts(l.buckets, n.value, Given(l.buckets[n.value], l.accounts[0].available), why.Status());
    } else {
      NothingFound(l, id, why);
    }
  }

  lemma RetireInLasts(cell: Cell, a: nat, c: Candidate, why: Retirement)
    requires WholeRows(RowsIn(cell))
    ensures CellLasts(cell, RetireIn(cell, a, c, why))
  {
    hide Whole, Lasting, RetireById;
    if cell.AccountRows? {
      NothingChangesLasts(cell.ledger.buckets);
      RetireByIdLasts(cell.ledger, c.bucket, why);
    }
  }

  lemma {:induction false} RetiredCellLasts(cell: Cell, a: nat, cs: seq<Candidate>, why: Retirement, j: nat)
    requires WholeRows(RowsIn(cell)) && j <= |cs|
    ensures CellLasts(cell, RetiredCell(cell, a, cs, why, j))
  {
    hide Whole, RetireIn, Lasting;
    if j == 0 {
      if cell.AccountRows? {
        NothingChangesLasts(cell.ledger.buckets);
      }
    } else {
      var before := RetiredCell(cell, a, cs, why, j - 1);
      RetiredCellLasts(cell, a, cs, why, j - 1);
      RetiredCellKeepsWhole(cell, a, cs, why, j - 1);
      RetireInLasts(before, a, cs[j - 1], why);
      if cell.AccountRows? {
        LastingOn(cell.ledger.buckets, before.ledger.buckets, RetireIn(before, a, cs[j - 1], why).ledger.buckets);
      }
    }
  }

  lemma SingleLasts(store: Store, op: Op, a: nat)
    requires op.Single? && BodyLasts(op.body, RowsIn(store[AccountLock(op.account)]))
    ensures CellLasts(store[AccountLock(a)], Apply(store, op)[AccountLock(a)])
  {
    hide Alone, Lasting;
    if store[AccountLock(a)].AccountRows? {
      NothingChangesLasts(store[AccountLock(a)].ledger.buckets);
    }
  }

  lemma ApplyLasts(store: Store, call: Call, a: nat)
    requires WholeStore(store) && ValidCall(call)
    ensures CellLasts(store[AccountLock(a)], Apply(store, OpOf(call))[AccountLock(a)])
  {
    var op, cell := OpOf(call), store[AccountLock(a)];
    assert WholeRows(RowsIn(cell));
    if op.Single? {
      assert WholeRows(RowsIn(store[AccountLock(op.account)]));
      hide WholeStore, Whole, BodyLasts, CellLasts, OpOf, Apply;
      CallLasts(call, RowsIn(store[AccountLock(op.account)]));
      SingleLasts(store, op, a);
    } else {
      hide WholeStore, Whole, Lasting, RetiredCell, OpOf;
      RetiredCellLasts(cell, a, op.candidates, op.why, |op.candidates|);
      if cell.AccountRows? {
        NothingChangesLasts(cell.ledger.buckets);
      }
    }
  }

  /** Whatever the service does, a bucket row is never removed, and only its remaining amount and status change. */
  lemma {:induction false} RowsLast(store: Store, history: seq<Op>, a: nat)
    requires WholeStore(store) && forall i :: 0 <= i < |history| ==> Callable(history[i])
    ensures CellLasts(store[AccountLock(a)], Serial(store, history)[AccountLock(a)])
  {
    hide Lasting, WholeStore, Apply;
    var cell := store[AccountLock(a)];
    if history == [] {
      if cell.AccountRows? {
        NothingChangesLasts(cell.ledger.buckets);
      }
    } else {
      var n := |history| - 1;
      var before := Serial(store, history[..n]);
      RowsLast(store, history[..n], a);
      SerialKeepsWhole(store, history[..n]);
      assert Callable(history[n]);
      var call :| ValidCall(call) && OpOf(call) == history[n];
      ApplyLasts(before, call, a);
      if cell.AccountRows? {
        LastingOn(cell.ledger.buckets, before[AccountLock(a)].ledger.buckets,
                  Apply(before, history[n])[AccountLock(a)].ledger.buckets);
      }
    }
  }

  // ---- from the scan to the retirement ----

  /** The rows a scan picks stay picked until they are retired. */
  lemma PickedStaysPicked(rows: Rows, x: Bucket, y: Bucket)
    requires rows.DueAnywhere? || rows.GrantedBy?
    requires Picks(rows, x) && Kept(x, y) && WellFormedRow(y)
    ensures Picks(rows, y) <==> y.status.Active?
  {
  }

  lemma {:induction false} ScanListsOnce(buckets: seq<Bucket>, a: nat, rows: Rows, n: nat)
    requires DistinctIds(buckets) && n <= |buckets|
    ensures var cs := CandidatesTo(buckets, a, rows, n);
            && ListsOnce(cs, a)
            && forall i :: 0 <= i < |cs| ==>
                 cs[i].account == a && exists m ::
                     0 <= m < n && buckets[m].id == cs[i].bucket && Picks(rows, buckets[m])
  {
    hide Picks;
    if 0 < n {
      ScanListsOnce(buckets, a, rows, n - 1);
    }
  }

  /** Every listed row that is still active is still due, or still of the subscription. */
  ghost predicate ListsPicked(buckets: seq<Bucket>, rows: Rows, cs: seq<Candidate>) {
    forall i :: 0 <= i < |cs| ==>
      var n := RowOf(buckets, cs[i].bucket);
      n.Some? && (Picks(rows, buckets[n.value]) <==> buckets[n.value].status.Active?)
  }

  lemma ScanStaysPicked(before: seq<Bucket>, now: seq<Bucket>, a: nat, rows: Rows)
    requires rows.DueAnywhere? || rows.GrantedBy?
    requires DistinctIds(before) && DistinctIds(now) && WellFormed(now) && Lasting(before, now)
    ensures ListsPicked(now, rows, CandidatesTo(before, a, rows, |before|))
  {
    ScanListsOnce(before, a, rows, |before|);
    var cs := CandidatesTo(before, a, rows, |before|);
    hide CandidatesTo, ListsOnce, Picks, Lasting, RowOf;
    forall i | 0 <= i < |cs|
      ensures var n := RowOf(now, cs[i].bucket);
              n.Some? && (Picks(rows, now[n.value]) <==> now[n.value].status.Active?)
    {
      var m :| 0 <= m < |before| && before[m].id == cs[i].bucket && Picks(rows, before[m]);
      RowLasts(before, now, m, rows);
    }
  }

  lemma RowLasts(before: seq<Bucket>, now: seq<Bucket>, m: nat, rows: Rows)
    requires rows.DueAnywhere? || rows.GrantedBy?
    requires DistinctIds(now) && WellFormed(now) && Lasting(before, now) && m < |before| && Picks(rows, before[m])
    ensures var n := RowOf(now, before[m].id);
            n.Some? && (Picks(rows, now[n.value]) <==> now[n.value].status.Active?)
  {
    hide Picks;
    assert before[m] in before;
    var y :| y in now && Kept(before[m], y);
    var n :| 0 <= n < |now| && now[n] == y;
    RowFound(now, n);
    PickedStaysPicked(rows, before[m], y);
  }

  /** Rows that are not picked keep everything. */
  ghost predicate OnlyPickedChange(before: seq<Bucket>, after: seq<Bucket>, rows: Rows) {
    |after| == |before| && forall n :: 0 <= n < |before| && !Picks(rows, before[n]) ==> after[n] == before[n]
  }

  lemma UnpickedRowStays(l: Ledger, after: Ledger, a: nat, cs: seq<Candidate>, rows: Rows, why: Retirement, n: nat)
    requires OneAccount(l) && DistinctIds(l.buckets) && RetiredListed(l, after, a, cs, why, |cs|)
    requires ListsPicked(l.buckets, rows, cs)
    requires n < |l.buckets| && !Picks(rows, l.buckets[n])
    ensures after.buckets[n] == l.buckets[n]
  {
    hide Picks, HeldTo, RowOf;
    if ListedTo(cs, a, |cs|, l.buckets[n].id) {
      var i :| 0 <= i < |cs| && cs[i] == Candidate(a, l.buckets[n].id);
      RowFound(l.buckets, n);
      NextHeld(l.buckets, a, cs, i);
      assert CandidateDrawn(l, after.buckets, a, cs, why, i);
    }
  }

  lemma OwnListIsSafe(before: Ledger, l: Ledger, a: nat, rows: Rows, why: Retirement)
    requires rows.DueAnywhere? || rows.GrantedBy?
    requires Whole(before) && Whole(l) && Lasting(before.buckets, l.buckets)
    ensures OneAccount(l)
    ensures var own := CandidatesTo(before.buckets, a, rows, |before.buckets|);
            var after := Retired(AccountRows(l), a, own, why);
            && after.AccountRows? && RetiredListed(l, after.ledger, a, own, why, |own|)
            && ListsPicked(l.buckets, rows, own)
            && OnlyPickedChange(l.buckets, after.ledger.buckets, rows)
  {
    assert DistinctIds(before.buckets) && DistinctIds(l.buckets) && WellFormed(l.buckets);
    hide Balanced, DistinctIds, WellFormed, Lasting, Picks, RetiredCell, CandidateDrawn, ListedTo;
    var own := CandidatesTo(before.buckets, a, rows, |before.buckets|);
    ScanListsOnce(before.buckets, a, rows, |before.buckets|);
    ScanStaysPicked(before.buckets, l.buckets, a, rows);
    StaleListTakes(l, a, own, why, |own|);
    hide ListsOnce, ListsPicked;
    var after := Retired(AccountRows(l), a, own, why).ledger;
    forall n | 0 <= n < |l.buckets| && !Picks(rows, l.buckets[n]) ensures after.buckets[n] == l.buckets[n] {
      UnpickedRowStays(l, after, a, own, rows, why, n);
    }
  }

  /**
   * Whatever commits between the scan and the retirement: the listed rows are
   * still there, and due (or of the subscription) unless they are retired by
   * now; the balance drops by what they still hold, as far as it goes; and no
   * row changes that the statement would not pick at that moment.
   */
  lemma StaleListIsSafe(store: Store, history: seq<Op>, a: nat, rows: Rows, cs: seq<Candidate>, why: Retirement)
    requires WholeStore(store) && forall i :: 0 <= i < |history| ==> Callable(history[i])
    requires rows.DueAnywhere? || rows.GrantedBy?
    requires Scanned(store, rows, cs) && store[AccountLock(a)].AccountRows?
    ensures var cell := Serial(store, history)[AccountLock(a)]; var own := Own(cs, a);
            var after := Retired(cell, a, cs, why);
            && cell.AccountRows? && after.AccountRows?
            && var l := cell.ledger;
               && OneAccount(l) && RetiredListed(l, after.ledger, a, own, why, |own|)
               && ListsPicked(l.buckets, rows, own)
               && OnlyPickedChange(l.buckets, after.ledger.buckets, rows)
  {
    RowsLast(store, history, a);
    SerialKeepsWhole(store, history);
    var before, cell := store[AccountLock(a)], Serial(store, history)[AccountLock(a)];
    assert WholeRows(RowsIn(before)) && WholeRows(RowsIn(cell));
    hide WholeStore, Whole, Lasting, Serial, RetiredListed, ListsPicked, OnlyPickedChange, Retired, Picks;
    OwnListIsSafe(before.ledger, cell.ledger, a, rows, why);
    OnlyOwnCount(cell, a, cs, why);
  }
}
