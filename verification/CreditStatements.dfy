/**
 * Credit transactions statement by statement, seen from the account they have
 * locked. An account's rows are a ledger of their own with that one account.
 *
 * The transaction log is not part of them: it is only ever appended to, and
 * read by idempotency key, which has a lock of its own.
 */
module CreditStatements {
  import opened Wrappers
  import opened CreditSchema
  import opened CreditBuckets
  import opened CreditService
  import opened CreditWalks

  datatype Statement =
    | Charge(amount: int)                          // available - amount, if available covers it
    | ReadRows(amount: int)                        // SELECT ... FOR UPDATE of the bucket rows
    | Spend(rows: Rows)                            // the loop of consumeBuckets
    | ExpireDue(now: Time)                         // the loop of expireDueBucketsForAccount
    | Hold(amount: int)                            // available to reserved, if available covers it
    | Enter(input: ReserveInput)                   // the new reservation row
    | Claim(scope: Scope, id: nat, into: ReservationStatus, amount: int)
    | SettleBalance(id: nat, amount: int)
    | SettleRow(id: nat, into: ReservationStatus, captured: Option<int>)
    | Credit(owner: Account, amount: int)          // ensureAccount, then available + amount
    | Issue(grant: GrantInput, now: Time)          // the new bucket row

  /** What a transaction keeps between two statements: the rows it read, how far its loop is, what is left to take. */
  datatype Local = Local(seen: seq<Bucket>, i: nat, left: int)

  const NOTHING_READ := Local([], 0, 0)

  /** How a statement ends: the loop goes round, the next statement follows, the transaction is over, or it throws. */
  datatype Flow = Again | Next | Over | Throws

  datatype Effect = Effect(flow: Flow, local: Local, rows: Option<Ledger>)

  predicate OneAccount(l: Ledger) {
    |l.accounts| == 1 && l.log == []
  }

  function Unlogged(l: Ledger): Ledger {
    l.(log := [])
  }

  function Moved(l: Ledger, available: int, reserved: int): Ledger
    requires OneAccount(l)
  {
    l.(accounts := [l.accounts[0].(available := l.accounts[0].available + available,
                                   reserved := l.accounts[0].reserved + reserved)])
  }

  /** One round over the rows a consumption has locked. The new values come from the row as it was read. */
  function SpendOne(l: Ledger, local: Local, rows: Rows): (r: (Ledger, Local))
    requires local.i < |local.seen|
  {
    var b := local.seen[local.i];
    if Picks(rows, b) && local.i < |l.buckets| then
      var take := Min(b.remaining, local.left);
      (l.(buckets := l.buckets[local.i := b.(remaining := b.remaining - take,
                                             status := if b.remaining - take == 0 then Consumed else Active)]),
       local.(i := local.i + 1, left := local.left - take))
    else (l, local.(i := local.i + 1))
  }

  /** Retire a row as it was read, with a balance that was read before. */
  function RetireSeen(l: Ledger, n: nat, b: Bucket, available: int, why: Retirement): Ledger
    requires OneAccount(l) && n < |l.buckets|
  {
    var take := Min(b.remaining, available);
    if 0 < take then
      var balance := if why.Expiry? then Max(l.accounts[0].available - take, 0) else l.accounts[0].available - take;
      l.(accounts := [l.accounts[0].(available := balance)], buckets := l.buckets[n := Draw(b, take, why.Status())])
    else l
  }

  function ExpireOne(l: Ledger, local: Local, now: Time): Ledger
    requires OneAccount(l) && local.i < |local.seen|
  {
    if Picks(DueIn(l.accounts[0].scope, 0, now), local.seen[local.i]) && local.i < |l.buckets|
    then RetireSeen(l, local.i, local.seen[local.i], l.accounts[0].available, Expiry)
    else l
  }

  function Owned(rows: Option<Ledger>, owner: Account): Ledger {
    if rows.Some? && OneAccount(rows.value) then rows.value
    else Ledger([owner.(available := 0, reserved := 0)], [], [], [])
  }

  /** One statement. A row that is not there makes the transaction throw. */
  function Do(s: Statement, local: Local, rows: Option<Ledger>): (e: Effect)
    ensures e.flow.Again? ==> local.i < |local.seen| == |e.local.seen| && e.local.i == local.i + 1
  {
    if s.Credit? then Effect(Next, local, Some(Moved(Owned(rows, s.owner), s.amount, 0)))
    else if rows.None? || !OneAccount(rows.value) then Effect(Throws, local, rows)
    else DoRows(s, local, rows.value)
  }

  function DoRows(s: Statement, local: Local, l: Ledger): (e: Effect)
    requires OneAccount(l) && !s.Credit?
    ensures e.flow.Again? ==> local.i < |local.seen| == |e.local.seen| && e.local.i == local.i + 1
  {
    var throws := Effect(Throws, local, Some(l));
    var over := Effect(Over, local, Some(l));
    match s
    case Credit(_, _) => assert false; throws
    case Charge(amount) =>
      if l.accounts[0].available < amount then throws else Effect(Next, local, Some(Moved(l, -amount, 0)))
    case ReadRows(amount) => Effect(Next, Local(l.buckets, 0, amount), Some(l))
    case Spend(rows) =>
      if local.i < |local.seen| && 0 < local.left then
        var (after, next) := SpendOne(l, local, rows);
        Effect(Again, next, Some(after))
      else if 0 < local.left then throws
      else Effect(Next, NOTHING_READ, Some(l))
    case ExpireDue(now) =>
      if local.i < |local.seen| then Effect(Again, local.(i := local.i + 1), Some(ExpireOne(l, local, now)))
      else Effect(Next, NOTHING_READ, Some(l))
    case Hold(amount) =>
      if l.accounts[0].available < amount then over else Effect(Next, local, Some(Moved(l, -amount, amount)))
    case Enter(r) =>
      Effect(Next, local, Some(l.(reservations := l.reservations + [
        Reservation(l.accounts[0].scope, r.customer, 0, r.amount, 0, Open, r.referenceType, r.referenceId, r.key)])))
    case Claim(scope, id, into, amount) =>
      var claim := LockReservation(l, scope, id);
      if claim.Refused? then throws
      else if claim.row.status == into then over
      else if !claim.row.status.Open? || claim.row.amount < amount then throws
      else Effect(Next, local, Some(l))
    case SettleBalance(id, amount) =>
      if |l.reservations| <= id || l.accounts[0].reserved < l.reservations[id].amount then throws
      else Effect(Next, local, Some(Moved(l, l.reservations[id].amount - amount, -l.reservations[id].amount)))
    case SettleRow(id, into, captured) =>
      if |l.reservations| <= id then throws
      else
        var v := l.reservations[id];
        Effect(Next, local, Some(l.(reservations := l.reservations[id :=
          v.(status := into, captured := if captured.Some? then captured.value else v.captured)])))
    case Issue(g, now) =>
      Effect(Next, local, Some(l.(buckets := InsertRow(l.buckets, NewBucket(l, l.accounts[0].scope, 0, g, now)))))
  }

  /** How a sequence of statements ends, and the account it leaves. */
  datatype End = End(flow: Flow, rows: Option<Ledger>)

  /** The statements from `pc` on, with nothing in between. */
  function Finish(body: seq<Statement>, pc: nat, local: Local, rows: Option<Ledger>): (end: End)
    ensures !end.flow.Again?
    decreases |body| - pc, |local.seen| - local.i
  {
    if |body| <= pc then End(Next, rows)
    else
      var e := Do(body[pc], local, rows);
      match e.flow
      case Again => Finish(body, pc, e.local, e.rows)
      case Next => Finish(body, pc + 1, e.local, e.rows)
      case _ => End(e.flow, e.rows)
  }

  function Alone(body: seq<Statement>, rows: Option<Ledger>): (end: End)
    ensures !end.flow.Again?
  {
    Finish(body, 0, NOTHING_READ, rows)
  }

  // ---- the bodies of the operations ----

  function DebitBody(amount: int, now: Time): seq<Statement> {
    [Charge(amount), ReadRows(amount), Spend(Spendable(0, now))]
  }

  function ReserveBody(r: ReserveInput, now: Time): seq<Statement> {
    [ReadRows(0), ExpireDue(now), Hold(r.amount), Enter(r)]
  }

  function CaptureBody(scope: Scope, id: nat, amount: int): seq<Statement> {
    [Claim(scope, id, Captured, amount), SettleBalance(id, amount), SettleRow(id, Captured, Some(amount)),
     ReadRows(amount), Spend(Settleable(0))]
  }

  function ReleaseBody(scope: Scope, id: nat): seq<Statement> {
    [Claim(scope, id, Released, 0), SettleBalance(id, 0), SettleRow(id, Released, None)]
  }

  function GrantBody(owner: Account, g: GrantInput, now: Time): seq<Statement> {
    [Credit(owner, g.amount), Issue(g, now)]
  }

  // ---- the loops ----

  /** A consumption loop that has come to row i. */
  ghost predicate SpendingAt(buckets: seq<Bucket>, rows: Rows, amount: int, local: Local) {
    && WellFormed(buckets) && 0 < amount && (rows.Spendable? || rows.Settleable?) && rows.account == 0
    && local.seen == buckets && local.i <= |buckets|
    && local.left == ConsumeWalk(buckets, rows, amount, local.i).left
    && (local.i == 0 || SumTo(buckets, rows, 0, local.i - 1) < amount)
  }

  lemma {:induction false} ConsumeWalkKeeps(buckets: seq<Bucket>, rows: Rows, amount: int, m: nat, n: nat)
    requires m <= n < |buckets|
    ensures |ConsumeWalk(buckets, rows, amount, m).buckets| == |buckets|
    ensures ConsumeWalk(buckets, rows, amount, m).buckets[n] == buckets[n]
  {
    if 0 < m {
      ConsumeWalkKeeps(buckets, rows, amount, m - 1, n);
    }
  }

  lemma SpendOneFollows(l: Ledger, buckets: seq<Bucket>, rows: Rows, amount: int, local: Local)
    requires SpendingAt(buckets, rows, amount, local) && local.i < |buckets| && 0 < local.left
    requires l.buckets == ConsumeWalk(buckets, rows, amount, local.i).buckets
    ensures var (after, next) := SpendOne(l, local, rows);
            && after == l.(buckets := ConsumeWalk(buckets, rows, amount, next.i).buckets)
            && next.i == local.i + 1
            && SpendingAt(buckets, rows, amount, next)
  {
    ConsumeWalkGoesOn(buckets, rows, 0, amount, local.i);
    ConsumeWalkKeeps(buckets, rows, amount, local.i, local.i);
    hide WellFormed, SumTo;
  }

  lemma FinishStep(body: seq<Statement>, pc: nat, local: Local, rows: Option<Ledger>)
    requires pc < |body|
    ensures var e := Do(body[pc], local, rows);
            Finish(body, pc, local, rows)
            == match e.flow
               case Again => Finish(body, pc, e.local, e.rows)
               case Next => Finish(body, pc + 1, e.local, e.rows)
               case _ => End(e.flow, e.rows)
  {
  }

  lemma SpendStops(l: Ledger, buckets: seq<Bucket>, rows: Rows, amount: int, local: Local)
    requires SpendingAt(buckets, rows, amount, local) && OneAccount(l)
    requires l.buckets == ConsumeWalk(buckets, rows, amount, local.i).buckets
    requires local.i == |buckets| || local.left <= 0
    ensures var e := Do(Spend(rows), local, Some(l)); var taken := Consume(buckets, rows, 0, amount);
            && (taken.None? ==> e.flow == Throws)
            && (taken.Some? ==> e == Effect(Next, NOTHING_READ, Some(l.(buckets := taken.value))))
  {
    ConsumeWalkEnds(buckets, rows, 0, amount, local.i);
    hide ConsumeWalk, Consume, SumTo;
  }

  /** The loop from row i on takes what is left, or throws when the rows do not hold it. */
  lemma {:induction false} SpendLoop(body: seq<Statement>, pc: nat, local: Local, l: Ledger, buckets: seq<Bucket>,
                                     amount: int)
    requires pc < |body| && body[pc].Spend? && OneAccount(l)
    requires SpendingAt(buckets, body[pc].rows, amount, local)
    requires l.buckets == ConsumeWalk(buckets, body[pc].rows, amount, local.i).buckets
    ensures Consume(buckets, body[pc].rows, 0, amount).None? ==> Finish(body, pc, local, Some(l)).flow == Throws
    ensures Consume(buckets, body[pc].rows, 0, amount).Some? ==>
              Finish(body, pc, local, Some(l))
              == Finish(body, pc + 1, NOTHING_READ,
                        Some(l.(buckets := Consume(buckets, body[pc].rows, 0, amount).value)))
    decreases |buckets| - local.i
  {
    hide ConsumeWalk, SumTo, SpendOne, WellFormed, Finish;
    FinishStep(body, pc, local, Some(l));
    if local.i < |buckets| && 0 < local.left {
      var (after, next) := SpendOne(l, local, body[pc].rows);
      SpendOneFollows(l, buckets, body[pc].rows, amount, local);
      SpendLoop(body, pc, next, after, buckets, amount);
    } else {
      SpendStops(l, buckets, body[pc].rows, amount, local);
    }
  }

  lemma ExpireOneFollows(l: Ledger, now: Time, local: Local)
    requires OneAccount(l) && Walkable(l) && local.seen == l.buckets && local.i < |l.buckets|
    ensures var due := DueIn(l.accounts[0].scope, 0, now);
            && OneAccount(Unlogged(Walk(l, due, Expiry, local.i)))
            && ExpireOne(Unlogged(Walk(l, due, Expiry, local.i)), local, now)
              == Unlogged(Walk(l, due, Expiry, local.i + 1))
  {
    hide WellFormed, Solvent, SumTo, Picks, RetirementEntries, DrawnTo;
    var due := DueIn(l.accounts[0].scope, 0, now);
    WalkFinds(l, due, Expiry, local.i);
    WalkIsClosedForm(l, due, Expiry, local.i);
    assert l.buckets[local.i].account == 0;
  }

  /** The expiry loop from row i on. */
  lemma {:induction false} ExpireLoop(body: seq<Statement>, pc: nat, local: Local, l: Ledger)
    requires pc < |body| && body[pc].ExpireDue? && OneAccount(l) && Walkable(l) && local.seen == l.buckets
    requires local.i <= |l.buckets|
    ensures var due := DueIn(l.accounts[0].scope, 0, body[pc].now);
            Finish(body, pc, local, Some(Unlogged(Walk(l, due, Expiry, local.i))))
            == Finish(body, pc + 1, NOTHING_READ, Some(Unlogged(ExpireAccount(l, 0, body[pc].now))))
    decreases |l.buckets| - local.i
  {
    hide Walk, ExpireOne, Finish, WellFormed, Linked, Solvent, Retire;
    var due := DueIn(l.accounts[0].scope, 0, body[pc].now);
    FinishStep(body, pc, local, Some(Unlogged(Walk(l, due, Expiry, local.i))));
    if local.i < |l.buckets| {
      ExpireOneFollows(l, body[pc].now, local);
      ExpireLoop(body, pc, local.(i := local.i + 1), l);
    } else {
      WalkIsOneAccount(l, due, local.i);
      WalkRetires(l, due, Expiry);
    }
  }

  lemma WalkIsOneAccount(l: Ledger, rows: Rows, n: nat)
    requires OneAccount(l) && Walkable(l) && n <= |l.buckets|
    ensures OneAccount(Unlogged(Walk(l, rows, Expiry, n)))
  {
    WalkIsClosedForm(l, rows, Expiry, n);
  }
}
