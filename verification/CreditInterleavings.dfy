/**
 * Concurrent credit transactions. Every idempotency key, reservation and
 * account is a cell under a lock of its own. A transaction takes locks as it
 * goes, works on the versions it locked, and publishes its cells and gives up
 * its locks when it commits. What it read before it held a lock (the account
 * and bucket ids it works on) is part of the operation: nothing is known about
 * it, so it may be stale.
 *
 * In every interleaving the committed cells are what running the committed
 * transactions one after the other, in commit order, produces.
 */
module CreditInterleavings {
  import opened Wrappers
  import opened CreditSchema
  import opened CreditBuckets
  import opened CreditService
  import opened CreditWalks
  import opened CreditStatements

  datatype Lock =
    | KeyLock(key: string)
    | ReservationLock(account: nat, reservation: nat)
    | AccountLock(account: nat)

  datatype Cell =
    | Vacant
    | Used(byReservation: bool)   // an idempotency key with an entry
    | AccountRows(ledger: Ledger)

  type Cells = map<Lock, Cell>

  /** All cells, Vacant where there is no row. */
  type Store = s: imap<Lock, Cell> | forall lock :: lock in s ghost witness imap lock: Lock | true :: Vacant

  datatype Candidate = Candidate(account: nat, bucket: nat)

  datatype Op =
    /** A keyed transaction on one account: debit, reserve, capture, release, grant. */
    | Single(key: string, byReservation: bool, reservation: Option<nat>, account: nat, body: seq<Statement>)
    /** The candidate buckets of an expiry sweep (one of them) or of a clawback (on several accounts). */
    | Many(accounts: seq<nat>, candidates: seq<Candidate>, why: Retirement)

  function RowsIn(cell: Cell): Option<Ledger> {
    if cell.AccountRows? then Some(cell.ledger) else None
  }

  function WithRows(cell: Cell, rows: Option<Ledger>): Cell {
    if rows.Some? then AccountRows(rows.value) else cell
  }

  // ---- one operation with nothing in between ----

  /** A key that has an entry stops the operation; a reservation only stops at an earlier reservation's key. */
  predicate Stops(op: Op, cell: Cell)
    requires op.Single?
  {
    cell.Used? && (op.byReservation ==> cell.byReservation)
  }

  /** The row with an id, if the account has it. */
  function RowOf(buckets: seq<Bucket>, id: nat): (n: Option<nat>)
    ensures n.Some? ==> n.value < |buckets| && buckets[n.value].id == id
    ensures n.None? ==> forall i :: 0 <= i < |buckets| ==> buckets[i].id != id
  {
    if buckets == [] then None
    else if buckets[|buckets| - 1].id == id then Some(|buckets| - 1)
    else RowOf(buckets[..|buckets| - 1], id)
  }

  /**
   * What `available` allows to take from a bucket found again by its id:
   * nothing if it is gone, retired or empty by now.
   */
  function TakeById(l: Ledger, id: nat, available: int): (take: int)
    ensures 0 <= take
  {
    var n := RowOf(l.buckets, id);
    if n.None? || !l.buckets[n.value].status.Active? || l.buckets[n.value].remaining <= 0 then 0
    else Max(0, Min(l.buckets[n.value].remaining, available))
  }

  function RetireById(l: Ledger, id: nat, available: int, why: Retirement): (after: Ledger)
    requires OneAccount(l)
    ensures OneAccount(after)
    ensures available == l.accounts[0].available ==>
              after.accounts[0].available == available - TakeById(l, id, available)
  {
    if TakeById(l, id, available) == 0 then l
    else
      var n := RowOf(l.buckets, id).value;
      RetireSeen(l, n, l.buckets[n], available, why)
  }

  function RetireIn(cell: Cell, account: nat, c: Candidate, why: Retirement): Cell {
    if c.account == account && cell.AccountRows? && OneAccount(cell.ledger)
    then AccountRows(RetireById(cell.ledger, c.bucket, cell.ledger.accounts[0].available, why))
    else cell
  }

  function RetiredCell(cell: Cell, account: nat, candidates: seq<Candidate>, why: Retirement, j: nat): Cell
    requires j <= |candidates|
  {
    if j == 0 then cell
    else RetireIn(RetiredCell(cell, account, candidates, why, j - 1), account, candidates[j - 1], why)
  }

  ghost function Apply(store: Store, op: Op): Store {
    match op
    case Single(key, byReservation, _, account, body) =>
      var lock := AccountLock(account);
      var end := Alone(body, RowsIn(store[lock]));
      if Stops(op, store[KeyLock(key)]) || end.flow.Throws? then store
      else if end.flow.Over? then store[lock := WithRows(store[lock], end.rows)]
      else if store[KeyLock(key)].Used? then store
      else store[lock := WithRows(store[lock], end.rows)][KeyLock(key) := Used(byReservation)]
    case Many(accounts, candidates, why) =>
      imap lock: Lock | true ::
        if lock.AccountLock? && lock.account in accounts
        then RetiredCell(store[lock], lock.account, candidates, why, |candidates|)
        else store[lock]
  }

  ghost function Serial(store: Store, history: seq<Op>): Store {
    if history == [] then store else Apply(Serial(store, history[..|history| - 1]), history[|history| - 1])
  }

  // ---- the same operation step by step ----

  datatype Stage =
    | Keying
    | Checking
    | Locking(n: nat)
    | Running(pc: nat, local: Local)
    | Recording
    | Reading
    | Retiring(j: nat, allowance: map<nat, int>)
    | Finished(commits: bool)

  /** `start` holds the versions the transaction locked, `mine` its own versions of them. */
  datatype Process = Process(op: Op, stage: Stage, start: Cells, mine: Cells)

  function Fresh(op: Op): Process {
    Process(op, if op.Single? then Keying else Locking(0), map[], map[])
  }

  /** The locks after the key, in the order they are taken. */
  function LocksOf(op: Op): seq<Lock> {
    match op
    case Single(_, _, None, account, _) => [AccountLock(account)]
    case Single(_, _, Some(id), account, _) => [ReservationLock(account, id), AccountLock(account)]
    case Many(accounts, _, _) => seq(|accounts|, j requires 0 <= j < |accounts| => AccountLock(accounts[j]))
  }

  function Wants(p: Process): Option<Lock> {
    match p.stage
    case Keying => if p.op.Single? then Some(KeyLock(p.op.key)) else None
    case Locking(n) => if n < |LocksOf(p.op)| then Some(LocksOf(p.op)[n]) else None
    case _ => None
  }

  /** A lock is granted: the transaction sees the latest committed version. */
  function Granted(p: Process, lock: Lock, cell: Cell): Process {
    var stage := if p.stage.Locking? then Locking(p.stage.n + 1) else Checking;
    if lock in p.mine then p.(stage := stage)
    else p.(stage := stage, start := p.start[lock := cell], mine := p.mine[lock := cell])
  }

  predicate Locked(mine: Cells, account: nat) {
    AccountLock(account) in mine && mine[AccountLock(account)].AccountRows?
      && OneAccount(mine[AccountLock(account)].ledger)
  }

  function Balance(mine: Cells, account: nat): int
    requires Locked(mine, account)
  {
    mine[AccountLock(account)].ledger.accounts[0].available
  }

  /** availableByAccount: the balances of the account rows just locked. */
  function ReadBalances(mine: Cells): (r: map<nat, int>)
    ensures forall a :: a in r <==> Locked(mine, a)
    ensures forall a :: a in r ==> r[a] == Balance(mine, a)
  {
    var held := set lock | lock in mine && lock.AccountLock? && Locked(mine, lock.account) :: lock.account;
    assert forall a :: Locked(mine, a) ==> AccountLock(a) in mine && AccountLock(a).account in held;
    map a | a in held :: Balance(mine, a)
  }

  /** One round over the candidates, with the balance read at the beginning less what was taken since. */
  function RetireCandidate(p: Process): Process
    requires p.op.Many? && p.stage.Retiring? && p.stage.j < |p.op.candidates|
  {
    var c := p.op.candidates[p.stage.j];
    var allowance := p.stage.allowance;
    if !Locked(p.mine, c.account) || c.account !in allowance then p.(stage := Retiring(p.stage.j + 1, allowance))
    else
      var l := p.mine[AccountLock(c.account)].ledger;
      var take := TakeById(l, c.bucket, allowance[c.account]);
      p.(stage := Retiring(p.stage.j + 1, allowance[c.account := allowance[c.account] - take]),
         mine := p.mine[AccountLock(c.account) := AccountRows(RetireById(l, c.bucket, allowance[c.account], p.op.why))])
  }

  function RunStatement(p: Process): Process
    requires p.op.Single? && p.stage.Running? && p.stage.pc < |p.op.body| && AccountLock(p.op.account) in p.mine
  {
    var lock := AccountLock(p.op.account);
    var e := Do(p.op.body[p.stage.pc], p.stage.local, RowsIn(p.mine[lock]));
    var stage :=
      match e.flow
      case Again => Running(p.stage.pc, e.local)
      case Next => Running(p.stage.pc + 1, e.local)
      case Over => Finished(true)
      case Throws => Finished(false);
    p.(stage := stage, mine := p.mine[lock := WithRows(p.mine[lock], e.rows)])
  }

  /** A step that waits for nothing. */
  function Continue(p: Process): Process {
    match p.op
    case Single(key, byReservation, _, account, body) =>
      if KeyLock(key) !in p.mine then p
      else if p.stage.Checking?
        then p.(stage := if Stops(p.op, p.mine[KeyLock(key)]) then Finished(true) else Locking(0))
      else if AccountLock(account) !in p.mine then p
      else if p.stage.Locking? then p.(stage := Running(0, NOTHING_READ))
      else if p.stage.Running? then
        if p.stage.pc < |body| then RunStatement(p) else p.(stage := Recording)
      else if p.stage.Recording? then
        if p.mine[KeyLock(key)].Used? then p.(stage := Finished(false))
        else p.(stage := Finished(true), mine := p.mine[KeyLock(key) := Used(byReservation)])
      else p
    case Many(accounts, candidates, why) =>
      if p.stage.Locking? then p.(stage := Reading)
      else if p.stage.Reading? then p.(stage := Retiring(0, ReadBalances(p.mine)))
      else if p.stage.Retiring? then
        if p.stage.j < |candidates| then RetireCandidate(p) else p.(stage := Finished(true))
      else p
  }

  // ---- all of them together ----

  datatype System = System(store: Store, procs: map<nat, Process>, history: seq<Op>)

  datatype Move = Begin(p: nat, op: Op) | Go(p: nat) | Crash(p: nat)

  ghost predicate Taken(procs: map<nat, Process>, p: nat, lock: Lock) {
    exists q :: q in procs && q != p && lock in procs[q].mine
  }

  ghost function Publish(store: Store, mine: Cells): Store {
    imap lock: Lock | true :: if lock in mine then mine[lock] else store[lock]
  }

  /** One step of one transaction; a transaction whose next lock is taken waits. */
  ghost function Advance(s: System, m: Move): System {
    match m
    case Begin(p, op) => if p in s.procs then s else s.(procs := s.procs[p := Fresh(op)])
    case Crash(p) => s.(procs := s.procs - {p})
    case Go(p) =>
      if p !in s.procs then s
      else
        var process := s.procs[p];
        if process.stage.Finished? then
          if process.stage.commits
          then System(Publish(s.store, process.mine), s.procs - {p}, s.history + [process.op])
          else s.(procs := s.procs - {p})
        else
          match Wants(process)
          case Some(lock) =>
            if Taken(s.procs, p, lock) then s
            else s.(procs := s.procs[p := Granted(process, lock, s.store[lock])])
          case None => s.(procs := s.procs[p := Continue(process)])
  }

  ghost function Run(s: System, moves: seq<Move>): System
    decreases |moves|
  {
    if moves == [] then s else Run(Advance(s, moves[0]), moves[1..])
  }

  // ---- where a transaction is ----

  function LocksTo(locks: seq<Lock>, n: nat): set<Lock>
    requires n <= |locks|
  {
    if n == 0 then {} else LocksTo(locks, n - 1) + {locks[n - 1]}
  }

  function AllLocks(op: Op): set<Lock> {
    LocksTo(LocksOf(op), |LocksOf(op)|) + if op.Single? then {KeyLock(op.key)} else {}
  }

  /** What a transaction has done so far is what it would have done alone with the versions it locked. */
  ghost predicate OnTrack(p: Process) {
    && p.start.Keys == p.mine.Keys
    && if p.op.Single? then SingleOnTrack(p) else ManyOnTrack(p)
  }

  ghost predicate SingleOnTrack(p: Process)
    requires p.op.Single? && p.start.Keys == p.mine.Keys
  {
    var key, lock := KeyLock(p.op.key), AccountLock(p.op.account);
    match p.stage
    case Keying => p.start.Keys == {}
    case Checking => p.start.Keys == {key} && p.mine == p.start
    case Locking(n) =>
      && n <= |LocksOf(p.op)| && p.start.Keys == {key} + LocksTo(LocksOf(p.op), n)
      && p.mine == p.start && !Stops(p.op, p.start[key])
    case Running(pc, local) =>
      && Underway(p)
      && pc <= |p.op.body|
      && Finish(p.op.body, pc, local, RowsIn(p.mine[lock])) == Alone(p.op.body, RowsIn(p.start[lock]))
    case Recording => Underway(p) && Alone(p.op.body, RowsIn(p.start[lock])) == End(Flow.Next, RowsIn(p.mine[lock]))
    case Finished(commits) =>
      if commits then SingleDone(p)
      else
        && p.start.Keys == AllLocks(p.op) && !Stops(p.op, p.start[key]) && Inside(p.op, p.start.Keys)
        && (Alone(p.op.body, RowsIn(p.start[lock])).flow.Throws?
            || (Alone(p.op.body, RowsIn(p.start[lock])).flow == Flow.Next && p.start[key].Used?))
    case _ => false
  }

  predicate Inside(op: Op, locks: set<Lock>)
    requires op.Single?
  {
    KeyLock(op.key) in locks && AccountLock(op.account) in locks
  }

  /** All locks are held, and only the account's rows may have changed. */
  ghost predicate Underway(p: Process)
    requires p.op.Single? && p.start.Keys == p.mine.Keys
  {
    && p.start.Keys == AllLocks(p.op) && Inside(p.op, p.start.Keys) && !Stops(p.op, p.start[KeyLock(p.op.key)])
    && (forall r :: r in p.start && r != AccountLock(p.op.account) ==> p.mine[r] == p.start[r])
    && p.mine[AccountLock(p.op.account)]
      == WithRows(p.start[AccountLock(p.op.account)], RowsIn(p.mine[AccountLock(p.op.account)]))
  }

  ghost predicate SingleDone(p: Process)
    requires p.op.Single? && p.start.Keys == p.mine.Keys
  {
    var key, lock := KeyLock(p.op.key), AccountLock(p.op.account);
    || (p.start.Keys == {key} && Stops(p.op, p.start[key]) && p.mine == p.start)
    || (&& p.start.Keys == AllLocks(p.op) && Inside(p.op, p.start.Keys) && !Stops(p.op, p.start[key])
        && var end := Alone(p.op.body, RowsIn(p.start[lock]));
           && !end.flow.Throws? && (end.flow == Flow.Next ==> !p.start[key].Used?)
           && p.mine[lock] == WithRows(p.start[lock], end.rows)
           && p.mine[key] == (if end.flow == Flow.Next then Used(p.op.byReservation) else p.start[key])
           && (forall r :: r in p.start && r != lock && r != key ==> p.mine[r] == p.start[r]))
  }

  ghost predicate ManyOnTrack(p: Process)
    requires p.op.Many? && p.start.Keys == p.mine.Keys
  {
    match p.stage
    case Locking(n) => n <= |LocksOf(p.op)| && p.start.Keys == LocksTo(LocksOf(p.op), n) && p.mine == p.start
    case Reading => p.start.Keys == AllLocks(p.op) && p.mine == p.start
    case Retiring(j, allowance) =>
      && p.start.Keys == AllLocks(p.op) && j <= |p.op.candidates| && RetiredSoFar(p, j)
      && (forall a :: a in allowance <==> Locked(p.mine, a))
      && (forall a :: a in allowance ==> allowance[a] == Balance(p.mine, a))
    case Finished(commits) => commits && p.start.Keys == AllLocks(p.op) && RetiredSoFar(p, |p.op.candidates|)
    case _ => false
  }

  ghost predicate RetiredSoFar(p: Process, j: nat)
    requires p.op.Many? && p.start.Keys == p.mine.Keys && j <= |p.op.candidates|
  {
    forall r :: r in p.start ==>
      p.mine[r] == if r.AccountLock? then RetiredCell(p.start[r], r.account, p.op.candidates, p.op.why, j)
        else p.start[r]
  }
}
