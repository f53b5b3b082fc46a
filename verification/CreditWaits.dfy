/**
 * The transactions of CreditInterleavings take their locks in the order of
 * CreditLocks, so none of their schedules ends in a deadlock.
 */
module CreditWaits {
  import opened Wrappers
  import opened CreditStatements
  import opened CreditInterleavings
  import opened CreditSerializability
  import opened CreditConcurrency
  import Order = CreditLocks

  function RowLock(lock: Lock): Order.RowLock {
    match lock
    case KeyLock(key) => Order.KeyRow(key)
    case ReservationLock(account, reservation) => Order.ReservationRow(account, reservation)
    case AccountLock(account) => Order.AccountRow(account)
  }

  /** All locks of an operation, in the order it takes them. */
  function LocksInOrder(op: Op): seq<Lock> {
    (if op.Single? then [KeyLock(op.key)] else []) + LocksOf(op)
  }

  function PlanOf(op: Op): seq<Order.RowLock> {
    var locks := LocksInOrder(op);
    seq(|locks|, i requires 0 <= i < |locks| => RowLock(locks[i]))
  }

  /** A clawback sorts the accounts it found. */
  predicate SortsAccounts(op: Op) {
    op.Many? ==> forall i, j :: 0 <= i < j < |op.accounts| ==> op.accounts[i] < op.accounts[j]
  }

  /** Key, reservation, accounts by id: every operation locks in ascending order. */
  lemma OperationsAscend(op: Op)
    requires SortsAccounts(op)
    ensures Order.Ascending(PlanOf(op))
  {
  }

  /** How far along its plan a transaction is. */
  function HolderOf(p: Process): Order.Holder {
    var first := if p.op.Single? then 1 else 0;
    var held :=
      match p.stage
      case Keying => 0
      case Checking => 1
      case Locking(n) => first + n
      case _ => |PlanOf(p.op)|;
    Order.Holder(PlanOf(p.op), held)
  }

  function HoldersOf(procs: map<nat, Process>): Order.Holders {
    map p | p in procs :: HolderOf(procs[p])
  }

  lemma {:induction false} LockedSoFar(locks: seq<Lock>, n: nat, lock: Lock)
    requires n <= |locks| && lock in LocksTo(locks, n)
    ensures exists i :: 0 <= i < n && locks[i] == lock
  {
    if lock != locks[n - 1] {
      LockedSoFar(locks, n - 1, lock);
    }
  }

  /** Whatever a transaction holds is in the part of its plan that it has behind it. */
  lemma HoldsItsPlan(p: Process, lock: Lock)
    requires OnTrack(p) && lock in p.mine
    ensures Order.Holding(HolderOf(p), RowLock(lock))
  {
    hide Alone, Finish, RetiredSoFar;
    var h := HolderOf(p);
    var first := if p.op.Single? then 1 else 0;
    if p.op.Single? && lock == KeyLock(p.op.key) {
      assert h.plan[0] == RowLock(lock);
    } else {
      var n := if p.stage.Locking? then p.stage.n else |LocksOf(p.op)|;
      LockedSoFar(LocksOf(p.op), n, lock);
      var i :| 0 <= i < n && LocksOf(p.op)[i] == lock;
      assert LocksInOrder(p.op)[first + i] == lock;
      assert h.plan[first + i] == RowLock(lock);
    }
  }

  lemma WantsItsNext(p: Process, lock: Lock)
    requires OnTrack(p) && Wants(p) == Some(lock)
    ensures Order.Waiting(HolderOf(p)) && HolderOf(p).plan[HolderOf(p).held] == RowLock(lock)
  {
  }

  // ---- waiting ----

  /** p wants a lock that q holds. */
  ghost predicate Awaits(procs: map<nat, Process>, p: nat, q: nat) {
    p in procs && q in procs && p != q && Wants(procs[p]).Some? && Wants(procs[p]).value in procs[q].mine
  }

  lemma AwaitsIsWaitsFor(procs: map<nat, Process>, p: nat, q: nat)
    requires Awaits(procs, p, q) && OnTrack(procs[p]) && OnTrack(procs[q])
    ensures Order.WaitsFor(HoldersOf(procs), p, q)
  {
    hide OnTrack, HolderOf, Wants;
    WantsItsNext(procs[p], Wants(procs[p]).value);
    HoldsItsPlan(procs[q], Wants(procs[p]).value);
  }

  ghost predicate AwaitsOneOf(procs: map<nat, Process>, some: set<nat>, p: nat) {
    exists q :: q in some && Awaits(procs, p, q)
  }

  ghost predicate Stuck(procs: map<nat, Process>, stuck: set<nat>) {
    stuck != {} && forall p :: p in stuck ==> AwaitsOneOf(procs, stuck, p)
  }

  ghost predicate AllInOrder(procs: map<nat, Process>) {
    forall p :: p in procs ==> SortsAccounts(procs[p].op)
  }

  lemma HoldersAreOrderly(procs: map<nat, Process>)
    requires AllInOrder(procs) && AllOnTrack(procs)
    ensures Order.Orderly(HoldersOf(procs))
  {
    forall p | p in procs ensures var h := HolderOf(procs[p]); h.held <= |h.plan| && Order.Ascending(h.plan) {
      HeldIsPart(procs[p]);
      OperationsAscend(procs[p].op);
    }
  }

  lemma HeldIsPart(p: Process)
    requires OnTrack(p)
    ensures HolderOf(p).held <= |HolderOf(p).plan|
  {
    hide Alone, Finish, RetiredSoFar;
  }

  ghost predicate AllOnTrack(procs: map<nat, Process>) {
    forall p :: p in procs ==> OnTrack(procs[p])
  }

  lemma StuckIsDeadlocked(procs: map<nat, Process>, stuck: set<nat>)
    requires AllOnTrack(procs) && Stuck(procs, stuck)
    ensures Order.Deadlocked(HoldersOf(procs), stuck)
  {
    hide OnTrack, Awaits, AwaitsOneOf, HoldersOf, Order.WaitsFor, Order.WaitsForOneOf;
    forall p | p in stuck ensures Order.WaitsForOneOf(HoldersOf(procs), stuck, p) {
      OneOfThem(procs, stuck, p);
    }
  }

  lemma OneOfThem(procs: map<nat, Process>, some: set<nat>, p: nat)
    requires AllOnTrack(procs) && AwaitsOneOf(procs, some, p)
    ensures Order.WaitsForOneOf(HoldersOf(procs), some, p)
  {
    hide OnTrack, HoldersOf, Order.WaitsFor, Wants;
    var q :| q in some && Awaits(procs, p, q);
    AwaitsIsWaitsFor(procs, p, q);
  }

  lemma NobodyIsStuck(s: System, from: Store, stuck: set<nat>)
    requires Invariant(s, from) && AllInOrder(s.procs)
    ensures !Stuck(s.procs, stuck)
  {
    assert AllOnTrack(s.procs);
    hide Invariant, OnTrack, Stuck, HoldersOf, Order.Orderly, Order.Deadlocked;
    HoldersAreOrderly(s.procs);
    Order.NeverDeadlocked(HoldersOf(s.procs), stuck);
    if Stuck(s.procs, stuck) {
      StuckIsDeadlocked(s.procs, stuck);
    }
  }

  /** A transaction that waits for nobody, so that its next step takes effect. */
  ghost predicate CanGo(procs: map<nat, Process>, p: nat) {
    p in procs && (Wants(procs[p]).Some? ==> !Taken(procs, p, Wants(procs[p]).value))
  }

  lemma SomebodyCanGo(s: System, from: Store)
    requires Invariant(s, from) && AllInOrder(s.procs) && s.procs.Keys != {}
    ensures exists p :: CanGo(s.procs, p)
  {
    hide Invariant, Wants;
    if forall p :: !CanGo(s.procs, p) {
      forall p | p in s.procs.Keys ensures AwaitsOneOf(s.procs, s.procs.Keys, p) {
        assert !CanGo(s.procs, p);
      }
      NobodyIsStuck(s, from, s.procs.Keys);
    }
  }

  lemma {:induction false} RunStaysInOrder(s: System, moves: seq<Move>)
    requires AllInOrder(s.procs) && forall m :: m in moves && m.Begin? ==> SortsAccounts(m.op)
    ensures AllInOrder(Run(s, moves).procs)
    decreases |moves|
  {
    if moves != [] {
      AdvanceStaysInOrder(s, moves[0]);
      hide Advance;
      RunStaysInOrder(Advance(s, moves[0]), moves[1..]);
    }
  }

  lemma AdvanceStaysInOrder(s: System, m: Move)
    requires AllInOrder(s.procs) && (m.Begin? ==> SortsAccounts(m.op))
    ensures AllInOrder(Advance(s, m).procs)
  {
    hide SortsAccounts, Publish, Do, RetireById, TakeById;
  }

  /**
   * No schedule of the transactions, crashes included, reaches a deadlock;
   * while any are left, one of them can go on.
   */
  lemma NoScheduleDeadlocks(store: Store, moves: seq<Move>, stuck: set<nat>)
    requires forall m :: m in moves && m.Begin? ==> SortsAccounts(m.op)
    ensures var procs := Run(System(store, map[], []), moves).procs;
            !Stuck(procs, stuck) && (procs.Keys != {} ==> exists p :: CanGo(procs, p))
  {
    var initial := System(store, map[], []);
    var s := Run(initial, moves);
    Serializable(initial, store, moves);
    RunStaysInOrder(initial, moves);
    hide Run, Stuck, CanGo, Invariant;
    NobodyIsStuck(s, store, stuck);
    if s.procs.Keys != {} {
      SomebodyCanGo(s, store);
    }
  }
}
