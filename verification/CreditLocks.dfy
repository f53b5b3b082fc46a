/**
 * The lock order of the credit transactions: idempotency key, reservation,
 * accounts by id, then bucket rows in consumption order. Transactions that
 * follow it never wait for each other in a circle, so some transaction can
 * always go on.
 */
module CreditLocks {
  import opened CreditSchema
  import opened CreditBuckets

  datatype RowLock =
    | KeyRow(key: string)
    | ReservationRow(account: nat, reservation: nat)
    | AccountRow(account: nat)
    | BucketRow(bucket: Bucket)

  function Class(x: RowLock): nat {
    match x
    case KeyRow(_) => 0
    case ReservationRow(_, _) => 1
    case AccountRow(_) => 2
    case BucketRow(_) => 3
  }

  /** Two rows of the bucket table are the same row when they have the same id, whatever they hold at the time. */
  predicate SameRow(x: RowLock, y: RowLock) {
    if x.BucketRow? && y.BucketRow?
    then x.bucket.id == y.bucket.id && x.bucket.createdAt == y.bucket.createdAt
      && x.bucket.expiresAt == y.bucket.expiresAt
    else x == y
  }

  predicate Below(x: RowLock, y: RowLock) {
    || Class(x) < Class(y)
    || (x.AccountRow? && y.AccountRow? && x.account < y.account)
    || (x.BucketRow? && y.BucketRow? && Before(x.bucket, y.bucket))
  }

  lemma BelowIsStrict(x: RowLock, y: RowLock, z: RowLock)
    ensures SameRow(x, y) ==> !Below(x, y)
    ensures Below(x, y) && Below(y, z) ==> Below(x, z)
    ensures SameRow(x, y) && Below(y, z) ==> Below(x, z)
  {
  }

  ghost predicate Ascending(plan: seq<RowLock>) {
    forall i, j :: 0 <= i < j < |plan| ==> Below(plan[i], plan[j])
  }

  // ---- what each transaction locks ----

  /** SELECT ... ORDER BY expires_at NULLS LAST, created_at, id FOR UPDATE */
  function LockedRows(buckets: seq<Bucket>, rows: Rows): seq<RowLock> {
    if buckets == [] then []
    else
      LockedRows(buckets[..|buckets| - 1], rows)
      + if Picks(rows, buckets[|buckets| - 1]) then [BucketRow(buckets[|buckets| - 1])] else []
  }

  function LockedAccounts(ids: seq<nat>): seq<RowLock> {
    seq(|ids|, i requires 0 <= i < |ids| => AccountRow(ids[i]))
  }

  /** The rows a clawback found without a lock and locks again, if they are still active. */
  function LockedCandidates(buckets: seq<Bucket>, discovered: set<nat>): seq<RowLock> {
    if buckets == [] then []
    else
      var b := buckets[|buckets| - 1];
      LockedCandidates(buckets[..|buckets| - 1], discovered)
      + if b.id in discovered && b.status.Active? && 0 < b.remaining then [BucketRow(b)] else []
  }

  datatype Transaction =
    | Debiting(key: string, account: nat, now: Time)
    | Reserving(key: string, account: nat, scope: Scope, now: Time)
    | Capturing(key: string, reservation: nat, account: nat)
    | Releasing(key: string, reservation: nat, account: nat)
    | Granting(key: string, account: nat)
    | Expiring(account: nat, bucket: Bucket)
    | Revoking(accounts: seq<nat>, discovered: set<nat>)

  /** `buckets` is the bucket table as it is when its rows are locked. */
  function Plan(t: Transaction, buckets: seq<Bucket>): seq<RowLock> {
    match t
    case Debiting(key, a, now) => [KeyRow(key), AccountRow(a)] + LockedRows(buckets, Spendable(a, now))
    case Reserving(key, a, scope, now) => [KeyRow(key), AccountRow(a)] + LockedRows(buckets, DueIn(scope, a, now))
    case Capturing(key, v, a) => [KeyRow(key), ReservationRow(a, v), AccountRow(a)] + LockedRows(buckets, Settleable(a))
    case Releasing(key, v, a) => [KeyRow(key), ReservationRow(a, v), AccountRow(a)]
    case Granting(key, a) => [KeyRow(key), AccountRow(a)]
    case Expiring(a, bucket) => [AccountRow(a), BucketRow(bucket)]
    case Revoking(accounts, discovered) => LockedAccounts(accounts) + LockedCandidates(buckets, discovered)
  }

  predicate Sorted(t: Transaction) {
    t.Revoking? ==> forall i, j :: 0 <= i < j < |t.accounts| ==> t.accounts[i] < t.accounts[j]
  }

  ghost predicate RowsOnly(plan: seq<RowLock>, buckets: seq<Bucket>) {
    && Ascending(plan)
    && forall i :: 0 <= i < |plan| ==> plan[i].BucketRow? && plan[i].bucket in buckets
  }

  lemma {:induction false} LockedRowsAscend(buckets: seq<Bucket>, rows: Rows)
    requires Canonical(buckets)
    ensures RowsOnly(LockedRows(buckets, rows), buckets)
  {
    if buckets != [] {
      LockedRowsAscend(buckets[..|buckets| - 1], rows);
    }
  }

  lemma {:induction false} LockedCandidatesAscend(buckets: seq<Bucket>, discovered: set<nat>)
    requires Canonical(buckets)
    ensures RowsOnly(LockedCandidates(buckets, discovered), buckets)
  {
    if buckets != [] {
      LockedCandidatesAscend(buckets[..|buckets| - 1], discovered);
    }
  }

  /** Bucket rows come after everything else. */
  lemma RowsComeLast(first: seq<RowLock>, rows: seq<RowLock>, buckets: seq<Bucket>)
    requires Ascending(first) && (forall i :: 0 <= i < |first| ==> !first[i].BucketRow?) && RowsOnly(rows, buckets)
    ensures Ascending(first + rows)
  {
  }

  /** Every transaction takes its locks in ascending order. */
  lemma PlansAscend(t: Transaction, buckets: seq<Bucket>)
    requires Canonical(buckets) && Sorted(t)
    ensures Ascending(Plan(t, buckets))
  {
    hide Canonical, RowsOnly;
    match t
    case Debiting(key, a, now) =>
      LockedRowsAscend(buckets, Spendable(a, now));
      RowsComeLast([KeyRow(key), AccountRow(a)], LockedRows(buckets, Spendable(a, now)), buckets);
    case Reserving(key, a, scope, now) =>
      LockedRowsAscend(buckets, DueIn(scope, a, now));
      RowsComeLast([KeyRow(key), AccountRow(a)], LockedRows(buckets, DueIn(scope, a, now)), buckets);
    case Capturing(key, v, a) =>
      LockedRowsAscend(buckets, Settleable(a));
      RowsComeLast([KeyRow(key), ReservationRow(a, v), AccountRow(a)], LockedRows(buckets, Settleable(a)), buckets);
    case Revoking(accounts, discovered) =>
      LockedCandidatesAscend(buckets, discovered);
      RowsComeLast(LockedAccounts(accounts), LockedCandidates(buckets, discovered), buckets);
    case _ =>
  }

  // ---- waiting ----

  /** A transaction that has taken the first `held` locks of its plan. */
  datatype Holder = Holder(plan: seq<RowLock>, held: nat)

  type Holders = map<nat, Holder>

  ghost predicate Orderly(procs: Holders) {
    forall p :: p in procs ==> procs[p].held <= |procs[p].plan| && Ascending(procs[p].plan)
  }

  predicate Waiting(h: Holder) {
    h.held < |h.plan|
  }

  ghost predicate Holding(h: Holder, lock: RowLock) {
    exists i :: 0 <= i < h.held && i < |h.plan| && SameRow(h.plan[i], lock)
  }

  function Wanted(procs: Holders, p: nat): RowLock
    requires p in procs && Waiting(procs[p])
  {
    procs[p].plan[procs[p].held]
  }

  /** p wants a row that q holds. */
  ghost predicate WaitsFor(procs: Holders, p: nat, q: nat) {
    p in procs && q in procs && p != q && Waiting(procs[p]) && Holding(procs[q], Wanted(procs, p))
  }

  ghost predicate Blocked(procs: Holders, p: nat) {
    exists q :: WaitsFor(procs, p, q)
  }

  ghost predicate WaitsForOneOf(procs: Holders, some: set<nat>, p: nat) {
    exists q :: q in some && WaitsFor(procs, p, q)
  }

  /** A set of transactions each of which waits for one of them. */
  ghost predicate Deadlocked(procs: Holders, stuck: set<nat>) {
    stuck != {} && forall p :: p in stuck ==> WaitsForOneOf(procs, stuck, p)
  }

  /** Whoever is waited for, and waits itself, wants a row further up. */
  lemma WaitingClimbs(procs: Holders, p: nat, q: nat)
    requires Orderly(procs) && WaitsFor(procs, p, q) && Waiting(procs[q])
    ensures Below(Wanted(procs, p), Wanted(procs, q))
  {
    var wanted := Wanted(procs, p);
    var i :| 0 <= i < procs[q].held && i < |procs[q].plan| && SameRow(procs[q].plan[i], wanted);
    BelowIsStrict(wanted, procs[q].plan[i], Wanted(procs, q));
  }

  ghost predicate WantsTopmost(procs: Holders, some: set<nat>, p: nat)
    requires p in procs && Waiting(procs[p]) && forall q :: q in some ==> q in procs && Waiting(procs[q])
  {
    forall q :: q in some ==> !Below(Wanted(procs, p), Wanted(procs, q))
  }

  /** Among waiting transactions there is one that wants a topmost row. */
  lemma {:induction false} Topmost(procs: Holders, some: set<nat>) returns (p: nat)
    requires some != {} && forall q :: q in some ==> q in procs && Waiting(procs[q])
    ensures p in some && WantsTopmost(procs, some, p)
    decreases |some|
  {
    p :| p in some;
    if !WantsTopmost(procs, some, p) {
      var q :| q in some && Below(Wanted(procs, p), Wanted(procs, q));
      BelowIsStrict(Wanted(procs, p), Wanted(procs, p), Wanted(procs, p));
      var top := Topmost(procs, some - {p});
      BelowIsStrict(Wanted(procs, top), Wanted(procs, p), Wanted(procs, q));
      p := top;
    }
  }

  /** Transactions that lock in ascending order are never deadlocked. */
  lemma NeverDeadlocked(procs: Holders, stuck: set<nat>)
    requires Orderly(procs)
    ensures !Deadlocked(procs, stuck)
  {
    hide Holding, Below, Orderly, WaitsFor, WaitsForOneOf;
    if Deadlocked(procs, stuck) {
      forall p | p in stuck ensures p in procs && Waiting(procs[p]) {
        var q := WaitedFor(procs, stuck, p);
        WhoWaits(procs, p, q);
      }
      var top := Topmost(procs, stuck);
      var q := WaitedFor(procs, stuck, top);
      WaitingClimbs(procs, top, q);
    }
  }

  /** Unless all are done, some transaction waits for nobody. */
  lemma SomeoneCanGo(procs: Holders)
    requires Orderly(procs) && procs.Keys != {}
    ensures exists p :: p in procs && !Blocked(procs, p)
  {
    if forall p :: p in procs ==> Blocked(procs, p) {
      AllBlockedIsDeadlock(procs);
      NeverDeadlocked(procs, procs.Keys);
    }
  }

  lemma WaitedFor(procs: Holders, some: set<nat>, p: nat) returns (q: nat)
    requires WaitsForOneOf(procs, some, p)
    ensures q in some && WaitsFor(procs, p, q)
  {
    q :| q in some && WaitsFor(procs, p, q);
  }

  lemma WhoWaits(procs: Holders, p: nat, q: nat)
    requires WaitsFor(procs, p, q)
    ensures p in procs && q in procs && Waiting(procs[p])
  {
  }

  lemma AllBlockedIsDeadlock(procs: Holders)
    requires procs.Keys != {} && forall p :: p in procs ==> Blocked(procs, p)
    ensures Deadlocked(procs, procs.Keys)
  {
    hide WaitsFor;
    forall p | p in procs.Keys ensures WaitsForOneOf(procs, procs.Keys, p) {
      var q :| WaitsFor(procs, p, q);
      WhoWaits(procs, p, q);
    }
  }

  // ---- every schedule ----

  datatype LockMove = Start(p: nat, t: Transaction, buckets: seq<Bucket>) | Step(p: nat) | Abort(p: nat)

  /** The next lock if nobody holds it; the end of the transaction, which gives up every lock, once it has them all. */
  ghost function Move(procs: Holders, m: LockMove): Holders {
    match m
    case Start(p, t, buckets) => if p in procs then procs else procs[p := Holder(Plan(t, buckets), 0)]
    case Abort(p) => procs - {p}
    case Step(p) =>
      if p !in procs || Blocked(procs, p) then procs
      else if Waiting(procs[p]) then procs[p := procs[p].(held := procs[p].held + 1)]
      else procs - {p}
  }

  ghost function Moves(procs: Holders, moves: seq<LockMove>): Holders
    decreases |moves|
  {
    if moves == [] then procs else Moves(Move(procs, moves[0]), moves[1..])
  }

  ghost predicate InOrder(m: LockMove) {
    m.Start? ==> Sorted(m.t) && Canonical(m.buckets)
  }

  lemma {:induction false} MovesStayOrderly(procs: Holders, moves: seq<LockMove>)
    requires Orderly(procs) && forall i :: 0 <= i < |moves| ==> InOrder(moves[i])
    ensures Orderly(Moves(procs, moves))
    decreases |moves|
  {
    if moves != [] {
      if moves[0].Start? {
        PlansAscend(moves[0].t, moves[0].buckets);
      }
      MovesStayOrderly(Move(procs, moves[0]), moves[1..]);
    }
  }

  /** No schedule of debits, reserves, captures, releases, grants, expiries and clawbacks reaches a deadlock. */
  lemma NoReachableDeadlock(moves: seq<LockMove>, stuck: set<nat>)
    requires forall i :: 0 <= i < |moves| ==> InOrder(moves[i])
    ensures var procs := Moves(map[], moves);
            && !Deadlocked(procs, stuck)
            && (procs.Keys != {} ==> exists p :: p in procs && !Blocked(procs, p))
  {
    MovesStayOrderly(map[], moves);
    NeverDeadlocked(Moves(map[], moves), stuck);
    if Moves(map[], moves).Keys != {} {
      SomeoneCanGo(Moves(map[], moves));
    }
  }
}
