/**
 * Every interleaving of credit transactions is equivalent to running the
 * committed ones one after the other, in commit order.
 */
module CreditSerializability {
  import opened Wrappers
  import opened CreditSchema
  import opened CreditService
  import opened CreditStatements
  import opened CreditInterleavings

  // ---- one transaction stays on track ----

  lemma SingleLocks(p: Process, lock: Lock, cell: Cell)
    requires OnTrack(p) && p.op.Single? && Wants(p) == Some(lock)
    ensures OnTrack(Granted(p, lock, cell))
  {
  }

  lemma ManyLocks(p: Process, lock: Lock, cell: Cell)
    requires OnTrack(p) && p.op.Many? && Wants(p) == Some(lock)
    ensures OnTrack(Granted(p, lock, cell))
  {
  }

  lemma StatementOnTrack(p: Process)
    requires OnTrack(p) && p.op.Single? && p.stage.Running? && p.stage.pc < |p.op.body|
    ensures AccountLock(p.op.account) in p.mine && OnTrack(RunStatement(p))
  {
    hide Do;
    FinishUnfolds(p.op.body, p.stage.pc, p.stage.local, RowsIn(p.mine[AccountLock(p.op.account)]));
  }

  lemma FinishUnfolds(body: seq<Statement>, pc: nat, local: Local, rows: Option<Ledger>)
    requires pc < |body|
    ensures var e := Do(body[pc], local, rows);
            && (rows.Some? ==> e.rows.Some?)
            && Finish(body, pc, local, rows)
               == match e.flow
                  case Again => Finish(body, pc, e.local, e.rows)
                  case Next => Finish(body, pc + 1, e.local, e.rows)
                  case _ => End(e.flow, e.rows)
  {
  }

  lemma SingleContinues(p: Process)
    requires OnTrack(p) && p.op.Single? && Wants(p).None? && !p.stage.Finished?
    ensures OnTrack(Continue(p))
  {
    hide Do, RunStatement;
    if p.stage.Running? && p.stage.pc < |p.op.body| {
      StatementOnTrack(p);
    }
  }

  /** The balance kept since the accounts were locked is the account's balance. */
  lemma CandidateAllowance(p: Process)
    requires OnTrack(p) && p.op.Many? && p.stage.Retiring? && p.stage.j < |p.op.candidates|
    ensures var q := RetireCandidate(p);
            && q.stage.Retiring? && q.stage.j == p.stage.j + 1
            && (forall a :: a in q.stage.allowance <==> Locked(q.mine, a))
            && (forall a :: a in q.stage.allowance ==> q.stage.allowance[a] == Balance(q.mine, a))
  {
    hide RetireById, TakeById, RetiredSoFar, AllLocks;
  }

  lemma CandidateCells(p: Process)
    requires OnTrack(p) && p.op.Many? && p.stage.Retiring? && p.stage.j < |p.op.candidates|
    ensures var q := RetireCandidate(p); q.op == p.op && q.start == p.start && q.mine.Keys == p.mine.Keys
    ensures RetiredSoFar(RetireCandidate(p), p.stage.j + 1)
  {
    hide RetireById, TakeById, AllLocks;
  }

  lemma CandidateOnTrack(p: Process)
    requires OnTrack(p) && p.op.Many? && p.stage.Retiring? && p.stage.j < |p.op.candidates|
    ensures OnTrack(RetireCandidate(p))
  {
    CandidateAllowance(p);
    CandidateCells(p);
    hide RetireCandidate, RetiredSoFar;
  }

  lemma ManyContinues(p: Process)
    requires OnTrack(p) && p.op.Many? && Wants(p).None? && !p.stage.Finished?
    ensures OnTrack(Continue(p))
  {
    hide RetireCandidate;
    if p.stage.Retiring? && p.stage.j < |p.op.candidates| {
      CandidateOnTrack(p);
    }
  }

  // ---- what a commit and a rollback amount to ----

  /** Nobody has published a cell the transaction holds. */
  ghost predicate Current(store: Store, p: Process) {
    forall lock :: lock in p.start ==> p.start[lock] == store[lock]
  }

  lemma SingleCommits(store: Store, p: Process)
    requires OnTrack(p) && p.op.Single? && p.stage == Finished(true) && Current(store, p)
    ensures Publish(store, p.mine) == Apply(store, p.op)
  {
    hide Alone;
    forall lock: Lock ensures Publish(store, p.mine)[lock] == Apply(store, p.op)[lock] {
    }
  }

  lemma {:induction false} LockedAccounts(op: Op, n: nat, lock: Lock)
    requires op.Many? && n <= |op.accounts|
    ensures lock in LocksTo(LocksOf(op), n) <==> lock.AccountLock? && lock.account in op.accounts[..n]
  {
    if 0 < n {
      LockedAccounts(op, n - 1, lock);
      assert op.accounts[..n] == op.accounts[..n - 1] + [op.accounts[n - 1]];
    }
  }

  lemma ManyCommits(store: Store, p: Process)
    requires OnTrack(p) && p.op.Many? && p.stage == Finished(true) && Current(store, p)
    ensures Publish(store, p.mine) == Apply(store, p.op)
  {
    hide RetiredCell;
    forall lock: Lock ensures Publish(store, p.mine)[lock] == Apply(store, p.op)[lock] {
      LockedAccounts(p.op, |p.op.accounts|, lock);
      assert p.op.accounts[..|p.op.accounts|] == p.op.accounts;
    }
  }

  /** A transaction that rolls itself back would have changed nothing alone either. */
  lemma RollbackIsApply(store: Store, p: Process)
    requires OnTrack(p) && p.stage == Finished(false) && Current(store, p)
    ensures Apply(store, p.op) == store
  {
    hide Alone;
  }

  // ---- the whole system ----

  ghost predicate Invariant(s: System, from: Store) {
    && (forall p :: p in s.procs ==> OnTrack(s.procs[p]) && Current(s.store, s.procs[p]))
    && Exclusive(s.procs)
    && s.store == Serial(from, s.history)
  }

  /** No two transactions hold the same lock. */
  ghost predicate Exclusive(procs: map<nat, Process>) {
    forall p, q :: p in procs && q in procs && p != q ==> procs[p].mine.Keys !! procs[q].mine.Keys
  }

  lemma SerialAppend(from: Store, history: seq<Op>, op: Op)
    ensures Serial(from, history + [op]) == Apply(Serial(from, history), op)
  {
    assert (history + [op])[..|history|] == history;
  }

  lemma CommitKeepsInvariant(s: System, from: Store, p: nat)
    requires Invariant(s, from) && p in s.procs && s.procs[p].stage == Finished(true)
    ensures Invariant(Advance(s, Go(p)), from)
    ensures Advance(s, Go(p)).store == Apply(s.store, s.procs[p].op)
  {
    hide Serial, Apply, OnTrack;
    var process := s.procs[p];
    if process.op.Single? {
      SingleCommits(s.store, process);
    } else {
      ManyCommits(s.store, process);
    }
    SerialAppend(from, s.history, process.op);
    forall q | q in s.procs && q != p ensures Current(Publish(s.store, process.mine), s.procs[q]) {
      assert s.procs[q].start.Keys == s.procs[q].mine.Keys by { OnTrackKeys(s.procs[q]); }
    }
  }

  lemma OnTrackKeys(p: Process)
    requires OnTrack(p)
    ensures p.start.Keys == p.mine.Keys
  {
  }

  lemma GrantedStaysExclusive(procs: map<nat, Process>, p: nat, lock: Lock, cell: Cell)
    requires Exclusive(procs) && p in procs && !Taken(procs, p, lock)
    ensures Exclusive(procs[p := Granted(procs[p], lock, cell)])
  {
    var after := procs[p := Granted(procs[p], lock, cell)];
    assert after[p].mine.Keys <= procs[p].mine.Keys + {lock};
    forall q | q in procs && q != p ensures after[p].mine.Keys !! procs[q].mine.Keys {
      assert procs[p].mine.Keys !! procs[q].mine.Keys;
    }
  }

  lemma GrantedStaysCurrent(store: Store, p: Process, lock: Lock)
    requires Current(store, p)
    ensures Current(store, Granted(p, lock, store[lock]))
  {
  }

  lemma GrantKeepsInvariant(s: System, from: Store, p: nat, lock: Lock)
    requires Invariant(s, from) && p in s.procs && Wants(s.procs[p]) == Some(lock) && !Taken(s.procs, p, lock)
    ensures Invariant(s.(procs := s.procs[p := Granted(s.procs[p], lock, s.store[lock])]), from)
  {
    hide Serial, Apply, OnTrack, Current, Exclusive, Granted, Wants, Taken;
    if s.procs[p].op.Single? {
      SingleLocks(s.procs[p], lock, s.store[lock]);
    } else {
      ManyLocks(s.procs[p], lock, s.store[lock]);
    }
    GrantedStaysCurrent(s.store, s.procs[p], lock);
    GrantedStaysExclusive(s.procs, p, lock, s.store[lock]);
  }

  lemma ContinueKeepsLocks(p: Process)
    requires OnTrack(p) && Wants(p).None? && !p.stage.Finished?
    ensures OnTrack(Continue(p)) && Continue(p).start == p.start && Continue(p).mine.Keys == p.mine.Keys
  {
    hide Do, OnTrack, Continue, Wants;
    if p.op.Single? {
      SingleContinues(p);
    } else {
      ManyContinues(p);
    }
    OnTrackKeys(p);
    OnTrackKeys(Continue(p));
    ContinueKeepsStart(p);
  }

  lemma ContinueKeepsStart(p: Process)
    ensures Continue(p).start == p.start
  {
    hide Do, RetireById, TakeById;
  }

  /** Every step of every transaction keeps the invariant. */
  lemma AdvanceKeepsInvariant(s: System, from: Store, m: Move)
    requires Invariant(s, from)
    ensures Invariant(Advance(s, m), from)
  {
    hide Serial, Apply, OnTrack, Continue, Publish, Wants, Granted, Taken;
    match m
    case Begin(p, op) => FreshIsOnTrack(op);
    case Crash(p) =>
    case Go(p) =>
      if p in s.procs {
        var process := s.procs[p];
        if process.stage.Finished? {
          if process.stage.commits {
            CommitKeepsInvariant(s, from, p);
          }
        } else if Wants(process).Some? {
          if !Taken(s.procs, p, Wants(process).value) {
            GrantKeepsInvariant(s, from, p, Wants(process).value);
          }
        } else {
          ContinueKeepsLocks(process);
        }
      }
  }

  lemma FreshIsOnTrack(op: Op)
    ensures OnTrack(Fresh(op))
  {
  }

  /** In every interleaving the committed cells are those of a serial run of the committed transactions. */
  lemma {:induction false} Serializable(s: System, from: Store, moves: seq<Move>)
    requires Invariant(s, from)
    ensures Invariant(Run(s, moves), from)
    decreases |moves|
  {
    if moves != [] {
      AdvanceKeepsInvariant(s, from, moves[0]);
      hide Invariant, Advance;
      Serializable(Advance(s, moves[0]), from, moves[1..]);
    }
  }

  // ---- a transaction that is left alone ends ----

  /** How far a transaction still has to go. */
  function Ahead(p: Process): (nat, nat, nat) {
    match p.stage
    case Keying => (6, 0, 0)
    case Checking => (5, 0, 0)
    case Locking(n) => (4, if n < |LocksOf(p.op)| then |LocksOf(p.op)| - n else 0, 0)
    case Running(pc, local) =>
      (3,
       if p.op.Single? && pc < |p.op.body| then |p.op.body| - pc else 0,
       if local.i < |local.seen| then |local.seen| - local.i else 0)
    case Reading => (3, 0, 0)
    case Recording => (2, 0, 0)
    case Retiring(j, _) => (2, if p.op.Many? && j < |p.op.candidates| then |p.op.candidates| - j else 0, 0)
    case Finished(_) => (0, 0, 0)
  }

  predicate Closer(before: Process, after: Process) {
    var b, a := Ahead(before), Ahead(after);
    a.0 < b.0 || (a.0 == b.0 && (a.1 < b.1 || (a.1 == b.1 && a.2 < b.2)))
  }

  lemma GrantedIsCloser(p: Process, lock: Lock, cell: Cell)
    requires Wants(p) == Some(lock)
    ensures Closer(p, Granted(p, lock, cell)) && Granted(p, lock, cell).op == p.op
  {
  }

  lemma ContinuedIsCloser(p: Process)
    requires OnTrack(p) && Wants(p).None? && !p.stage.Finished?
    ensures Closer(p, Continue(p)) && Continue(p).op == p.op
  {
    hide Finish, Alone, RetireById, TakeById, RetiredCell;
    if p.op.Single? && p.stage.Running? && p.stage.pc < |p.op.body| {
      StatementIsCloser(p);
    }
  }

  lemma StatementIsCloser(p: Process)
    requires p.op.Single? && p.stage.Running? && p.stage.pc < |p.op.body| && AccountLock(p.op.account) in p.mine
    ensures Closer(p, RunStatement(p)) && RunStatement(p).op == p.op
  {
    hide Do;
  }

  function GoTimes(p: nat, n: nat): seq<Move> {
    if n == 0 then [] else [Go(p)] + GoTimes(p, n - 1)
  }

  lemma OneGo(s: System, p: nat)
    requires s.procs.Keys == {p}
    ensures !(exists lock :: Taken(s.procs, p, lock))
  {
  }

  /** The last step of a transaction publishes what its operation does, or nothing if it does nothing. */
  lemma LastGo(s: System, from: Store, p: nat)
    requires Invariant(s, from) && s.procs.Keys == {p} && s.procs[p].stage.Finished?
    ensures Advance(s, Go(p)).procs.Keys == {} && Advance(s, Go(p)).store == Apply(s.store, s.procs[p].op)
  {
    if s.procs[p].stage.commits {
      CommitKeepsInvariant(s, from, p);
    } else {
      RollbackIsApply(s.store, s.procs[p]);
    }
    hide Apply, OnTrack, Serial;
  }

  /** Every other step brings it closer to its end and leaves the store alone. */
  lemma NextGo(s: System, from: Store, p: nat)
    requires Invariant(s, from) && s.procs.Keys == {p} && !s.procs[p].stage.Finished?
    ensures var next := Advance(s, Go(p));
            && Invariant(next, from) && next.procs.Keys == {p} && next.store == s.store
            && next.procs[p].op == s.procs[p].op && Closer(s.procs[p], next.procs[p])
  {
    hide Apply, OnTrack, Serial, Continue, Ahead;
    var process := s.procs[p];
    AdvanceKeepsInvariant(s, from, Go(p));
    OneGo(s, p);
    if Wants(process).Some? {
      GrantedIsCloser(process, Wants(process).value, s.store[Wants(process).value]);
    } else {
      ContinuedIsCloser(process);
    }
  }

  /** With nobody else about, a transaction reaches its end, and leaves what applying its operation leaves. */
  lemma {:induction false} LeftAloneItEnds(s: System, from: Store, p: nat) returns (n: nat)
    requires Invariant(s, from) && s.procs.Keys == {p}
    ensures var after := Run(s, GoTimes(p, n)); after.procs.Keys == {} && after.store == Apply(s.store, s.procs[p].op)
    decreases Ahead(s.procs[p]).0, Ahead(s.procs[p]).1, Ahead(s.procs[p]).2
  {
    hide Invariant, Apply, Advance, Ahead;
    if s.procs[p].stage.Finished? {
      LastGo(s, from, p);
      n := 1;
      assert GoTimes(p, 1)[1..] == GoTimes(p, 0);
    } else {
      NextGo(s, from, p);
      var m := LeftAloneItEnds(Advance(s, Go(p)), from, p);
      n := m + 1;
      assert GoTimes(p, n)[1..] == GoTimes(p, m);
    }
  }
}
