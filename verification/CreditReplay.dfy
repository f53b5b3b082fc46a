/**
 * Ledger replay: folding an account's entries reproduces its balances, and
 * every entry recorded the balances its own prefix of the log folds to.
 */
module CreditReplay {
  import opened CreditSchema
  import opened CreditBuckets
  import opened CreditService

  datatype Balance = Balance(available: int, reserved: int)

  function Amounts(rows: seq<Reservation>): seq<int> {
    seq(|rows|, v requires 0 <= v < |rows| => rows[v].amount)
  }

  /** A capture's entry shows only what was captured; what it settles is on the reservation row. */
  predicate Refers(e: Entry, accounts: nat, amounts: seq<int>) {
    e.account < accounts && (e.kind.CaptureUsage? ==> e.source.ReservationSource? && e.source.reservation < |amounts|)
  }

  function Effect(e: Entry, amounts: seq<int>): Balance
    requires e.kind.CaptureUsage? ==> e.source.ReservationSource? && e.source.reservation < |amounts|
  {
    match e.kind
    case ReserveUsage => Balance(e.amount, -e.amount)
    case ReleaseUsage => Balance(e.amount, -e.amount)
    case CaptureUsage => Balance(amounts[e.source.reservation] + e.amount, -amounts[e.source.reservation])
    case _ => Balance(e.amount, 0)
  }

  ghost predicate AllRefer(log: seq<Entry>, accounts: nat, amounts: seq<int>) {
    forall e :: 0 <= e < |log| ==> Refers(log[e], accounts, amounts)
  }

  /** The balances of `account` after the first n entries, computed from the entries alone. */
  function FoldTo(log: seq<Entry>, amounts: seq<int>, account: nat, n: nat): Balance
    requires n <= |log| && forall e :: 0 <= e < |log| ==> Refers(log[e], log[e].account + 1, amounts)
  {
    if n == 0 then Balance(0, 0)
    else
      var before := FoldTo(log, amounts, account, n - 1);
      if log[n - 1].account != account then before
      else
        var effect := Effect(log[n - 1], amounts);
        Balance(before.available + effect.available, before.reserved + effect.reserved)
  }

  ghost predicate Reproduced(accounts: seq<Account>, amounts: seq<int>, log: seq<Entry>) {
    && AllRefer(log, |accounts|, amounts)
    && (forall e :: 0 <= e < |log| ==>
          FoldTo(log, amounts, log[e].account, e + 1) == Balance(log[e].availableAfter, log[e].reservedAfter))
    && (forall a :: 0 <= a < |accounts| ==>
          FoldTo(log, amounts, a, |log|) == Balance(accounts[a].available, accounts[a].reserved))
  }

  ghost predicate Replays(l: Ledger) {
    Reproduced(l.accounts, Amounts(l.reservations), l.log)
  }

  lemma {:induction false} FoldAgrees(log: seq<Entry>, amounts: seq<int>, longer: seq<Entry>, more: seq<int>,
                                      account: nat, n: nat)
    requires n <= |log| && log <= longer && amounts <= more
    requires forall e :: 0 <= e < |log| ==> Refers(log[e], log[e].account + 1, amounts)
    requires forall e :: 0 <= e < |longer| ==> Refers(longer[e], longer[e].account + 1, more)
    ensures FoldTo(longer, more, account, n) == FoldTo(log, amounts, account, n)
  {
    if 0 < n {
      FoldAgrees(log, amounts, longer, more, account, n - 1);
    }
  }

  lemma {:induction false} NothingBooked(log: seq<Entry>, amounts: seq<int>, account: nat, n: nat)
    requires n <= |log| && forall e :: 0 <= e < |log| ==> Refers(log[e], log[e].account + 1, amounts)
    requires forall e :: 0 <= e < |log| ==> log[e].account != account
    ensures FoldTo(log, amounts, account, n) == Balance(0, 0)
  {
    if 0 < n {
      NothingBooked(log, amounts, account, n - 1);
    }
  }

  /** Booking one entry whose effect is what happened to its account, with the balances after it. */
  lemma AppendReproduces(accounts: seq<Account>, amounts: seq<int>, log: seq<Entry>, e: Entry, accounts': seq<Account>,
                         amounts': seq<int>)
    requires Reproduced(accounts, amounts, log)
    requires amounts <= amounts' && |accounts| <= |accounts'| <= |accounts| + 1 && Refers(e, |accounts'|, amounts')
    requires forall a :: 0 <= a < |accounts| && a != e.account ==>
               accounts'[a].available == accounts[a].available && accounts'[a].reserved == accounts[a].reserved
    requires |accounts| < |accounts'| ==> e.account == |accounts|
    requires var before := if e.account < |accounts|
             then Balance(accounts[e.account].available, accounts[e.account].reserved) else Balance(0, 0);
             var after := accounts'[e.account]; var effect := Effect(e, amounts');
             && after.available == before.available + effect.available
               && after.reserved == before.reserved + effect.reserved
             && e.availableAfter == after.available && e.reservedAfter == after.reserved
    ensures Reproduced(accounts', amounts', log + [e])
  {
    var longer := log + [e];
    assert AllRefer(longer, |accounts'|, amounts');
    forall a | 0 <= a < |accounts'|
      ensures FoldTo(longer, amounts', a, |longer|) == Balance(accounts'[a].available, accounts'[a].reserved)
    {
      FoldAgrees(log, amounts, longer, amounts', a, |log|);
      if |accounts| <= a {
        NothingBooked(log, amounts, a, |log|);
      }
    }
    forall x | 0 <= x < |longer|
      ensures FoldTo(longer, amounts', longer[x].account, x + 1)
              == Balance(longer[x].availableAfter, longer[x].reservedAfter)
    {
      if x < |log| {
        FoldAgrees(log, amounts, longer, amounts', longer[x].account, x + 1);
      }
    }
  }

  lemma GrantReplays(l: Ledger, scope: Scope, g: GrantInput, now: Time)
    requires Replays(l)
    ensures Replays(BookGrant(l, scope, g, now))
  {
    var after := BookGrant(l, scope, g, now);
    AppendReproduces(l.accounts, Amounts(l.reservations), l.log, after.log[|l.log|], after.accounts,
                     Amounts(after.reservations));
  }

  lemma DebitReplays(l: Ledger, scope: Scope, d: DebitInput, now: Time)
    requires Replays(l)
    ensures Replays(Debit(l, scope, d, now).ledger)
  {
    var after := Debit(l, scope, d, now).ledger;
    if after != l {
      AppendReproduces(l.accounts, Amounts(l.reservations), l.log, after.log[|l.log|], after.accounts,
                       Amounts(after.reservations));
    }
  }

  lemma ReservationReplays(l: Ledger, scope: Scope, r: ReserveInput, a: nat)
    requires Replays(l) && a < |l.accounts|
    ensures Replays(BookReservation(l, scope, r, a))
  {
    var after := BookReservation(l, scope, r, a);
    AppendReproduces(l.accounts, Amounts(l.reservations), l.log, after.log[|l.log|], after.accounts,
                     Amounts(after.reservations));
  }

  lemma CaptureReplays(l: Ledger, scope: Scope, id: nat, amount: int, key: string)
    requires Replays(l) && Bound(l.accounts, l.reservations)
    ensures Replays(Capture(l, scope, id, amount, key).ledger)
  {
    var after := Capture(l, scope, id, amount, key).ledger;
    if after != l {
      assert Amounts(after.reservations) == Amounts(l.reservations);
      AppendReproduces(l.accounts, Amounts(l.reservations), l.log, after.log[|l.log|], after.accounts,
                       Amounts(after.reservations));
    }
  }

  lemma ReleaseReplays(l: Ledger, scope: Scope, id: nat, key: string)
    requires Replays(l) && Bound(l.accounts, l.reservations)
    ensures Replays(Release(l, scope, id, key).ledger)
  {
    var after := Release(l, scope, id, key).ledger;
    if after != l {
      assert Amounts(after.reservations) == Amounts(l.reservations);
      AppendReproduces(l.accounts, Amounts(l.reservations), l.log, after.log[|l.log|], after.accounts,
                       Amounts(after.reservations));
    }
  }

  /** Row n - 1 moves its own account by its share and no other account. */
  lemma WalkStep(l: Ledger, rows: Rows, n: nat, a: nat)
    requires Walkable(l) && 0 < n <= |l.buckets| && a < |l.accounts|
    ensures var before := RetiredAccounts(l, rows, n - 1)[a]; var after := RetiredAccounts(l, rows, n)[a];
            && after == before.(available := after.available)
            && after.available == before.available
               - if a == l.buckets[n - 1].account
                 then Share(l.buckets, rows, Budget.Available(Balances(l.accounts)), n - 1) else 0
  {
  }

  lemma WalkBooksRow(l: Ledger, rows: Rows, why: Retirement, n: nat, log: seq<Entry>)
    requires Walkable(l) && 0 < n <= |l.buckets|
    requires Reproduced(RetiredAccounts(l, rows, n - 1), Amounts(l.reservations), log)
    ensures Reproduced(RetiredAccounts(l, rows, n), Amounts(l.reservations), log + [BucketEntry(l, rows, why, n - 1)])
  {
    forall a | 0 <= a < |l.accounts|
      ensures var before := RetiredAccounts(l, rows, n - 1)[a]; var after := RetiredAccounts(l, rows, n)[a];
              && after == before.(available := after.available)
              && after.available == before.available
                 - if a == l.buckets[n - 1].account
                   then Share(l.buckets, rows, Budget.Available(Balances(l.accounts)), n - 1) else 0
    {
      WalkStep(l, rows, n, a);
    }
    AppendReproduces(RetiredAccounts(l, rows, n - 1), Amounts(l.reservations), log, BucketEntry(l, rows, why, n - 1),
                     RetiredAccounts(l, rows, n), Amounts(l.reservations));
  }

  lemma WalkSkipsRow(l: Ledger, rows: Rows, n: nat)
    requires Walkable(l) && 0 < n <= |l.buckets|
    requires Share(l.buckets, rows, Budget.Available(Balances(l.accounts)), n - 1) == 0
    ensures RetiredAccounts(l, rows, n) == RetiredAccounts(l, rows, n - 1)
  {
    forall a | 0 <= a < |l.accounts| ensures RetiredAccounts(l, rows, n)[a] == RetiredAccounts(l, rows, n - 1)[a] {
      WalkStep(l, rows, n, a);
    }
  }

  /** The walk, row by row: the balances after n rows are what the entries of those rows fold to. */
  lemma {:induction false} WalkReproduces(l: Ledger, rows: Rows, why: Retirement, n: nat)
    requires Walkable(l) && Replays(l) && n <= |l.buckets|
    ensures Reproduced(RetiredAccounts(l, rows, n), Amounts(l.reservations), l.log + RetirementEntries(l, rows, why, n))
  {
    if n == 0 {
      assert RetiredAccounts(l, rows, n) == l.accounts;
      assert l.log + RetirementEntries(l, rows, why, n) == l.log;
    } else {
      WalkReproduces(l, rows, why, n - 1);
      var log := l.log + RetirementEntries(l, rows, why, n - 1);
      if Share(l.buckets, rows, Budget.Available(Balances(l.accounts)), n - 1) == 0 {
        WalkSkipsRow(l, rows, n);
        assert l.log + RetirementEntries(l, rows, why, n) == log;
      } else {
        WalkBooksRow(l, rows, why, n, log);
        assert l.log + RetirementEntries(l, rows, why, n) == log + [BucketEntry(l, rows, why, n - 1)];
      }
    }
  }

  lemma RetireReplays(l: Ledger, rows: Rows, why: Retirement)
    requires Walkable(l) && Replays(l)
    ensures Replays(Retire(l, rows, why))
  {
    WalkReproduces(l, rows, why, |l.buckets|);
  }

  // ---- conservation ----

  datatype Flow = Granting | Spending | Capturing | Lapsing | Revoking | Moving

  function FlowOf(kind: EntryType): Flow {
    match kind
    case DebitUsage => Spending
    case CaptureUsage => Capturing
    case GrantExpired => Lapsing
    case GrantRevoked => Revoking
    case ReserveUsage => Moving
    case ReleaseUsage => Moving
    case _ => Granting
  }

  /** The total an account's entries of one kind moved, as a positive number. */
  function TotalTo(log: seq<Entry>, account: nat, flow: Flow, n: nat): int
    requires n <= |log|
  {
    if n == 0 then 0
    else
      var e := log[n - 1];
      TotalTo(log, account, flow, n - 1)
      + if e.account != account || FlowOf(e.kind) != flow then 0 else if flow.Granting? then e.amount else -e.amount
  }

  function Total(log: seq<Entry>, account: nat, flow: Flow): int {
    TotalTo(log, account, flow, |log|)
  }

  lemma {:induction false} FoldConserves(log: seq<Entry>, amounts: seq<int>, account: nat, n: nat)
    requires n <= |log| && forall e :: 0 <= e < |log| ==> Refers(log[e], log[e].account + 1, amounts)
    ensures var b := FoldTo(log, amounts, account, n);
            TotalTo(log, account, Granting, n)
            == b.available + b.reserved + TotalTo(log, account, Spending, n) + TotalTo(log, account, Capturing, n)
               + TotalTo(log, account, Lapsing, n) + TotalTo(log, account, Revoking, n)
  {
    if 0 < n {
      FoldConserves(log, amounts, account, n - 1);
    }
  }

  /** Nothing appears or disappears: what was granted is held, or was debited, captured, expired or revoked. */
  lemma CreditIsConserved(l: Ledger, account: nat)
    requires Replays(l) && account < |l.accounts|
    ensures Total(l.log, account, Granting)
            == l.accounts[account].available + l.accounts[account].reserved
               + Total(l.log, account, Spending) + Total(l.log, account, Capturing)
               + Total(l.log, account, Lapsing) + Total(l.log, account, Revoking)
  {
    FoldConserves(l.log, Amounts(l.reservations), account, |l.log|);
  }
}
