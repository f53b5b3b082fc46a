/** A walk over the bucket table, one row at a time, against its closed form. */
module CreditWalks {
  import opened Wrappers
  import opened CreditSchema
  import opened CreditBuckets
  import opened CreditService

  /** The table when the first n rows have been walked. */
  function DrawnTo(buckets: seq<Bucket>, rows: Rows, budget: Budget, drained: BucketStatus, n: nat): seq<Bucket>
    requires Covered(buckets, budget) && n <= |buckets|
  {
    seq(|buckets|, i requires 0 <= i < |buckets| =>
          if i < n then Draw(buckets[i], Share(buckets, rows, budget, i), drained) else buckets[i])
  }

  lemma DrawnGrows(buckets: seq<Bucket>, rows: Rows, budget: Budget, drained: BucketStatus, n: nat)
    requires Covered(buckets, budget) && n < |buckets|
    ensures DrawnTo(buckets, rows, budget, drained, n)[n] == buckets[n]
    ensures DrawnTo(buckets, rows, budget, drained, n + 1)
            == DrawnTo(buckets, rows, budget, drained, n)
                 [n := Draw(buckets[n], Share(buckets, rows, budget, n), drained)]
  {
  }

  /** A row's share: what it holds or what is left of the budget, whichever is less, if it is picked at all. */
  lemma ShareOfRow(buckets: seq<Bucket>, rows: Rows, budget: Budget, n: nat)
    requires WellFormed(buckets) && n < |buckets| && budget.Covers(buckets[n].account)
    ensures var b := buckets[n];
            var left := budget.Of(b.account) - TakenTo(buckets, rows, b.account, budget.Of(b.account), n);
            && 0 <= left
            && Share(buckets, rows, budget, n) == if Picks(rows, b) then Min(b.remaining, left) else 0
  {
    SumBounds(buckets, rows, buckets[n].account, 0, n);
    if Picks(rows, buckets[n]) {
      ShareIsWhatIsLeft(buckets, rows, budget, n);
    } else {
      ShareBounds(buckets, rows, budget, n);
    }
  }

  /** One row of a consumption, as the loop computes it. */
  lemma ConsumeStep(buckets: seq<Bucket>, rows: Rows, account: nat, amount: int, n: nat)
    requires WellFormed(buckets) && n < |buckets| && 0 <= amount
    requires rows.Spendable? || rows.Settleable?
    requires rows.account == account
    ensures var b := buckets[n];
            var before := DrawnTo(buckets, rows, Fixed(amount), Consumed, n);
            var left := amount - TakenTo(buckets, rows, account, amount, n);
            var take := Min(b.remaining, left);
            && before[n] == b
            && (!Picks(rows, b) ==>
                  && DrawnTo(buckets, rows, Fixed(amount), Consumed, n + 1) == before
                  && amount - TakenTo(buckets, rows, account, amount, n + 1) == left)
            && (Picks(rows, b) && 0 < left ==>
                  && DrawnTo(buckets, rows, Fixed(amount), Consumed, n + 1)
                     == before[n := b.(remaining := b.remaining - take,
                                       status := if b.remaining - take == 0 then Consumed else Active)]
                  && amount - TakenTo(buckets, rows, account, amount, n + 1) == left - take)
  {
    ShareOfRow(buckets, rows, Fixed(amount), n);
    DrawnGrows(buckets, rows, Fixed(amount), Consumed, n);
    var before := DrawnTo(buckets, rows, Fixed(amount), Consumed, n);
    if !Picks(rows, buckets[n]) {
      assert before[n := buckets[n]] == before;
    }
  }

  /** When the budget of the only account the rows can belong to is used up, the rest of the walk changes nothing. */
  lemma NothingLeft(buckets: seq<Bucket>, rows: Rows, account: nat, amount: int, drained: BucketStatus, n: nat)
    requires WellFormed(buckets) && 0 <= amount && n <= |buckets|
    requires rows.Spendable? || rows.Settleable?
    requires rows.account == account && (n == |buckets| || amount <= SumTo(buckets, rows, account, n))
    ensures DrawnTo(buckets, rows, Fixed(amount), drained, n) == Drawn(buckets, rows, Fixed(amount), drained)
  {
    forall i | n <= i < |buckets| ensures Share(buckets, rows, Fixed(amount), i) == 0 {
      ShareBounds(buckets, rows, Fixed(amount), i);
      if buckets[i].account == account {
        SumBounds(buckets, rows, account, n, i);
        SumBounds(buckets, rows, account, i, i + 1);
      }
    }
  }

  /** The ledger when the first n rows of an expiry or clawback have been walked. */
  function RetiredTo(l: Ledger, rows: Rows, why: Retirement, n: nat): Ledger
    requires Walkable(l) && n <= |l.buckets|
  {
    l.(accounts := RetiredAccounts(l, rows, n),
       buckets := DrawnTo(l.buckets, rows, Budget.Available(Balances(l.accounts)), why.Status(), n),
       log := l.log + RetirementEntries(l, rows, why, n))
  }

  lemma RetiredToEnds(l: Ledger, rows: Rows, why: Retirement)
    requires Walkable(l)
    ensures RetiredTo(l, rows, why, 0) == l
    ensures RetiredTo(l, rows, why, |l.buckets|) == Retire(l, rows, why)
  {
    assert RetiredAccounts(l, rows, 0) == l.accounts;
    assert DrawnTo(l.buckets, rows, Budget.Available(Balances(l.accounts)), why.Status(), 0) == l.buckets;
    assert l.log + RetirementEntries(l, rows, why, 0) == l.log;
    assert DrawnTo(l.buckets, rows, Budget.Available(Balances(l.accounts)), why.Status(), |l.buckets|)
        == Drawn(l.buckets, rows, Budget.Available(Balances(l.accounts)), why.Status());
  }

  /** Retiring `take` of row n, with the balance the account has by then. */
  function RetireRow(l: Ledger, n: nat, why: Retirement, take: int): Ledger
    requires n < |l.buckets| && l.buckets[n].account < |l.accounts|
  {
    var b := l.buckets[n];
    var account := l.accounts[b.account];
    var updated := account.(available := account.available - take);
    l.(accounts := l.accounts[b.account := updated],
       buckets := l.buckets[n := Draw(b, take, why.Status())],
       log := l.log + [why.EntryFor(b, account, take, updated.available)])
  }

  /**
   * What happens to a row an expiry or clawback looks at: it gives up what it
   * holds or what its account has available.
   */
  function RetireAny(l: Ledger, n: nat, why: Retirement): Ledger
    requires n < |l.buckets| && l.buckets[n].account < |l.accounts|
  {
    var take := Min(l.buckets[n].remaining, l.accounts[l.buckets[n].account].available);
    if 0 < take then RetireRow(l, n, why, take) else l
  }

  lemma AccountsStep(l: Ledger, rows: Rows, n: nat)
    requires Walkable(l) && n < |l.buckets|
    ensures var b := l.buckets[n]; var before := RetiredAccounts(l, rows, n);
            RetiredAccounts(l, rows, n + 1)
            == before[b.account := before[b.account].(available := AvailableAfter(l, rows, b.account, n + 1))]
  {
  }

  lemma LogStep(l: Ledger, rows: Rows, why: Retirement, n: nat)
    requires Walkable(l) && n < |l.buckets|
    ensures var before := l.log + RetirementEntries(l, rows, why, n);
            l.log + RetirementEntries(l, rows, why, n + 1)
            == if Share(l.buckets, rows, Budget.Available(Balances(l.accounts)), n) == 0 then before
              else before + [BucketEntry(l, rows, why, n)]
  {
  }

  lemma RetiredShare(l: Ledger, rows: Rows, why: Retirement, n: nat)
    requires Walkable(l) && n < |l.buckets|
    ensures var available := RetiredTo(l, rows, why, n).accounts[l.buckets[n].account].available;
            && 0 <= available
            && Share(l.buckets, rows, Budget.Available(Balances(l.accounts)), n)
               == if Picks(rows, l.buckets[n]) then Min(l.buckets[n].remaining, available) else 0
  {
    ShareOfRow(l.buckets, rows, Budget.Available(Balances(l.accounts)), n);
  }

  lemma RetiredSkips(l: Ledger, rows: Rows, why: Retirement, n: nat)
    requires Walkable(l) && n < |l.buckets| && Share(l.buckets, rows, Budget.Available(Balances(l.accounts)), n) == 0
    ensures RetiredTo(l, rows, why, n + 1) == RetiredTo(l, rows, why, n)
  {
    var before := RetiredTo(l, rows, why, n);
    var b := l.buckets[n];
    DrawnGrows(l.buckets, rows, Budget.Available(Balances(l.accounts)), why.Status(), n);
    AccountsStep(l, rows, n);
    LogStep(l, rows, why, n);
    assert before.accounts[b.account := before.accounts[b.account]] == before.accounts;
    assert before.buckets[n := b] == before.buckets;
  }

  lemma EntryStep(l: Ledger, rows: Rows, why: Retirement, n: nat)
    requires Walkable(l) && n < |l.buckets|
    ensures var b := l.buckets[n];
            var share := Share(l.buckets, rows, Budget.Available(Balances(l.accounts)), n);
            var account := RetiredAccounts(l, rows, n)[b.account];
            && AvailableAfter(l, rows, b.account, n + 1) == account.available - share
            && BucketEntry(l, rows, why, n) == why.EntryFor(b, account, share, account.available - share)
  {
  }

  lemma RetiredFinds(l: Ledger, rows: Rows, why: Retirement, n: nat)
    requires Walkable(l) && n < |l.buckets|
    ensures RetiredTo(l, rows, why, n).buckets[n] == l.buckets[n] && l.buckets[n].account < |l.accounts|
  {
  }

  lemma RetiredBooksRow(l: Ledger, rows: Rows, why: Retirement, n: nat)
    requires Walkable(l) && n < |l.buckets| && Share(l.buckets, rows, Budget.Available(Balances(l.accounts)), n) != 0
    ensures var share := Share(l.buckets, rows, Budget.Available(Balances(l.accounts)), n);
            var before := RetiredTo(l, rows, why, n);
            && before.buckets[n] == l.buckets[n]
            && RetiredTo(l, rows, why, n + 1).buckets == RetireRow(before, n, why, share).buckets
  {
    DrawnGrows(l.buckets, rows, Budget.Available(Balances(l.accounts)), why.Status(), n);
  }

  lemma RetiredBooksAccount(l: Ledger, rows: Rows, why: Retirement, n: nat)
    requires Walkable(l) && n < |l.buckets| && Share(l.buckets, rows, Budget.Available(Balances(l.accounts)), n) != 0
    ensures var share := Share(l.buckets, rows, Budget.Available(Balances(l.accounts)), n);
            var before := RetiredTo(l, rows, why, n);
            && before.buckets[n] == l.buckets[n]
            && RetiredTo(l, rows, why, n + 1).accounts == RetireRow(before, n, why, share).accounts
  {
    hide Walkable, Share, RetirementEntries, BucketEntry, AvailableAfter, RetiredAccounts, DrawnTo;
    RetiredFinds(l, rows, why, n);
    AccountsStep(l, rows, n);
    EntryStep(l, rows, why, n);
    RetiredLength(l, rows, n);
  }

  lemma RetiredLength(l: Ledger, rows: Rows, n: nat)
    requires Walkable(l) && n <= |l.buckets|
    ensures |RetiredAccounts(l, rows, n)| == |l.accounts|
  {
  }

  lemma RetiredBooksEntry(l: Ledger, rows: Rows, why: Retirement, n: nat)
    requires Walkable(l) && n < |l.buckets| && Share(l.buckets, rows, Budget.Available(Balances(l.accounts)), n) != 0
    ensures var share := Share(l.buckets, rows, Budget.Available(Balances(l.accounts)), n);
            var before := RetiredTo(l, rows, why, n);
            && before.buckets[n] == l.buckets[n]
            && RetiredTo(l, rows, why, n + 1).log == RetireRow(before, n, why, share).log
  {
    hide Walkable, Share, RetirementEntries, BucketEntry, AvailableAfter;
    RetiredFinds(l, rows, why, n);
    LogStep(l, rows, why, n);
    EntryStep(l, rows, why, n);
  }

  lemma RetiredBooks(l: Ledger, rows: Rows, why: Retirement, n: nat)
    requires Walkable(l) && n < |l.buckets| && Share(l.buckets, rows, Budget.Available(Balances(l.accounts)), n) != 0
    ensures RetiredTo(l, rows, why, n).buckets[n] == l.buckets[n]
    ensures RetiredTo(l, rows, why, n + 1)
            == RetireRow(RetiredTo(l, rows, why, n), n, why,
                         Share(l.buckets, rows, Budget.Available(Balances(l.accounts)), n))
  {
    RetiredBooksRow(l, rows, why, n);
    RetiredBooksAccount(l, rows, why, n);
    RetiredBooksEntry(l, rows, why, n);
  }

  /** One step of an expiry or clawback. */
  lemma RetiredStep(l: Ledger, rows: Rows, why: Retirement, n: nat)
    requires Walkable(l) && n < |l.buckets|
    ensures var before := RetiredTo(l, rows, why, n);
            && before.buckets[n] == l.buckets[n]
            && 0 <= before.accounts[l.buckets[n].account].available
            && RetiredTo(l, rows, why, n + 1) == if Picks(rows, l.buckets[n]) then RetireAny(before, n, why) else before
  {
    RetiredShare(l, rows, why, n);
    if Share(l.buckets, rows, Budget.Available(Balances(l.accounts)), n) == 0 {
      RetiredSkips(l, rows, why, n);
    } else {
      RetiredBooks(l, rows, why, n);
    }
  }

  /** One row of an expiry or clawback, as the loops treat it. */
  function StepRow(l: Ledger, n: nat, rows: Rows, why: Retirement): Ledger {
    if n < |l.buckets| && l.buckets[n].account < |l.accounts| && Picks(rows, l.buckets[n]) then RetireAny(l, n, why)
    else l
  }

  /** The loop: the first n rows, one after the other. */
  function Walk(l: Ledger, rows: Rows, why: Retirement, n: nat): Ledger {
    if n == 0 then l else StepRow(Walk(l, rows, why, n - 1), n - 1, rows, why)
  }

  lemma StepRowOfClosedForm(l: Ledger, rows: Rows, why: Retirement, n: nat)
    requires Walkable(l) && n < |l.buckets|
    ensures StepRow(RetiredTo(l, rows, why, n), n, rows, why) == RetiredTo(l, rows, why, n + 1)
  {
    RetiredStep(l, rows, why, n);
  }

  lemma WalkOneMore(l: Ledger, rows: Rows, why: Retirement, n: nat)
    ensures Walk(l, rows, why, n + 1) == StepRow(Walk(l, rows, why, n), n, rows, why)
  {
  }

  lemma {:induction false} Induct(p: nat -> bool, n: nat)
    requires p(0) && forall k :: 0 <= k < n && p(k) ==> p(k + 1)
    ensures p(n)
  {
    if 0 < n {
      Induct(p, n - 1);
    }
  }

  ghost predicate WalkAgrees(l: Ledger, rows: Rows, why: Retirement, n: nat)
    requires Walkable(l) && n <= |l.buckets|
  {
    Walk(l, rows, why, n) == RetiredTo(l, rows, why, n)
  }

  lemma WalkAgreesNext(l: Ledger, rows: Rows, why: Retirement, n: nat)
    requires Walkable(l) && n < |l.buckets| && WalkAgrees(l, rows, why, n)
    ensures WalkAgrees(l, rows, why, n + 1)
  {
    StepRowOfClosedForm(l, rows, why, n);
    WalkOneMore(l, rows, why, n);
  }

  lemma WalkIsClosedForm(l: Ledger, rows: Rows, why: Retirement, n: nat)
    requires Walkable(l) && n <= |l.buckets|
    ensures WalkAgrees(l, rows, why, n)
  {
    RetiredToEnds(l, rows, why);
    Induct((k: nat) => Walkable(l) && k <= |l.buckets| ==> WalkAgrees(l, rows, why, k), n) by {
      forall k: nat | k < |l.buckets| && WalkAgrees(l, rows, why, k) ensures WalkAgrees(l, rows, why, k + 1) {
        WalkAgreesNext(l, rows, why, k);
      }
    }
  }

  /** The loop over the whole table does what the closed form says. */
  lemma WalkRetires(l: Ledger, rows: Rows, why: Retirement)
    requires Walkable(l)
    ensures Walk(l, rows, why, |l.buckets|) == Retire(l, rows, why)
  {
    WalkIsClosedForm(l, rows, why, |l.buckets|);
    RetiredToEnds(l, rows, why);
  }

  /** What a loop finds when it comes to row n: the row as it was, and a non-negative balance. */
  lemma WalkFinds(l: Ledger, rows: Rows, why: Retirement, n: nat)
    requires Walkable(l) && n < |l.buckets|
    ensures var before := Walk(l, rows, why, n);
            && |before.buckets| == |l.buckets| && |before.accounts| == |l.accounts|
            && before.buckets[n] == l.buckets[n] && l.buckets[n].account < |l.accounts|
            && 0 <= before.accounts[l.buckets[n].account].available
  {
    WalkIsClosedForm(l, rows, why, n);
    RetiredStep(l, rows, why, n);
  }

  /** What the first n rows gave up on accounts of one credit type. */
  function RevokedTo(l: Ledger, rows: Rows, creditType: string, n: nat): int
    requires Walkable(l) && n <= |l.buckets|
  {
    if n == 0 then 0
    else
      RevokedTo(l, rows, creditType, n - 1)
      + if l.accounts[l.buckets[n - 1].account].creditType == creditType
        then Share(l.buckets, rows, Budget.Available(Balances(l.accounts)), n - 1) else 0
  }

  /** What a round takes off the balance is the row's share; whose account it is does not change. */
  lemma WalkTakes(l: Ledger, rows: Rows, why: Retirement, n: nat)
    requires Walkable(l) && n < |l.buckets|
    ensures var a := l.buckets[n].account; var before, after := Walk(l, rows, why, n), Walk(l, rows, why, n + 1);
            && a < |before.accounts| == |after.accounts| && a < |l.accounts|
            && before.accounts[a].creditType == l.accounts[a].creditType
            && before.accounts[a].available - after.accounts[a].available
               == Share(l.buckets, rows, Budget.Available(Balances(l.accounts)), n)
  {
    WalkIsClosedForm(l, rows, why, n);
    WalkIsClosedForm(l, rows, why, n + 1);
    hide Walk, RetirementEntries, DrawnTo;
  }

  /** The same for a consumption: the table and what is still to be taken. */
  datatype Consuming = Consuming(buckets: seq<Bucket>, left: int)

  function ConsumeRow(c: Consuming, n: nat, rows: Rows): Consuming {
    if n < |c.buckets| && Picks(rows, c.buckets[n]) then
      var b := c.buckets[n];
      var take := Min(b.remaining, c.left);
      Consuming(c.buckets[n := b.(remaining := b.remaining - take,
                                  status := if b.remaining - take == 0 then Consumed else Active)],
                c.left - take)
    else c
  }

  function ConsumedTo(buckets: seq<Bucket>, rows: Rows, account: nat, amount: int, n: nat): Consuming
    requires 0 <= amount && n <= |buckets|
  {
    Consuming(DrawnTo(buckets, rows, Fixed(amount), Consumed, n), amount - TakenTo(buckets, rows, account, amount, n))
  }

  function ConsumeWalk(buckets: seq<Bucket>, rows: Rows, amount: int, n: nat): Consuming {
    if n == 0 then Consuming(buckets, amount) else ConsumeRow(ConsumeWalk(buckets, rows, amount, n - 1), n - 1, rows)
  }

  lemma ConsumeRowOfClosedForm(buckets: seq<Bucket>, rows: Rows, account: nat, amount: int, n: nat)
    requires WellFormed(buckets) && 0 < amount && n < |buckets|
    requires rows.Spendable? || rows.Settleable?
    requires rows.account == account && SumTo(buckets, rows, account, n) < amount
    ensures ConsumeRow(ConsumedTo(buckets, rows, account, amount, n), n, rows)
            == ConsumedTo(buckets, rows, account, amount, n + 1)
  {
    ConsumeStep(buckets, rows, account, amount, n);
  }

  /** The loop has come to row n with the tables the closed form gives. */
  ghost predicate ConsumeAgrees(buckets: seq<Bucket>, rows: Rows, account: nat, amount: int, n: nat)
    requires 0 <= amount && n <= |buckets|
  {
    ConsumeWalk(buckets, rows, amount, n) == ConsumedTo(buckets, rows, account, amount, n)
  }

  lemma ConsumeAgreesNext(buckets: seq<Bucket>, rows: Rows, account: nat, amount: int, n: nat)
    requires WellFormed(buckets) && 0 < amount && n < |buckets|
    requires rows.Spendable? || rows.Settleable?
    requires rows.account == account && SumTo(buckets, rows, account, n) < amount
    requires ConsumeAgrees(buckets, rows, account, amount, n)
    ensures ConsumeAgrees(buckets, rows, account, amount, n + 1)
  {
    ConsumeRowOfClosedForm(buckets, rows, account, amount, n);
  }

  lemma ConsumeAgreesAtStart(buckets: seq<Bucket>, rows: Rows, account: nat, amount: int)
    requires 0 <= amount
    ensures ConsumeAgrees(buckets, rows, account, amount, 0)
  {
    assert DrawnTo(buckets, rows, Fixed(amount), Consumed, 0) == buckets;
  }

  lemma StillShort(buckets: seq<Bucket>, rows: Rows, account: nat, amount: int, k: nat, n: nat)
    requires WellFormed(buckets) && k < n <= |buckets| && SumTo(buckets, rows, account, n - 1) < amount
    ensures SumTo(buckets, rows, account, k) < amount
  {
    SumBounds(buckets, rows, account, k, n - 1);
  }

  /** As long as something is left to take, the loop is where the closed form says. */
  lemma ConsumeWalkIsClosedForm(buckets: seq<Bucket>, rows: Rows, account: nat, amount: int, n: nat)
    requires WellFormed(buckets) && 0 < amount && n <= |buckets|
    requires rows.Spendable? || rows.Settleable?
    requires rows.account == account && (n == 0 || SumTo(buckets, rows, account, n - 1) < amount)
    ensures ConsumeAgrees(buckets, rows, account, amount, n)
  {
    ConsumeAgreesAtStart(buckets, rows, account, amount);
    if n != 0 {
      Induct((k: nat) => 0 <= amount && k <= |buckets| && k <= n ==>
             ConsumeAgrees(buckets, rows, account, amount, k), n) by {
        forall k: nat | k < n && ConsumeAgrees(buckets, rows, account, amount, k)
          ensures ConsumeAgrees(buckets, rows, account, amount, k + 1)
        {
          StillShort(buckets, rows, account, amount, k, n);
          ConsumeAgreesNext(buckets, rows, account, amount, k);
        }
      }
    }
  }

  /**
   * The loop stops when nothing is left to take or the rows run out: then it
   * took the amount, or the rows do not hold it.
   */
  lemma ConsumeWalkEnds(buckets: seq<Bucket>, rows: Rows, account: nat, amount: int, n: nat)
    requires WellFormed(buckets) && 0 < amount && n <= |buckets|
    requires rows.Spendable? || rows.Settleable?
    requires rows.account == account && (n == 0 || SumTo(buckets, rows, account, n - 1) < amount)
    requires ConsumeWalk(buckets, rows, amount, n).left <= 0 || n == |buckets|
    ensures Consume(buckets, rows, account, amount)
            == if ConsumeWalk(buckets, rows, amount, n).left <= 0
              then Some(ConsumeWalk(buckets, rows, amount, n).buckets) else None
  {
    ConsumeWalkIsClosedForm(buckets, rows, account, amount, n);
    SumBounds(buckets, rows, account, n, |buckets|);
    if amount <= SumTo(buckets, rows, account, n) {
      NothingLeft(buckets, rows, account, amount, Consumed, n);
    }
  }

  /** The loop goes on exactly while the rows so far hold less than the amount. */
  lemma ConsumeWalkGoesOn(buckets: seq<Bucket>, rows: Rows, account: nat, amount: int, n: nat)
    requires WellFormed(buckets) && 0 < amount && n < |buckets|
    requires rows.Spendable? || rows.Settleable?
    requires rows.account == account && (n == 0 || SumTo(buckets, rows, account, n - 1) < amount)
    ensures |ConsumeWalk(buckets, rows, amount, n).buckets| == |buckets|
    ensures 0 < ConsumeWalk(buckets, rows, amount, n).left ==> SumTo(buckets, rows, account, n) < amount
  {
    ConsumeWalkIsClosedForm(buckets, rows, account, amount, n);
  }
}
