/**
 * How an amount is spread over grant buckets.
 *
 * Consumption, expiry and clawback all walk some rows of the bucket table in
 * canonical order and take from each row what it still holds, until a budget
 * is used up. Here that walk is given in closed form: after the first n rows
 * the account has given up Min(budget, what those rows hold), and a row's
 * share is the difference it makes to that.
 */
module CreditBuckets {
  import opened Wrappers
  import opened CreditSchema

  /** The WHERE clauses of the statements that read bucket rows. */
  datatype Rows =
    | Spendable(account: nat, now: Time)               // new spending: never past its expiry
    | Settleable(account: nat)                         // capture of an earlier reservation: expired rows too
    | DueIn(scope: Scope, account: nat, now: Time)     // account-scoped expiry
    | DueAnywhere(now: Time)                           // the cron sweep
    | GrantedBy(scope: Scope, subscription: string)    // clawback of one subscription

  predicate PastExpiry(b: Bucket, now: Time) {
    b.expiresAt.Some? && b.expiresAt.value <= now
  }

  predicate Picks(rows: Rows, b: Bucket) {
    && b.status.Active?
    && match rows
       case Spendable(account, now) => b.account == account && !PastExpiry(b, now)
       case Settleable(account) => b.account == account
       case DueIn(scope, account, now) =>
         b.account == account && b.scope == scope && PastExpiry(b, now) && b.remaining > 0
       case DueAnywhere(now) => PastExpiry(b, now) && b.remaining > 0
       case GrantedBy(scope, subscription) =>
         b.scope == scope && b.remaining > 0 && b.source.FromSubscription? && b.sourceId == subscription
  }

  ghost predicate WellFormed(buckets: seq<Bucket>) {
    forall i :: 0 <= i < |buckets| ==> WellFormedRow(buckets[i])
  }

  predicate WellFormedRow(b: Bucket) {
    0 <= b.remaining <= b.granted && 0 < b.granted && (b.status.Active? <==> 0 < b.remaining)
  }

  function Weight(b: Bucket, rows: Rows, account: nat): int {
    if b.account == account && Picks(rows, b) then b.remaining else 0
  }

  /** What the first n rows hold, counting the rows of `account` that `rows` picks. */
  function SumTo(buckets: seq<Bucket>, rows: Rows, account: nat, n: nat): int
    requires n <= |buckets|
  {
    if n == 0 then 0 else SumTo(buckets, rows, account, n - 1) + Weight(buckets[n - 1], rows, account)
  }

  function Sum(buckets: seq<Bucket>, rows: Rows, account: nat): int {
    SumTo(buckets, rows, account, |buckets|)
  }

  /** sum(active bucket remaining) of one account. */
  function ActiveSum(buckets: seq<Bucket>, account: nat): int {
    Sum(buckets, Settleable(account), account)
  }

  /** How much an account may give up: a fixed amount, or whatever it has available. */
  datatype Budget = Fixed(amount: int) | Available(balances: seq<int>)
  {
    predicate Covers(account: nat) {
      match this
      case Fixed(amount) => 0 <= amount
      case Available(balances) => account < |balances| && 0 <= balances[account]
    }

    function Of(account: nat): int
      requires Covers(account)
    {
      match this
      case Fixed(amount) => amount
      case Available(balances) => balances[account]
    }
  }

  ghost predicate Covered(buckets: seq<Bucket>, budget: Budget) {
    forall i :: 0 <= i < |buckets| ==> budget.Covers(buckets[i].account)
  }

  function TakenTo(buckets: seq<Bucket>, rows: Rows, account: nat, budget: int, n: nat): int
    requires n <= |buckets|
  {
    Min(budget, SumTo(buckets, rows, account, n))
  }

  function Taken(buckets: seq<Bucket>, rows: Rows, account: nat, budget: int): int {
    TakenTo(buckets, rows, account, budget, |buckets|)
  }

  function Share(buckets: seq<Bucket>, rows: Rows, budget: Budget, i: nat): int
    requires i < |buckets| && budget.Covers(buckets[i].account)
  {
    var account := buckets[i].account;
    TakenTo(buckets, rows, account, budget.Of(account), i + 1) - TakenTo(buckets, rows, account, budget.Of(account), i)
  }

  function Draw(b: Bucket, share: int, drained: BucketStatus): Bucket {
    if share == 0 then b
    else b.(remaining := b.remaining - share, status := if share == b.remaining then drained else Active)
  }

  /** The table after the walk. `drained` is the status of a row that gave up all it held. */
  function Drawn(buckets: seq<Bucket>, rows: Rows, budget: Budget, drained: BucketStatus): seq<Bucket>
    requires Covered(buckets, budget)
  {
    seq(|buckets|, i requires 0 <= i < |buckets| => Draw(buckets[i], Share(buckets, rows, budget, i), drained))
  }

  // ---- sums ----

  lemma {:induction false} SumBounds(buckets: seq<Bucket>, rows: Rows, account: nat, m: nat, n: nat)
    requires WellFormed(buckets) && m <= n <= |buckets|
    ensures 0 <= SumTo(buckets, rows, account, m) <= SumTo(buckets, rows, account, n)
  {
    if m < n {
      SumBounds(buckets, rows, account, m, n - 1);
    } else if 0 < n {
      SumBounds(buckets, rows, account, m - 1, n - 1);
    }
  }

  /** A selection that picks fewer rows never holds more. */
  lemma {:induction false} SumMonotone(buckets: seq<Bucket>, few: Rows, many: Rows, account: nat, n: nat)
    requires WellFormed(buckets) && n <= |buckets|
    requires forall i :: 0 <= i < n && buckets[i].account == account && Picks(few, buckets[i]) ==>
               Picks(many, buckets[i])
    ensures SumTo(buckets, few, account, n) <= SumTo(buckets, many, account, n)
  {
    if 0 < n {
      SumMonotone(buckets, few, many, account, n - 1);
    }
  }

  /** Sums only see the weights of the account's rows. */
  lemma {:induction false} SumAgrees(xs: seq<Bucket>, rs: Rows, ys: seq<Bucket>, qs: Rows, account: nat, n: nat)
    requires n <= |xs| && n <= |ys|
    requires forall i :: 0 <= i < n ==> Weight(xs[i], rs, account) == Weight(ys[i], qs, account)
    ensures SumTo(xs, rs, account, n) == SumTo(ys, qs, account, n)
  {
    if 0 < n {
      SumAgrees(xs, rs, ys, qs, account, n - 1);
    }
  }

  lemma {:induction false} SumAfterInsert(buckets: seq<Bucket>, b: Bucket, k: nat, rows: Rows, account: nat, n: nat)
    requires k <= |buckets| && n <= |buckets|
    ensures var after := buckets[..k] + [b] + buckets[k..];
            && (n <= k ==> SumTo(after, rows, account, n) == SumTo(buckets, rows, account, n))
            && (k <= n ==>
                  SumTo(after, rows, account, n + 1) == SumTo(buckets, rows, account, n) + Weight(b, rows, account))
  {
    if 0 < n {
      SumAfterInsert(buckets, b, k, rows, account, n - 1);
    }
  }

  // ---- shares ----

  /** A share is never negative, never more than the row holds, and zero for a row that is not picked. */
  lemma ShareBounds(buckets: seq<Bucket>, rows: Rows, budget: Budget, i: nat)
    requires WellFormed(buckets) && i < |buckets| && budget.Covers(buckets[i].account)
    ensures 0 <= Share(buckets, rows, budget, i) <= buckets[i].remaining
    ensures !Picks(rows, buckets[i]) ==> Share(buckets, rows, budget, i) == 0
  {
    SumBounds(buckets, rows, buckets[i].account, i, i + 1);
  }

  /** The share as a walk computes it: what the row holds, or what is left of the budget if that is less. */
  lemma ShareIsWhatIsLeft(buckets: seq<Bucket>, rows: Rows, budget: Budget, i: nat)
    requires WellFormed(buckets) && i < |buckets| && budget.Covers(buckets[i].account) && Picks(rows, buckets[i])
    ensures var account := buckets[i].account;
            Share(buckets, rows, budget, i)
            == Min(buckets[i].remaining, budget.Of(account) - TakenTo(buckets, rows, account, budget.Of(account), i))
  {
    SumBounds(buckets, rows, buckets[i].account, i, i + 1);
  }

  /**
   * The rows taken from are a prefix: once a picked row keeps something, the
   * budget is used up and later rows give nothing.
   */
  lemma DrainsPrefix(buckets: seq<Bucket>, rows: Rows, budget: Budget, i: nat, j: nat)
    requires WellFormed(buckets) && i < j < |buckets| && budget.Covers(buckets[i].account)
    requires buckets[i].account == buckets[j].account
    requires Picks(rows, buckets[i]) && Share(buckets, rows, budget, i) < buckets[i].remaining
    ensures Share(buckets, rows, budget, j) == 0
  {
    var account := buckets[i].account;
    SumBounds(buckets, rows, account, i, i + 1);
    SumBounds(buckets, rows, account, i + 1, j);
    SumBounds(buckets, rows, account, j, j + 1);
  }

  // ---- the table after a walk ----

  lemma DrawnRow(buckets: seq<Bucket>, rows: Rows, budget: Budget, drained: BucketStatus, i: nat)
    requires WellFormed(buckets) && Covered(buckets, budget) && !drained.Active? && i < |buckets|
    ensures var b := buckets[i]; var after := Drawn(buckets, rows, budget, drained)[i];
            && WellFormedRow(after)
            && after.remaining == b.remaining - Share(buckets, rows, budget, i)
            && after.(remaining := b.remaining, status := b.status) == b
            && (after.status.Active? ==> b.status.Active?)
  {
    ShareBounds(buckets, rows, budget, i);
  }

  lemma DrawnIsWellFormed(buckets: seq<Bucket>, rows: Rows, budget: Budget, drained: BucketStatus)
    requires WellFormed(buckets) && Covered(buckets, budget) && !drained.Active?
    ensures WellFormed(Drawn(buckets, rows, budget, drained))
    ensures Canonical(buckets) ==> Canonical(Drawn(buckets, rows, budget, drained))
    ensures DistinctIds(buckets) ==> DistinctIds(Drawn(buckets, rows, budget, drained))
  {
    var after := Drawn(buckets, rows, budget, drained);
    forall i | 0 <= i < |buckets|
      ensures WellFormedRow(after[i])
      ensures after[i].(remaining := buckets[i].remaining, status := buckets[i].status) == buckets[i]
    {
      DrawnRow(buckets, rows, budget, drained, i);
    }
    if Canonical(buckets) {
      forall i, j | 0 <= i < j < |after| ensures Before(after[i], after[j]) {
        assert Before(buckets[i], buckets[j]);
      }
    }
  }

  /** The change in a row's weight, counting either all active rows of the account or just the picked ones. */
  lemma DrawnWeight(buckets: seq<Bucket>, rows: Rows, budget: Budget, drained: BucketStatus, counted: Rows,
                    account: nat, i: nat)
    requires WellFormed(buckets) && Covered(buckets, budget) && !drained.Active? && i < |buckets|
    requires budget.Covers(account) && (counted == rows || counted == Settleable(account))
    ensures Weight(Drawn(buckets, rows, budget, drained)[i], counted, account)
            == Weight(buckets[i], counted, account)
               - (TakenTo(buckets, rows, account, budget.Of(account), i + 1)
                  - TakenTo(buckets, rows, account, budget.Of(account), i))
  {
    DrawnRow(buckets, rows, budget, drained, i);
    ShareBounds(buckets, rows, budget, i);
  }

  /** Row by row differences add up. */
  lemma {:induction false} SumsDifferByTaken(before: seq<Bucket>, after: seq<Bucket>, rows: Rows, counted: Rows,
                                             account: nat, budget: int, n: nat)
    requires |before| == |after| && n <= |before| && 0 <= budget
    requires forall i :: 0 <= i < n ==>
               Weight(after[i], counted, account)
               == Weight(before[i], counted, account)
                  - (TakenTo(before, rows, account, budget, i + 1) - TakenTo(before, rows, account, budget, i))
    ensures SumTo(after, counted, account, n)
            == SumTo(before, counted, account, n) - TakenTo(before, rows, account, budget, n)
  {
    if 0 < n {
      SumsDifferByTaken(before, after, rows, counted, account, budget, n - 1);
    }
  }

  /** A walk takes from the sum of an account's active rows, and from the rows it picked, exactly what was taken. */
  lemma DrawnSum(buckets: seq<Bucket>, rows: Rows, budget: Budget, drained: BucketStatus, counted: Rows, account: nat,
                 n: nat)
    requires WellFormed(buckets) && Covered(buckets, budget) && !drained.Active? && n <= |buckets|
    requires budget.Covers(account) && (counted == rows || counted == Settleable(account))
    ensures SumTo(Drawn(buckets, rows, budget, drained), counted, account, n)
            == SumTo(buckets, counted, account, n) - TakenTo(buckets, rows, account, budget.Of(account), n)
  {
    forall i | 0 <= i < n
      ensures Weight(Drawn(buckets, rows, budget, drained)[i], counted, account)
              == Weight(buckets[i], counted, account)
                 - (TakenTo(buckets, rows, account, budget.Of(account), i + 1)
                    - TakenTo(buckets, rows, account, budget.Of(account), i))
    {
      DrawnWeight(buckets, rows, budget, drained, counted, account, i);
    }
    SumsDifferByTaken(buckets, Drawn(buckets, rows, budget, drained), rows, counted, account, budget.Of(account), n);
  }
}
