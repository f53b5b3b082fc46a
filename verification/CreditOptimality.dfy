/**
 * Soonest-expiry-first is the best order to spend in: whatever other way the
 * same amount is taken from the same rows, at every future time at least as
 * much credit is left that has not expired by then.
 */
module CreditOptimality {
  import opened Wrappers
  import opened CreditSchema
  import opened CreditBuckets

  /** How much is taken from each row. */
  type Allocation = seq<int>

  function PartTo(x: Allocation, n: nat): int
    requires n <= |x|
  {
    if n == 0 then 0 else PartTo(x, n - 1) + x[n - 1]
  }

  /** Another way of taking `amount` from the rows of the account that may be used. */
  ghost predicate Allocates(x: Allocation, buckets: seq<Bucket>, rows: Rows, account: nat, amount: int) {
    && |x| == |buckets|
    && (forall i :: 0 <= i < |x| ==> 0 <= x[i] <= Weight(buckets[i], rows, account))
    && PartTo(x, |x|) == amount
  }

  function AfterAllocation(buckets: seq<Bucket>, x: Allocation): seq<Bucket>
    requires |x| == |buckets|
  {
    seq(|buckets|, i requires 0 <= i < |buckets| => Draw(buckets[i], x[i], Consumed))
  }

  predicate ExpiresAfter(b: Bucket, t: Time) {
    b.expiresAt.None? || t < b.expiresAt.value
  }

  /** The credit of the account that is still there after time t. */
  function KeptTo(buckets: seq<Bucket>, account: nat, t: Time, n: nat): int
    requires n <= |buckets|
  {
    if n == 0 then 0
    else
      var b := buckets[n - 1];
      KeptTo(buckets, account, t, n - 1)
        + if b.account == account && b.status.Active? && ExpiresAfter(b, t) then b.remaining else 0
  }

  function Kept(buckets: seq<Bucket>, account: nat, t: Time): int {
    KeptTo(buckets, account, t, |buckets|)
  }

  /** The first row in canonical order that outlives t; every row from there on does. */
  function Horizon(buckets: seq<Bucket>, t: Time, from: nat := 0): (k: nat)
    requires Canonical(buckets) && from <= |buckets|
    requires forall i :: 0 <= i < from ==> !ExpiresAfter(buckets[i], t)
    ensures k <= |buckets|
    ensures forall i :: 0 <= i < k ==> !ExpiresAfter(buckets[i], t)
    ensures forall i :: k <= i < |buckets| ==> ExpiresAfter(buckets[i], t)
    decreases |buckets| - from
  {
    if from == |buckets| then from
    else if ExpiresAfter(buckets[from], t) then
      assert forall i :: from < i < |buckets| ==> Before(buckets[from], buckets[i]);
      from
    else Horizon(buckets, t, from + 1)
  }

  /** What an allocation costs after t is what it takes beyond the horizon. */
  lemma {:induction false} KeptAfterAllocation(buckets: seq<Bucket>, x: Allocation, rows: Rows, account: nat, t: Time,
                                               k: nat, n: nat)
    requires WellFormed(buckets) && |x| == |buckets| && n <= |buckets| && k <= |buckets|
    requires forall i :: 0 <= i < |x| ==> 0 <= x[i] <= Weight(buckets[i], rows, account)
    requires forall i :: 0 <= i < |buckets| ==> (ExpiresAfter(buckets[i], t) <==> k <= i)
    ensures KeptTo(AfterAllocation(buckets, x), account, t, n)
            == KeptTo(buckets, account, t, n) - if k <= n then PartTo(x, n) - PartTo(x, k) else 0
  {
    if 0 < n {
      KeptAfterAllocation(buckets, x, rows, account, t, k, n - 1);
    }
  }

  /** No allocation takes more before the horizon than the walk does. */
  lemma {:induction false} WalkTakesMostEarly(x: Allocation, buckets: seq<Bucket>, rows: Rows, account: nat, n: nat)
    requires |x| == |buckets| && n <= |buckets|
    requires forall i :: 0 <= i < |x| ==> 0 <= x[i] <= Weight(buckets[i], rows, account)
    ensures 0 <= PartTo(x, n) <= SumTo(buckets, rows, account, n)
  {
    if 0 < n {
      WalkTakesMostEarly(x, buckets, rows, account, n - 1);
    }
  }

  lemma {:induction false} PartsGrow(x: Allocation, m: nat, n: nat)
    requires m <= n <= |x| && forall i :: 0 <= i < |x| ==> 0 <= x[i]
    ensures PartTo(x, m) <= PartTo(x, n)
  {
    if m < n {
      PartsGrow(x, m, n - 1);
    }
  }

  /** The walk itself as an allocation. */
  function Greedy(buckets: seq<Bucket>, rows: Rows, account: nat, amount: int): Allocation {
    seq(|buckets|, i requires 0 <= i < |buckets| =>
          TakenTo(buckets, rows, account, amount, i + 1) - TakenTo(buckets, rows, account, amount, i))
  }

  lemma {:induction false} GreedyParts(buckets: seq<Bucket>, rows: Rows, account: nat, amount: int, n: nat)
    requires WellFormed(buckets) && n <= |buckets| && 0 <= amount
    ensures PartTo(Greedy(buckets, rows, account, amount), n) == TakenTo(buckets, rows, account, amount, n)
  {
    if 0 < n {
      GreedyParts(buckets, rows, account, amount, n - 1);
    }
  }

  lemma GreedyIsShare(buckets: seq<Bucket>, rows: Rows, account: nat, amount: int, i: nat)
    requires WellFormed(buckets) && 0 <= amount && i < |buckets|
    requires rows.Spendable? || rows.Settleable?
    requires rows.account == account
    ensures Greedy(buckets, rows, account, amount)[i] == Share(buckets, rows, Fixed(amount), i)
    ensures 0 <= Greedy(buckets, rows, account, amount)[i] <= Weight(buckets[i], rows, account)
  {
    SumBounds(buckets, rows, account, i, i + 1);
    ShareBounds(buckets, rows, Fixed(amount), i);
  }

  lemma GreedyIsTheWalk(buckets: seq<Bucket>, rows: Rows, account: nat, amount: int)
    requires WellFormed(buckets) && 0 <= amount
    requires rows.Spendable? || rows.Settleable?
    requires rows.account == account
    ensures AfterAllocation(buckets, Greedy(buckets, rows, account, amount))
            == Drawn(buckets, rows, Fixed(amount), Consumed)
    ensures amount <= Sum(buckets, rows, account) ==>
              Allocates(Greedy(buckets, rows, account, amount), buckets, rows, account, amount)
  {
    GreedyParts(buckets, rows, account, amount, |buckets|);
    forall i | 0 <= i < |buckets|
      ensures 0 <= Greedy(buckets, rows, account, amount)[i] <= Weight(buckets[i], rows, account)
      ensures Greedy(buckets, rows, account, amount)[i] == Share(buckets, rows, Fixed(amount), i)
    {
      GreedyIsShare(buckets, rows, account, amount, i);
    }
  }

  /** Soonest-expiry-first leaves at least as much credit after any time t as any other allocation of the amount. */
  lemma SoonestExpiryFirstIsOptimal(buckets: seq<Bucket>, rows: Rows, account: nat, amount: int, x: Allocation, t: Time)
    requires WellFormed(buckets) && Canonical(buckets)
    requires rows.Spendable? || rows.Settleable?
    requires rows.account == account && 0 <= amount && Allocates(x, buckets, rows, account, amount)
    ensures Kept(AfterAllocation(buckets, x), account, t) <= Kept(Drawn(buckets, rows, Fixed(amount), Consumed),
                                                                  account, t)
  {
    var n := |buckets|;
    var k := Horizon(buckets, t);
    var greedy := Greedy(buckets, rows, account, amount);
    WalkTakesMostEarly(x, buckets, rows, account, n);
    WalkTakesMostEarly(x, buckets, rows, account, k);
    PartsGrow(x, k, n);
    GreedyIsTheWalk(buckets, rows, account, amount);
    GreedyParts(buckets, rows, account, amount, k);
    KeptAfterAllocation(buckets, x, rows, account, t, k, n);
    KeptAfterAllocation(buckets, greedy, rows, account, t, k, n);
  }

  /** At most one row that was drawn from keeps something, and it is the last row drawn from. */
  lemma AtMostOnePartlyDrained(buckets: seq<Bucket>, rows: Rows, amount: int, i: nat, j: nat)
    requires WellFormed(buckets) && 0 <= amount && i < |buckets| && j < |buckets|
    requires buckets[i].account == buckets[j].account
    requires 0 < Share(buckets, rows, Fixed(amount), i) < buckets[i].remaining
    requires 0 < Share(buckets, rows, Fixed(amount), j)
    ensures j <= i
    ensures Share(buckets, rows, Fixed(amount), j) < buckets[j].remaining ==> i == j
  {
    ShareBounds(buckets, rows, Fixed(amount), i);
    ShareBounds(buckets, rows, Fixed(amount), j);
    if i < j {
      DrainsPrefix(buckets, rows, Fixed(amount), i, j);
    } else if j < i && Share(buckets, rows, Fixed(amount), j) < buckets[j].remaining {
      DrainsPrefix(buckets, rows, Fixed(amount), j, i);
    }
  }
}
