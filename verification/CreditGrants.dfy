/**
 * Configured credits: what the products of an order or subscription period
 * grant, added up per credit type, and issued as one ledger grant per type.
 */
module CreditGrants {
  import opened Wrappers
  import opened CreditSchema
  import opened CreditBuckets
  import opened CreditService
  import opened CreditLog
  import opened CreditRuns

  datatype Item = Item(product: string, quantity: int)

  /** One credit grant configured for a product; the table allows a missing quantity. */
  datatype Config = Config(product: string, creditType: string, quantity: Option<int>)

  datatype GrantError = UnsafeQuantity | InvalidConfig | UnsafeAmount | MissingExpiry

  // ---- quantities and amounts ----

  function QuantityTo(items: seq<Item>, product: string, n: nat): int
    requires n <= |items|
  {
    if n == 0 then 0
    else
      QuantityTo(items, product, n - 1)
      + if items[n - 1].product == product then items[n - 1].quantity else 0
  }

  function QuantityOf(items: seq<Item>, product: string): int {
    QuantityTo(items, product, |items|)
  }

  /** What one configuration contributes. */
  function Contribution(items: seq<Item>, c: Config): int {
    if c.quantity.None? then 0 else c.quantity.value * QuantityOf(items, c.product)
  }

  function AmountTo(items: seq<Item>, configs: seq<Config>, creditType: string, n: nat): int
    requires n <= |configs|
  {
    if n == 0 then 0
    else
      AmountTo(items, configs, creditType, n - 1)
      + if configs[n - 1].creditType == creditType then Contribution(items, configs[n - 1]) else 0
  }

  function AmountOf(items: seq<Item>, configs: seq<Config>, creditType: string): int {
    AmountTo(items, configs, creditType, |configs|)
  }

  /** Every running total of every product stays positive and safe. */
  ghost predicate SafeQuantities(items: seq<Item>, n: nat)
    requires n <= |items|
  {
    forall k :: 0 <= k < n ==> PositiveAmount(QuantityTo(items, items[k].product, k + 1))
  }

  predicate SafeInteger(x: int) {
    -MAX_SAFE_INTEGER <= x <= MAX_SAFE_INTEGER
  }

  predicate SafeConfig(items: seq<Item>, configs: seq<Config>, k: nat)
    requires k < |configs|
  {
    && configs[k].quantity.Some? && PositiveAmount(configs[k].quantity.value)
    && SafeInteger(Contribution(items, configs[k]))
    && SafeInteger(AmountTo(items, configs, configs[k].creditType, k + 1))
  }

  ghost predicate SafeConfigs(items: seq<Item>, configs: seq<Config>, n: nat)
    requires n <= |configs|
  {
    forall k :: 0 <= k < n ==> SafeConfig(items, configs, k)
  }

  /** quantityByProduct: the loop over the items. */
  method CountProducts(items: seq<Item>) returns (r: Result<map<string, int>, GrantError>)
    ensures r.Success? <==> SafeQuantities(items, |items|)
    ensures r.Failure? ==> r.error == UnsafeQuantity
    ensures r.Success? ==> forall p :: QuantityOf(items, p) == if p in r.value then r.value[p] else 0
    ensures r.Success? ==> forall p :: p in r.value ==> PositiveAmount(r.value[p])
  {
    var quantityByProduct: map<string, int> := map[];
    var i := 0;
    while i < |items|
      invariant i <= |items| && SafeQuantities(items, i)
      invariant forall p :: QuantityTo(items, p, i) == if p in quantityByProduct then quantityByProduct[p] else 0
      invariant forall p :: p in quantityByProduct ==> PositiveAmount(quantityByProduct[p])
    {
      var item := items[i];
      var next := (if item.product in quantityByProduct then quantityByProduct[item.product] else 0) + item.quantity;
      assert next == QuantityTo(items, item.product, i + 1);
      if !PositiveAmount(next) {
        return Failure(UnsafeQuantity);
      }
      quantityByProduct := quantityByProduct[item.product := next];
      i := i + 1;
    }
    return Success(quantityByProduct);
  }

  /** amountByCreditType, in the order the types first appear: the loop over the configurations. */
  method AddUpTypes(items: seq<Item>, configs: seq<Config>, quantityByProduct: map<string, int>)
    returns (r: Result<(seq<string>, map<string, int>), GrantError>)
    requires forall p :: QuantityOf(items, p) == if p in quantityByProduct then quantityByProduct[p] else 0
    ensures r.Success? <==> SafeConfigs(items, configs, |configs|)
    ensures r.Success? ==> forall t :: AmountOf(items, configs, t) == if t in r.value.1 then r.value.1[t] else 0
    ensures r.Success? ==>
              && Lists(r.value.0, r.value.1)
              && forall t :: t in r.value.1 <==> exists k :: 0 <= k < |configs| && configs[k].creditType == t
    ensures r.Failure? ==> r.error == InvalidConfig || r.error == UnsafeAmount
  {
    var types: seq<string> := [];
    var amountByCreditType: map<string, int> := map[];
    var i := 0;
    while i < |configs|
      invariant i <= |configs| && SafeConfigs(items, configs, i)
      invariant forall t ::
                  AmountTo(items, configs, t, i) == if t in amountByCreditType then amountByCreditType[t] else 0
      invariant Lists(types, amountByCreditType)
      invariant forall k :: 0 <= k < i ==> configs[k].creditType in amountByCreditType
      invariant forall t :: t in amountByCreditType ==> exists k :: 0 <= k < i && configs[k].creditType == t
    {
      var config := configs[i];
      if config.quantity.None? || !PositiveAmount(config.quantity.value) {
        assert !SafeConfig(items, configs, i);
        return Failure(InvalidConfig);
      }
      var itemQuantity := if config.product in quantityByProduct then quantityByProduct[config.product] else 0;
      var grantAmount := config.quantity.value * itemQuantity;
      var next := (if config.creditType in amountByCreditType then amountByCreditType[config.creditType] else 0)
        + grantAmount;
      assert grantAmount == Contribution(items, config) && next == AmountTo(items, configs, config.creditType, i + 1);
      if !SafeInteger(grantAmount) || !SafeInteger(next) {
        assert !SafeConfig(items, configs, i);
        return Failure(UnsafeAmount);
      }
      if config.creditType !in amountByCreditType {
        types := types + [config.creditType];
      }
      amountByCreditType := amountByCreditType[config.creditType := next];
      i := i + 1;
    }
    return Success((types, amountByCreditType));
  }

  /** `types` lists the keys of `amounts`, each once. */
  ghost predicate Lists(types: seq<string>, amounts: map<string, int>) {
    && (forall i, j :: 0 <= i < j < |types| ==> types[i] != types[j])
    && (forall i :: 0 <= i < |types| ==> types[i] in amounts)
    && (forall t :: t in amounts ==> t in types)
  }

  /**
   * The grants an order or period calls for. Grants that must lapse are
   * refused without an expiry, unless the products grant no credits at all.
   */
  method ConfiguredGrants(items: seq<Item>, configs: seq<Config>, expiresAt: Option<Time>, requireExpiry: bool)
    returns (r: Result<(seq<string>, map<string, int>), GrantError>)
    ensures items == [] ==> r == Success(([], map[]))
    ensures items != [] ==>
              (r.Success? <==>
                 && SafeQuantities(items, |items|) && SafeConfigs(items, configs, |configs|)
                 && !(requireExpiry && expiresAt.None? && configs != []))
    ensures items != [] && r.Success? ==>
              && Lists(r.value.0, r.value.1)
              && forall t :: AmountOf(items, configs, t) == if t in r.value.1 then r.value.1[t] else 0
  {
    if items == [] {
      return Success(([], map[]));
    }
    var counted := CountProducts(items);
    if counted.Failure? {
      return Failure(counted.error);
    }
    var added := AddUpTypes(items, configs, counted.value);
    if added.Failure? {
      return Failure(added.error);
    }
    assert configs != [] ==> configs[0].creditType in added.value.1;
    if requireExpiry && expiresAt.None? && |added.value.1| > 0 {
      assert configs != [] by {
        var t :| t in added.value.1;
      }
      return Failure(MissingExpiry);
    }
    return added;
  }

  // ---- nothing is lost in the adding up ----

  function ContributionsTo(items: seq<Item>, configs: seq<Config>, n: nat): int
    requires n <= |configs|
  {
    if n == 0 then 0 else ContributionsTo(items, configs, n - 1) + Contribution(items, configs[n - 1])
  }

  function TotalTo(items: seq<Item>, configs: seq<Config>, types: seq<string>, m: nat, n: nat): int
    requires m <= |configs| && n <= |types|
  {
    if n == 0 then 0 else TotalTo(items, configs, types, m, n - 1) + AmountTo(items, configs, types[n - 1], m)
  }

  /** One more configuration adds its contribution to exactly one of distinct types. */
  lemma {:induction false} OneMoreConfig(items: seq<Item>, configs: seq<Config>, types: seq<string>, m: nat, n: nat)
    requires m < |configs| && n <= |types| && forall i, j :: 0 <= i < j < |types| ==> types[i] != types[j]
    ensures TotalTo(items, configs, types, m + 1, n)
            == TotalTo(items, configs, types, m, n)
              + if configs[m].creditType in types[..n] then Contribution(items, configs[m]) else 0
  {
    if 0 < n {
      OneMoreConfig(items, configs, types, m, n - 1);
      assert types[..n] == types[..n - 1] + [types[n - 1]];
    }
  }

  /** The amounts per type add up to everything the configurations contribute. */
  lemma {:induction false} TypesCoverConfigs(items: seq<Item>, configs: seq<Config>, types: seq<string>, m: nat)
    requires m <= |configs| && forall i, j :: 0 <= i < j < |types| ==> types[i] != types[j]
    requires forall k :: 0 <= k < |configs| ==> configs[k].creditType in types
    ensures TotalTo(items, configs, types, m, |types|) == ContributionsTo(items, configs, m)
  {
    if m == 0 {
      NothingConfigured(items, configs, types, |types|);
    } else {
      TypesCoverConfigs(items, configs, types, m - 1);
      OneMoreConfig(items, configs, types, m - 1, |types|);
      assert types[..|types|] == types;
    }
  }

  lemma {:induction false} NothingConfigured(items: seq<Item>, configs: seq<Config>, types: seq<string>, n: nat)
    requires n <= |types|
    ensures TotalTo(items, configs, types, 0, n) == 0
  {
    if 0 < n {
      NothingConfigured(items, configs, types, n - 1);
    }
  }

  // ---- one ledger grant per type ----

  /** What the grants of one source and period have in common. */
  datatype Origin = Origin(
    scope: Scope,
    customer: string,
    kind: GrantType,
    sourceType: string,
    sourceId: string,
    period: string,
    expiresAt: Option<Time>)

  function GrantFor(s: Origin, creditType: string, amount: int): GrantInput {
    GrantInput(s.customer, creditType, amount, s.kind, s.sourceType, s.sourceId,
               GrantKey(s.sourceType, s.sourceId, s.period, creditType), s.expiresAt)
  }

  /** The grants issued one after the other in one transaction: a refusal undoes them all. */
  function Issue(l: Ledger, s: Origin, types: seq<string>, amounts: map<string, int>,
                 now: Time): Result<Ledger, CreditError>
    requires forall i :: 0 <= i < |types| ==> types[i] in amounts
  {
    if types == [] then Success(l)
    else
      var n := |types| - 1;
      match Issue(l, s, types[..n], amounts, now)
      case Failure(error) => Failure(error)
      case Success(before) =>
        if amounts[types[n]] <= 0 then Success(before)
        else
          var done := Grant(before, s.scope, GrantFor(s, types[n], amounts[types[n]]), now);
          if done.outcome.Success? then Success(done.ledger) else Failure(done.outcome.error)
  }

  /** The grant of a type is in the log, under its key and as requested. */
  ghost predicate Booked(l: Ledger, s: Origin, creditType: string, amount: int) {
    exists e :: 0 <= e < |l.log| && BookedAs(l.log[e], s, GrantFor(s, creditType, amount))
  }

  predicate BookedAs(e: Entry, s: Origin, g: GrantInput) {
    e.scope == s.scope && e.key == g.key && Matches(e, g.kind, g.amount, g.customer, g.sourceType, g.sourceId)
      && e.expiry == g.expiresAt
  }

  lemma GrantIsBooked(l: Ledger, s: Origin, creditType: string, amount: int, now: Time)
    requires Grant(l, s.scope, GrantFor(s, creditType, amount), now).outcome.Success?
    ensures Booked(Grant(l, s.scope, GrantFor(s, creditType, amount), now).ledger, s, creditType, amount)
    ensures l.log <= Grant(l, s.scope, GrantFor(s, creditType, amount), now).ledger.log
  {
    var g := GrantFor(s, creditType, amount);
    var after := Grant(l, s.scope, g, now).ledger;
    match FindEntry(l.log, s.scope, g.key)
    case Some(e) => assert BookedAs(after.log[e], s, g);
    case None => assert BookedAs(after.log[|l.log|], s, g);
  }

  lemma BookedStays(l: Ledger, after: Ledger, s: Origin, creditType: string, amount: int)
    requires Booked(l, s, creditType, amount) && l.log <= after.log
    ensures Booked(after, s, creditType, amount)
  {
    var e :| 0 <= e < |l.log| && BookedAs(l.log[e], s, GrantFor(s, creditType, amount));
    assert after.log[e] == l.log[e];
  }

  /** With unique keys, granting what is booked is a replay that changes nothing. */
  lemma BookedIsReplayed(l: Ledger, s: Origin, creditType: string, amount: int, now: Time)
    requires UniqueKeys(l.log) && PositiveAmount(amount) && Booked(l, s, creditType, amount)
    ensures var done := Grant(l, s.scope, GrantFor(s, creditType, amount), now);
            done.ledger == l && done.outcome.Success?
  {
    var g := GrantFor(s, creditType, amount);
    var e :| 0 <= e < |l.log| && BookedAs(l.log[e], s, g);
    var found := FindEntry(l.log, s.scope, g.key);
    assert found.Some? && !(found.value < e) && !(e < found.value);
  }

  lemma {:induction false} IssueBooks(l: Ledger, s: Origin, types: seq<string>, amounts: map<string, int>, now: Time)
    requires Sound(l) && (forall i :: 0 <= i < |types| ==> types[i] in amounts)
    requires Issue(l, s, types, amounts, now).Success?
    ensures var after := Issue(l, s, types, amounts, now).value;
            && Sound(after) && l.log <= after.log
            && forall i :: 0 <= i < |types| && 0 < amounts[types[i]] ==> Booked(after, s, types[i], amounts[types[i]])
  {
    hide Sound, Booked, Grant;
    if types != [] {
      var n := |types| - 1;
      IssueBooks(l, s, types[..n], amounts, now);
      var before := Issue(l, s, types[..n], amounts, now).value;
      var after := Issue(l, s, types, amounts, now).value;
      if 0 < amounts[types[n]] {
        GrantIsSound(before, s.scope, GrantFor(s, types[n], amounts[types[n]]), now);
        GrantIsBooked(before, s, types[n], amounts[types[n]], now);
      }
      forall i | 0 <= i < |types| && 0 < amounts[types[i]] ensures Booked(after, s, types[i], amounts[types[i]]) {
        if i < n {
          assert types[..n][i] == types[i];
          BookedStays(before, after, s, types[i], amounts[types[i]]);
        }
      }
    }
  }

  /** Issuing what is all booked changes nothing. */
  lemma {:induction false} IssueReplays(l: Ledger, s: Origin, types: seq<string>, amounts: map<string, int>, now: Time)
    requires UniqueKeys(l.log) && forall i :: 0 <= i < |types| ==> types[i] in amounts
    requires forall i :: 0 <= i < |types| && 0 < amounts[types[i]] ==>
               PositiveAmount(amounts[types[i]]) && Booked(l, s, types[i], amounts[types[i]])
    ensures Issue(l, s, types, amounts, now) == Success(l)
  {
    hide UniqueKeys, Booked, Grant;
    if types != [] {
      var n := |types| - 1;
      IssueReplays(l, s, types[..n], amounts, now);
      if 0 < amounts[types[n]] {
        BookedIsReplayed(l, s, types[n], amounts[types[n]], now);
      }
    }
  }

  /** Granting an order or period a second time, at any later time, grants nothing more. */
  lemma GrantingTwiceIsOnce(l: Ledger, s: Origin, types: seq<string>, amounts: map<string, int>, now: Time, later: Time)
    requires Sound(l) && forall i :: 0 <= i < |types| ==> types[i] in amounts
    requires forall i :: 0 <= i < |types| ==> amounts[types[i]] <= MAX_SAFE_INTEGER
    requires Issue(l, s, types, amounts, now).Success?
    ensures var after := Issue(l, s, types, amounts, now).value;
            Issue(after, s, types, amounts, later) == Success(after)
  {
    IssueBooks(l, s, types, amounts, now);
    SoundIsUnique(Issue(l, s, types, amounts, now).value);
    hide Sound, Booked, UniqueKeys;
    IssueReplays(Issue(l, s, types, amounts, now).value, s, types, amounts, later);
  }

  lemma SoundIsUnique(l: Ledger)
    requires Sound(l)
    ensures UniqueKeys(l.log)
  {
  }
}
