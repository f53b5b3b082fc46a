/**
 * What issuing the configured grants of a source and period gives: one entry
 * and one amount for each credit type that was not granted for that source
 * and period before.
 */
module CreditIssues {
  import opened Wrappers
  import opened CreditSchema
  import opened CreditBuckets
  import opened CreditService
  import opened CreditLog
  import opened CreditReplay
  import opened CreditRuns
  import opened CreditGrants
  import opened CreditAnswers

  /** Nothing was granted for the source, period and credit type. */
  ghost predicate Ungranted(log: seq<Entry>, s: Origin, t: string) {
    forall e :: 0 <= e < |log| ==>
      !(log[e].scope == s.scope && log[e].key == GrantKey(s.sourceType, s.sourceId, s.period, t))
  }

  /** The entry of the grant. */
  predicate Grants(e: Entry, s: Origin, t: string, amount: int) {
    && e.scope == s.scope && e.key == GrantKey(s.sourceType, s.sourceId, s.period, t) && e.kind == s.kind
    && e.amount == amount && e.customer == s.customer && e.sourceType == s.sourceType
    && e.source == TextSource(s.sourceId) && e.expiry == s.expiresAt
  }

  ghost predicate GrantedBefore(log: seq<Entry>, s: Origin, t: string, amount: int) {
    exists e :: 0 <= e < |log| && Grants(log[e], s, t, amount)
  }

  function BalanceOf(accounts: seq<Account>, scope: Scope, customer: string, creditType: string): int {
    var a := FindAccount(accounts, scope, customer, creditType);
    if a.Some? then accounts[a.value].available else 0
  }

  // ---- one grant ----

  lemma {:induction false} FindAccountUpdated(accounts: seq<Account>, a: nat, row: Account, scope: Scope,
                                              customer: string, creditType: string)
    requires a < |accounts| && row.scope == accounts[a].scope && row.customer == accounts[a].customer
    requires row.creditType == accounts[a].creditType
    ensures FindAccount(accounts[a := row], scope, customer, creditType)
            == FindAccount(accounts, scope, customer, creditType)
  {
    var last := |accounts| - 1;
    if a < last {
      assert accounts[a := row][..last] == accounts[..last][a := row];
      FindAccountUpdated(accounts[..last], a, row, scope, customer, creditType);
    } else {
      assert accounts[a := row][..last] == accounts[..last];
    }
  }

  lemma FindAccountAppended(accounts: seq<Account>, row: Account, scope: Scope, customer: string, creditType: string)
    ensures FindAccount(accounts + [row], scope, customer, creditType)
            == if row.scope == scope && row.customer == customer && row.creditType == creditType then Some(|accounts|)
               else FindAccount(accounts, scope, customer, creditType)
  {
    assert (accounts + [row])[..|accounts|] == accounts;
  }

  /** A booked grant raises the balance of its customer and credit type, and no other. */
  lemma BookGrantBalance(l: Ledger, scope: Scope, g: GrantInput, now: Time, at: Scope, customer: string,
                         creditType: string)
    ensures BalanceOf(BookGrant(l, scope, g, now).accounts, at, customer, creditType)
            == BalanceOf(l.accounts, at, customer, creditType)
               + if at == scope && customer == g.customer && creditType == g.creditType then g.amount else 0
  {
    hide FindAccount, InsertRow;
    var (accounts, a) := EnsureAccount(l.accounts, scope, g.customer, g.creditType);
    FindAccountAppended(l.accounts, Account(scope, g.customer, g.creditType, 0, 0), at, customer, creditType);
    FindAccountAppended(l.accounts, Account(scope, g.customer, g.creditType, 0, 0), scope, g.customer, g.creditType);
    FindAccountUpdated(accounts, a, accounts[a].(available := accounts[a].available + g.amount), at, customer,
                       creditType);
  }

  /** What becomes of the grant of one type, asked for with a positive amount. */
  lemma OneType(l: Ledger, s: Origin, t: string, amount: int, now: Time)
    requires UniqueKeys(l.log) && 0 < amount
    ensures var done := Grant(l, s.scope, GrantFor(s, t, amount), now);
            && (done.outcome.Success?
                <==> amount <= 9007199254740991 && (Ungranted(l.log, s, t) || GrantedBefore(l.log, s, t, amount)))
            && (done.outcome.Success? && !Ungranted(l.log, s, t) ==> done.ledger == l)
            && (done.outcome.Success? && Ungranted(l.log, s, t) ==>
                  && done.ledger == BookGrant(l, s.scope, GrantFor(s, t, amount), now)
                  && |done.ledger.log| == |l.log| + 1 && l.log <= done.ledger.log
                  && Grants(done.ledger.log[|l.log|], s, t, amount)
                  && done.ledger.reservations == l.reservations)
  {
    hide FindEntry, InsertRow, FindAccount;
    var g := GrantFor(s, t, amount);
    var found := FindEntry(l.log, s.scope, g.key);
    if found.Some? && GrantedBefore(l.log, s, t, amount) {
      var e :| 0 <= e < |l.log| && Grants(l.log[e], s, t, amount);
      assert !(e < found.value) && !(found.value < e);
    }
  }

  // ---- all of them ----

  ghost predicate Distinct(types: seq<string>) {
    forall i, j :: 0 <= i < j < |types| ==> types[i] != types[j]
  }

  /** What a credit type gains. */
  ghost function Gain(log: seq<Entry>, s: Origin, types: seq<string>, amounts: map<string, int>, t: string): int
    requires forall i :: 0 <= i < |types| ==> types[i] in amounts
  {
    if t in types && 0 < amounts[t] && Ungranted(log, s, t) then amounts[t] else 0
  }

  /** Asked for with an unsafe amount, or otherwise than it was granted before. */
  ghost predicate Refuses(log: seq<Entry>, s: Origin, t: string, amount: int) {
    0 < amount && (9007199254740991 < amount || !(Ungranted(log, s, t) || GrantedBefore(log, s, t, amount)))
  }

  ghost predicate GrantsOneOf(e: Entry, s: Origin, types: seq<string>, amounts: map<string, int>)
    requires forall i :: 0 <= i < |types| ==> types[i] in amounts
  {
    exists i :: 0 <= i < |types| && 0 < amounts[types[i]] && Grants(e, s, types[i], amounts[types[i]])
  }

  ghost predicate NewOnes(l: Ledger, after: Ledger, s: Origin, types: seq<string>, amounts: map<string, int>)
    requires forall i :: 0 <= i < |types| ==> types[i] in amounts
  {
    && l.log <= after.log && after.reservations == l.reservations
    && (forall e :: |l.log| <= e < |after.log| ==> GrantsOneOf(after.log[e], s, types, amounts))
    && (forall i :: 0 <= i < |types| && 0 < amounts[types[i]] ==>
        GrantedBefore(after.log, s, types[i], amounts[types[i]]))
  }

  lemma IssueStep(l: Ledger, s: Origin, types: seq<string>, amounts: map<string, int>, now: Time)
    requires types != [] && forall i :: 0 <= i < |types| ==> types[i] in amounts
    ensures var n := |types| - 1; var t := types[n];
            Issue(l, s, types, amounts, now)
            == match Issue(l, s, types[..n], amounts, now)
               case Failure(error) => Failure(error)
               case Success(before) =>
                 if amounts[t] <= 0 then Success(before)
                 else
                   var done := Grant(before, s.scope, GrantFor(s, t, amounts[t]), now);
                   if done.outcome.Success? then Success(done.ledger) else Failure(done.outcome.error)
  {
  }

  /** The grants of the other types do not concern this one. */
  lemma OthersDoNotCount(l: Ledger, before: Ledger, s: Origin, types: seq<string>, amounts: map<string, int>, t: string,
                         amount: int)
    requires (forall i :: 0 <= i < |types| ==> types[i] in amounts) && t !in types
    requires NewOnes(l, before, s, types, amounts)
    ensures Ungranted(before.log, s, t) <==> Ungranted(l.log, s, t)
    ensures GrantedBefore(before.log, s, t, amount) <==> GrantedBefore(l.log, s, t, amount)
  {
    forall e | |l.log| <= e < |before.log|
      ensures before.log[e].key != GrantKey(s.sourceType, s.sourceId, s.period, t)
    {
      assert GrantsOneOf(before.log[e], s, types, amounts);
    }
    forall e | 0 <= e < |l.log| ensures before.log[e] == l.log[e] {
    }
    if GrantedBefore(l.log, s, t, amount) {
      var e :| 0 <= e < |l.log| && Grants(l.log[e], s, t, amount);
      assert Grants(before.log[e], s, t, amount);
    }
  }

  lemma NewOnesAndOne(l: Ledger, before: Ledger, after: Ledger, s: Origin, types: seq<string>,
                      amounts: map<string, int>)
    requires types != [] && forall i :: 0 <= i < |types| ==> types[i] in amounts
    requires NewOnes(l, before, s, types[..|types| - 1], amounts) && before.log <= after.log
    requires after.reservations == before.reservations && |after.log| <= |before.log| + 1
    requires var t := types[|types| - 1];
             && (0 < amounts[t] ==> GrantedBefore(after.log, s, t, amounts[t]))
             && (|before.log| < |after.log| ==> 0 < amounts[t] && Grants(after.log[|before.log|], s, t, amounts[t]))
    ensures NewOnes(l, after, s, types, amounts)
  {
    var n := |types| - 1;
    forall e | |l.log| <= e < |after.log| ensures GrantsOneOf(after.log[e], s, types, amounts) {
      if e < |before.log| {
        assert GrantsOneOf(before.log[e], s, types[..n], amounts);
        var i :| 0 <= i < n && 0 < amounts[types[..n][i]]
          && Grants(before.log[e], s, types[..n][i], amounts[types[..n][i]]);
        assert Grants(after.log[e], s, types[i], amounts[types[i]]);
      } else {
        assert Grants(after.log[e], s, types[n], amounts[types[n]]);
      }
    }
    forall i | 0 <= i < |types| && 0 < amounts[types[i]]
      ensures GrantedBefore(after.log, s, types[i], amounts[types[i]])
    {
      if i < n {
        assert types[..n][i] == types[i];
        var e :| 0 <= e < |before.log| && Grants(before.log[e], s, types[i], amounts[types[i]]);
        assert Grants(after.log[e], s, types[i], amounts[types[i]]);
      }
    }
  }

  lemma IssueTells(l: Ledger, s: Origin, types: seq<string>, amounts: map<string, int>, now: Time)
    requires Sound(l) && (forall i :: 0 <= i < |types| ==> types[i] in amounts) && Distinct(types)
    ensures Issue(l, s, types, amounts, now).Success?
            <==> forall i :: 0 <= i < |types| ==> !Refuses(l.log, s, types[i], amounts[types[i]])
    ensures Issue(l, s, types, amounts, now).Success? ==>
              var after := Issue(l, s, types, amounts, now).value; Sound(after) && NewOnes(l, after, s, types, amounts)
    decreases |types|
  {
    hide Sound, Grant, GrantFor, Ungranted, GrantedBefore, BookGrant, NewOnes, Grants;
    if types == [] {
      NothingNew(l, s, amounts);
    } else {
      var n := |types| - 1;
      var t := types[n];
      IssueStep(l, s, types, amounts, now);
      assert forall i :: 0 <= i < n ==> types[..n][i] == types[i];
      IssueTells(l, s, types[..n], amounts, now);
      if Issue(l, s, types[..n], amounts, now).Success? {
        var before := Issue(l, s, types[..n], amounts, now).value;
        LastType(l, before, s, types, amounts, now);
      }
    }
  }

  lemma NothingNew(l: Ledger, s: Origin, amounts: map<string, int>)
    ensures NewOnes(l, l, s, [], amounts)
  {
  }

  lemma LastType(l: Ledger, before: Ledger, s: Origin, types: seq<string>, amounts: map<string, int>, now: Time)
    requires types != [] && (forall i :: 0 <= i < |types| ==> types[i] in amounts) && Distinct(types)
    requires Sound(before) && NewOnes(l, before, s, types[..|types| - 1], amounts)
    ensures var t := types[|types| - 1]; var done := Grant(before, s.scope, GrantFor(s, t, amounts[t]), now);
            var after := if amounts[t] <= 0 then before else done.ledger;
            && (0 < amounts[t] ==> (done.outcome.Success? <==> !Refuses(l.log, s, t, amounts[t])))
            && (amounts[t] <= 0 || done.outcome.Success? ==> Sound(after) && NewOnes(l, after, s, types, amounts))
  {
    var n := |types| - 1;
    var t := types[n];
    forall i | 0 <= i < n ensures types[..n][i] != t {
      assert types[..n][i] == types[i];
    }
    SoundIsUnique(before);
    hide Sound, Grant, GrantFor, Ungranted, BookGrant, NewOnes, Grants, UniqueKeys;
    OthersDoNotCount(l, before, s, types[..n], amounts, t, amounts[t]);
    if 0 < amounts[t] {
      OneType(before, s, t, amounts[t], now);
      GrantIsSound(before, s.scope, GrantFor(s, t, amounts[t]), now);
      var done := Grant(before, s.scope, GrantFor(s, t, amounts[t]), now);
      if done.outcome.Success? {
        if Ungranted(before.log, s, t) {
          assert GrantedBefore(done.ledger.log, s, t, amounts[t]);
        }
        NewOnesAndOne(l, before, done.ledger, s, types, amounts);
      }
    } else {
      NewOnesAndOne(l, before, before, s, types, amounts);
    }
  }

  lemma IssueBalances(l: Ledger, s: Origin, types: seq<string>, amounts: map<string, int>, now: Time, at: Scope,
                      customer: string, t: string)
    requires Sound(l) && (forall i :: 0 <= i < |types| ==> types[i] in amounts) && Distinct(types)
    requires Issue(l, s, types, amounts, now).Success?
    ensures BalanceOf(Issue(l, s, types, amounts, now).value.accounts, at, customer, t)
            == BalanceOf(l.accounts, at, customer, t)
               + if at == s.scope && customer == s.customer then Gain(l.log, s, types, amounts, t) else 0
    decreases |types|
  {
    hide Sound, Grant, Ungranted, GrantedBefore, BookGrant, NewOnes, Grants, BalanceOf;
    if types != [] {
      var n := |types| - 1;
      var last := types[n];
      IssueStep(l, s, types, amounts, now);
      assert forall i :: 0 <= i < n ==> types[..n][i] == types[i];
      assert types == types[..n] + [last];
      IssueBalances(l, s, types[..n], amounts, now, at, customer, t);
      IssueTells(l, s, types[..n], amounts, now);
      var before := Issue(l, s, types[..n], amounts, now).value;
      assert last !in types[..n];
      OthersDoNotCount(l, before, s, types[..n], amounts, last, 0);
      if 0 < amounts[last] {
        SoundIsUnique(before);
        OneType(before, s, last, amounts[last], now);
        BookGrantBalance(before, s.scope, GrantFor(s, last, amounts[last]), now, at, customer, t);
      }
    }
  }

  /**
   * Issuing goes through exactly if no type is asked for with an unsafe
   * amount or otherwise than it was granted before for this source and
   * period. Then each type that was not granted gains its amount, once, under
   * the key of source, period and type; no other balance changes.
   */
  lemma IssueGives(l: Ledger, s: Origin, types: seq<string>, amounts: map<string, int>, now: Time)
    requires Sound(l) && (forall i :: 0 <= i < |types| ==> types[i] in amounts) && Distinct(types)
    ensures Issue(l, s, types, amounts, now).Success?
            <==> forall i :: 0 <= i < |types| ==> !Refuses(l.log, s, types[i], amounts[types[i]])
    ensures Issue(l, s, types, amounts, now).Success? ==>
              var after := Issue(l, s, types, amounts, now).value;
              && NewOnes(l, after, s, types, amounts)
              && forall at, customer, t ::
                   BalanceOf(after.accounts, at, customer, t)
                   == BalanceOf(l.accounts, at, customer, t)
                      + if at == s.scope && customer == s.customer then Gain(l.log, s, types, amounts, t) else 0
  {
    hide Sound, Issue, NewOnes, Gain, BalanceOf, Refuses;
    IssueTells(l, s, types, amounts, now);
    if Issue(l, s, types, amounts, now).Success? {
      var after := Issue(l, s, types, amounts, now).value;
      forall at, customer, t
        ensures BalanceOf(after.accounts, at, customer, t)
                == BalanceOf(l.accounts, at, customer, t)
                   + if at == s.scope && customer == s.customer then Gain(l.log, s, types, amounts, t) else 0
      {
        IssueBalances(l, s, types, amounts, now, at, customer, t);
      }
    }
  }

  /** Entries of one period say nothing about another. */
  lemma PeriodsAreApart(l: Ledger, after: Ledger, s: Origin, period: string, types: seq<string>,
                        amounts: map<string, int>, t: string)
    requires (forall i :: 0 <= i < |types| ==> types[i] in amounts) && NewOnes(l, after, s, types, amounts)
    requires period != s.period && Ungranted(l.log, s.(period := period), t)
    ensures Ungranted(after.log, s.(period := period), t)
  {
    forall e | 0 <= e < |after.log|
      ensures !(after.log[e].scope == s.scope && after.log[e].key == GrantKey(s.sourceType, s.sourceId, period, t))
    {
      if e < |l.log| {
        assert after.log[e] == l.log[e];
      } else {
        assert GrantsOneOf(after.log[e], s, types, amounts);
      }
    }
  }

  /**
   * A renewal grants again: two periods of one source, neither granted
   * before, give both amounts.
   */
  lemma TwoPeriodsGiveBoth(l: Ledger, s: Origin, period: string, types: seq<string>, amounts: map<string, int>,
                           more: map<string, int>, now: Time, later: Time)
    requires Sound(l) && Distinct(types) && period != s.period
    requires forall i :: 0 <= i < |types| ==>
               && types[i] in amounts && types[i] in more
               && 0 < amounts[types[i]] <= 9007199254740991 && 0 < more[types[i]] <= 9007199254740991
               && Ungranted(l.log, s, types[i]) && Ungranted(l.log, s.(period := period), types[i])
    ensures var first := Issue(l, s, types, amounts, now);
            && first.Success?
            && var second := Issue(first.value, s.(period := period), types, more, later);
               && second.Success?
               && forall i :: 0 <= i < |types| ==>
                    BalanceOf(second.value.accounts, s.scope, s.customer, types[i])
                    == BalanceOf(l.accounts, s.scope, s.customer, types[i]) + amounts[types[i]] + more[types[i]]
  {
    hide Sound, Issue, BalanceOf, Ungranted, GrantedBefore, NewOnes;
    IssueGives(l, s, types, amounts, now);
    IssueTells(l, s, types, amounts, now);
    var after := Issue(l, s, types, amounts, now).value;
    forall i | 0 <= i < |types| ensures Ungranted(after.log, s.(period := period), types[i]) {
      PeriodsAreApart(l, after, s, period, types, amounts, types[i]);
    }
    IssueGives(after, s.(period := period), types, more, later);
  }

  // ---- item by item ----

  /** What one unit of a product grants of a credit type. */
  function RateTo(configs: seq<Config>, product: string, t: string, m: nat): int
    requires m <= |configs|
  {
    if m == 0 then 0
    else
      var c := configs[m - 1];
      RateTo(configs, product, t, m - 1)
      + if c.product == product && c.creditType == t && c.quantity.Some? then c.quantity.value else 0
  }

  /** Each item grants its quantity times the rate of its product. */
  function GrantedByItems(items: seq<Item>, configs: seq<Config>, t: string, n: nat): int
    requires n <= |items|
  {
    if n == 0 then 0
    else
      GrantedByItems(items, configs, t, n - 1)
      + items[n - 1].quantity * RateTo(configs, items[n - 1].product, t, |configs|)
  }

  lemma {:induction false} QuantityPrefix(items: seq<Item>, product: string, n: nat, m: nat)
    requires m <= n <= |items|
    ensures QuantityTo(items[..n], product, m) == QuantityTo(items, product, m)
  {
    if 0 < m {
      QuantityPrefix(items, product, n, m - 1);
    }
  }

  lemma ContributionOfOneMore(items: seq<Item>, c: Config, n: nat)
    requires n < |items|
    ensures Contribution(items[..n + 1], c)
            == Contribution(items[..n], c)
               + if c.quantity.Some? && items[n].product == c.product then items[n].quantity * c.quantity.value else 0
  {
    QuantityPrefix(items, c.product, n + 1, n);
    QuantityPrefix(items, c.product, n, n);
    assert QuantityOf(items[..n + 1], c.product) == QuantityTo(items[..n + 1], c.product, n + 1);
    var before := QuantityOf(items[..n], c.product);
    if c.quantity.Some? && items[n].product == c.product {
      assert c.quantity.value * (before + items[n].quantity)
          == c.quantity.value * before + items[n].quantity * c.quantity.value;
    }
  }

  lemma {:induction false} OneMoreItem(items: seq<Item>, configs: seq<Config>, t: string, n: nat, m: nat)
    requires n < |items| && m <= |configs|
    ensures AmountTo(items[..n + 1], configs, t, m)
            == AmountTo(items[..n], configs, t, m) + items[n].quantity * RateTo(configs, items[n].product, t, m)
  {
    if 0 < m {
      var c := configs[m - 1];
      OneMoreItem(items, configs, t, n, m - 1);
      ContributionOfOneMore(items, c, n);
      hide Contribution;
      var rate := RateTo(configs, items[n].product, t, m - 1);
      var more :=
        if c.product == items[n].product && c.creditType == t && c.quantity.Some? then c.quantity.value else 0;
      assert items[n].quantity * (rate + more) == items[n].quantity * rate + items[n].quantity * more;
    }
  }

  lemma {:induction false} NoItems(configs: seq<Config>, t: string, m: nat)
    requires m <= |configs|
    ensures AmountTo([], configs, t, m) == 0
  {
    if 0 < m {
      NoItems(configs, t, m - 1);
    }
  }

  lemma {:induction false} ItemsUpTo(items: seq<Item>, configs: seq<Config>, t: string, n: nat)
    requires n <= |items|
    ensures AmountTo(items[..n], configs, t, |configs|) == GrantedByItems(items, configs, t, n)
  {
    if n == 0 {
      NoItems(configs, t, |configs|);
    } else {
      ItemsUpTo(items, configs, t, n - 1);
      OneMoreItem(items, configs, t, n - 1, |configs|);
    }
  }

  /** The amount of a credit type, added up over the configurations, is what the items grant one by one. */
  lemma AmountIsWhatItemsGrant(items: seq<Item>, configs: seq<Config>, t: string)
    ensures AmountOf(items, configs, t) == GrantedByItems(items, configs, t, |items|)
  {
    ItemsUpTo(items, configs, t, |items|);
    assert items[..|items|] == items;
  }
}
