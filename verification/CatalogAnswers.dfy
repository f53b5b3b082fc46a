/**
 * How a mapping row comes to each of its states: exactly by which step of
 * whom, from which row.
 */
module CatalogAnswers {
  import opened Wrappers
  import opened CatalogMapping
  import opened CatalogProvisioning

  function RowAfter(s: System, price: Price, mode: Mode, m: Move): Option<Row> {
    Step(s, price, mode, m).row
  }

  predicate IsIn(row: Option<Row>, status: Status) {
    row.Some? && row.value.status == status
  }

  /** The row is still the attempt's to finish. */
  predicate IsHolding(row: Option<Row>, token: nat) {
    (IsIn(row, Creating) || IsIn(row, NeedsReconciliation)) && row.value.token == Some(token)
  }

  predicate ActsIn(s: System, m: Move) {
    m.Act? && m.p in s.attempts
  }

  function StageOf(s: System, m: Move): Stage
    requires ActsIn(s, m)
  {
    s.attempts[m.p].stage
  }

  /**
   * Synced: by the holder of the row whose product was read back and matches,
   * by a link where there is no row, or by the adoption of a product for a row
   * that was seen parked or failed and still is one or the other.
   */
  predicate ReachesSynced(s: System, m: Move, product: Product) {
    && ActsIn(s, m)
    && match StageOf(s, m)
       case Checked(token, _, verdict) => verdict == Matches(product) && IsHolding(s.row, token)
       case Linking(located) => located == product && s.row.None?
       case LinkSaw(located, observed) =>
         && located == product && (observed.status == NeedsReconciliation || observed.status == Failed)
         && (IsIn(s.row, NeedsReconciliation) || IsIn(s.row, Failed))
       case _ => false
  }

  lemma SyncedExactly(s: System, price: Price, mode: Mode, m: Move)
    requires !IsIn(s.row, Synced)
    ensures IsIn(RowAfter(s, price, mode, m), Synced) <==> exists product :: ReachesSynced(s, m, product)
    ensures forall product :: ReachesSynced(s, m, product) ==>
              var row := RowAfter(s, price, mode, m).value;
              && row.product == Some(product.id) && row.verified == Some(product) && row.intent == None
              && row.token == if s.row.Some? then s.row.value.token else None
  {
    hide Mismatches;
    if ActsIn(s, m) {
      match StageOf(s, m) {
        case Checked(_, _, verdict) =>
          if verdict.Matches? && IsIn(RowAfter(s, price, mode, m), Synced) {
            assert ReachesSynced(s, m, verdict.product);
          }
        case Linking(product) =>
          if s.row.None? {
            assert ReachesSynced(s, m, product);
          }
        case LinkSaw(product, _) =>
          if IsIn(RowAfter(s, price, mode, m), Synced) {
            assert ReachesSynced(s, m, product);
          }
        case _ =>
      }
    }
  }

  /** Failed: by an operator on a parked row, or by the holder of the row whose create was rejected. */
  lemma FailedExactly(s: System, price: Price, mode: Mode, m: Move)
    requires !IsIn(s.row, Failed)
    ensures IsIn(RowAfter(s, price, mode, m), Failed)
            <==> || (m.OperatorFails? && IsIn(s.row, NeedsReconciliation))
                 || (&& ActsIn(s, m) && StageOf(s, m).Answered? && StageOf(s, m).answer == Rejected
                     && IsHolding(s.row, StageOf(s, m).token))
    ensures IsIn(RowAfter(s, price, mode, m), Failed) ==>
              var row := RowAfter(s, price, mode, m).value;
              row == s.row.value.(status := Failed, updatedAt := row.updatedAt)
  {
    hide Mismatches;
  }

  /** Creating: by an attempt that owns a pending row; it gets a token nobody had, and keeps its parameters. */
  lemma CreatingExactly(s: System, price: Price, mode: Mode, m: Move)
    requires !IsIn(s.row, Creating)
    ensures IsIn(RowAfter(s, price, mode, m), Creating)
            <==> ActsIn(s, m) && StageOf(s, m) == Owning && IsIn(s.row, Pending)
    ensures IsIn(RowAfter(s, price, mode, m), Creating) ==>
              && RowAfter(s, price, mode, m)
                 == Some(s.row.value.(status := Creating, token := Some(s.nextToken), updatedAt := m.now))
              && Step(s, price, mode, m).nextToken == s.nextToken + 1
              && Step(s, price, mode, m).attempts[m.p].stage == Calling(s.nextToken)
  {
    hide Mismatches;
  }

  /** Pending: by the first attempt, or by a retry with the same parameters that saw the row failed and finds it so. */
  predicate ReachesPending(s: System, m: Move) {
    && ActsIn(s, m) && StageOf(s, m).Saw?
    && match StageOf(s, m).row
       case None => s.row.None?
       case Some(seen) =>
         && seen.status == Failed && (seen.intent == None || seen.intent == Some(s.attempts[m.p].intent))
         && IsIn(s.row, Failed)
  }

  lemma PendingExactly(s: System, price: Price, mode: Mode, m: Move)
    requires !IsIn(s.row, Pending)
    ensures IsIn(RowAfter(s, price, mode, m), Pending) <==> ReachesPending(s, m)
    ensures ReachesPending(s, m) ==>
              && Step(s, price, mode, m).attempts[m.p].stage == Owning
              && RowAfter(s, price, mode, m)
                 == if s.row.None? then Some(Row(Pending, None, None, Some(s.attempts[m.p].intent), None, m.now))
                    else Some(s.row.value.(status := Pending, updatedAt := m.now))
  {
    hide Mismatches;
  }

  /**
   * Parked: by a request with the same parameters that saw the row in flight
   * and untouched for more than five minutes, and finds it as it saw it; by
   * the holder of the row whose answer was lost; or by the holder whose
   * product cannot be verified.
   */
  predicate ReachesParked(s: System, m: Move) {
    && ActsIn(s, m)
    && match StageOf(s, m)
       case Saw(Some(seen)) =>
         && (seen.status == Pending || seen.status == Creating)
         && (seen.intent == None || seen.intent == Some(s.attempts[m.p].intent))
         && 300000 < m.now - seen.updatedAt
         && IsIn(s.row, seen.status) && s.row.value.updatedAt == seen.updatedAt
       case Answered(token, answer) => answer == Uncertain && IsHolding(s.row, token)
       case Checked(token, _, verdict) => verdict == Unusable && IsHolding(s.row, token)
       case _ => false
  }

  lemma ParkedExactly(s: System, price: Price, mode: Mode, m: Move)
    requires !IsIn(s.row, NeedsReconciliation)
    ensures IsIn(RowAfter(s, price, mode, m), NeedsReconciliation) <==> ReachesParked(s, m)
    ensures ReachesParked(s, m) ==>
              RowAfter(s, price, mode, m)
              == Some(s.row.value.(status := NeedsReconciliation, updatedAt := m.now,
                                   product := if StageOf(s, m).Checked? then Some(StageOf(s, m).id)
                                              else s.row.value.product))
  {
    hide Mismatches;
  }

  /** The product id of a row that does not change its state: set by its holder once the provider named it. */
  lemma ProductIsNamedExactly(s: System, price: Price, mode: Mode, m: Move)
    requires s.row.Some? && IsIn(RowAfter(s, price, mode, m), s.row.value.status)
    ensures RowAfter(s, price, mode, m).value.product
            == if ActsIn(s, m) && StageOf(s, m).Answered? && StageOf(s, m).answer.Created?
                  && IsHolding(s.row, StageOf(s, m).token)
               then Some(StageOf(s, m).answer.id)
               else if ActsIn(s, m) && StageOf(s, m).Checked? && StageOf(s, m).verdict == Unusable
                       && IsHolding(s.row, StageOf(s, m).token)
               then Some(StageOf(s, m).id)
               else s.row.value.product
  {
    hide Mismatches;
  }

  /** A product that a buyer at the price may be sent to. */
  predicate Fits(price: Price, product: Product, mode: Mode) {
    && ProductTerms(product) == PriceTerms(price) && product.status == ActiveProduct && product.mode == Some(mode)
    && (product.billing == OneTime ==> product.interval == None && product.count == None)
  }

  /** A created product passes exactly if it was read back under its own id and fits. */
  lemma VerifiedExactly(s: System, price: Price, mode: Mode, p: nat, read: Option<Product>)
    requires p in s.attempts && s.attempts[p].stage.Verifying?
    ensures var before := s.attempts[p].stage; var after := Step(s, price, mode, Verify(p, read)).attempts[p].stage;
            && after.Checked? && after.token == before.token && after.id == before.id
            && after.verdict
               == if read.Some? && read.value.id == before.id && Fits(price, read.value, mode) then Matches(read.value)
                  else Unusable
  {
    if read.Some? {
      NoMismatchIsSameTerms(price, read.value, mode);
    }
    hide Mismatches;
  }

  /** An operator's link is taken up exactly if the product fits. */
  lemma LinkedExactly(s: System, price: Price, mode: Mode, p: nat, product: Product)
    requires p !in s.attempts
    ensures var after := Step(s, price, mode, BeginLink(p, product));
            if Fits(price, product, mode) then p in after.attempts && after.attempts[p].stage == Linking(product)
            else after == s
  {
    NoMismatchIsSameTerms(price, product, mode);
    hide Mismatches;
  }

  /**
   * What a call leaves: an answered call is created under the id the provider
   * first made, a refused or unsent one is rejected, a throttled one is made
   * again, and one whose answer is lost is uncertain, whether it landed or not.
   */
  lemma CallAnswers(s: System, price: Price, mode: Mode, p: nat, reply: Reply)
    requires p in s.attempts && s.attempts[p].stage.Calling?
    ensures var before := s.attempts[p]; var after := Step(s, price, mode, Call(p, reply));
            var token := before.stage.token;
            && after.row == s.row && p in after.attempts
            && match reply
               case Accepts(id) =>
                 && after.made == (if s.made.Some? then s.made else Some((before.intent, id)))
                 && after.attempts[p].stage == Answered(token, Created(after.made.value.1))
               case Throttles => after.made == s.made && after.attempts[p].stage == before.stage
               case Refuses => after.made == s.made && after.attempts[p].stage == Answered(token, Rejected)
               case Unsent => after.made == s.made && after.attempts[p].stage == Answered(token, Rejected)
               case Loses(landed) =>
                 && after.attempts[p].stage == Answered(token, Uncertain)
                 && after.made
                    == (if s.made.None? && landed.Some? then Some((before.intent, landed.value)) else s.made)
  {
  }
}
