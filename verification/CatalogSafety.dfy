/**
 * What holds of the mapping row in every interleaving of attempts, operators
 * and provider answers.
 */
module CatalogSafety {
  import opened Wrappers
  import opened CatalogMapping
  import opened CatalogProvisioning

  // ---- one update of the row ----

  /** A product id is never dropped, a synced row keeps its product, and the token only moves to newer attempts. */
  predicate RowGrows(before: Option<Row>, after: Option<Row>) {
    before.Some? ==>
      && after.Some?
      && (before.value.product.Some? ==> after.value.product.Some?)
      && (before.value.status.Synced? ==> after.value.status.Synced? && after.value.product == before.value.product)
      && (before.value.token.Some? ==> after.value.token.Some? && before.value.token.value <= after.value.token.value)
  }

  /** A synced row carries a product that was compared with the price, and matched. */
  predicate RowSafe(row: Row, price: Price, mode: Mode, nextToken: nat) {
    && (row.token.Some? ==> row.token.value + 1 == nextToken)
    && (row.token.None? ==> nextToken == 0)
    && (row.status.Creating? ==> row.token.Some?)
    && (row.status.Synced? ==>
          && row.verified.Some? && row.product == Some(row.verified.value.id)
          && Mismatches(price, row.verified.value, mode) == [])
    && (!row.status.Synced? ==> row.intent.Some?)
  }

  function TokenOf(stage: Stage): Option<nat> {
    match stage
    case Calling(token) => Some(token)
    case Answered(token, _) => Some(token)
    case Verifying(token, _) => Some(token)
    case Checked(token, _, _) => Some(token)
    case _ => None
  }

  /** What an attempt that is not over may rely on. */
  predicate StageSafe(stage: Stage, row: Option<Row>, price: Price, mode: Mode, nextToken: nat) {
    && (TokenOf(stage).Some? ==> TokenOf(stage).value < nextToken && row.Some?)
    && (stage.Checked? && stage.verdict.Matches? ==>
          stage.verdict.product.id == stage.id && Mismatches(price, stage.verdict.product, mode) == [])
    && (stage.Linking? || stage.LinkSaw? ==> Mismatches(price, stage.product, mode) == [])
    && (stage.LinkSaw? ==> RowGrows(Some(stage.observed), row))
    && (stage.Owning? ==> row.Some?)
  }

  ghost predicate Safe(s: System, price: Price, mode: Mode) {
    && (s.row.Some? ==> RowSafe(s.row.value, price, mode, s.nextToken))
    && (s.row.None? ==> s.nextToken == 0)
    && (forall p :: p in s.attempts ==> StageSafe(s.attempts[p].stage, s.row, price, mode, s.nextToken))
    && OwnTokens(s.attempts)
  }

  /** No two attempts have the same token. */
  ghost predicate OwnTokens(attempts: map<nat, Attempt>) {
    forall p, q :: p in attempts && q in attempts && p != q && TokenOf(attempts[p].stage).Some?
      ==> TokenOf(attempts[q].stage) != TokenOf(attempts[p].stage)
  }

  lemma GrowsOn(x: Option<Row>, y: Option<Row>, z: Option<Row>)
    requires RowGrows(x, y) && RowGrows(y, z)
    ensures RowGrows(x, z)
  {
  }

  /** One attempt moves on while the row grows: everybody else's assumptions still hold. */
  lemma MoveKeepsSafe(s: System, price: Price, mode: Mode, p: nat, row: Option<Row>, stage: Stage)
    requires Safe(s, price, mode) && p in s.attempts && RowGrows(s.row, row)
    requires row.Some? ==> RowSafe(row.value, price, mode, s.nextToken)
    requires row.None? ==> s.nextToken == 0
    requires StageSafe(stage, row, price, mode, s.nextToken)
    requires TokenOf(stage) == None || TokenOf(stage) == TokenOf(s.attempts[p].stage)
    ensures Safe(Put(s.(row := row), p, stage), price, mode)
  {
    forall q | q in s.attempts && q != p ensures StageSafe(s.attempts[q].stage, row, price, mode, s.nextToken) {
      var other := s.attempts[q].stage;
      if other.LinkSaw? {
        GrowsOn(Some(other.observed), s.row, row);
      }
    }
  }

  lemma ClaimKeepsSafe(s: System, price: Price, mode: Mode, p: nat, now: Time)
    requires Safe(s, price, mode) && p in s.attempts && s.row.Some? && Claim(s.row.value, s.nextToken, now).Some?
    ensures var claimed := Claim(s.row.value, s.nextToken, now);
            RowGrows(s.row, claimed)
            && Safe(Put(s.(row := claimed, nextToken := s.nextToken + 1), p, Calling(s.nextToken)), price, mode)
  {
    var claimed := Claim(s.row.value, s.nextToken, now);
    forall q | q in s.attempts && q != p ensures StageSafe(s.attempts[q].stage, claimed, price, mode, s.nextToken + 1) {
      var other := s.attempts[q].stage;
      if other.LinkSaw? {
        GrowsOn(Some(other.observed), s.row, claimed);
      }
    }
  }

  /** A step that moves one attempt and grows the row. */
  predicate GoodMove(s: System, after: System, p: nat, price: Price, mode: Mode) {
    && p in s.attempts && p in after.attempts
    && after == Put(s.(row := after.row), p, after.attempts[p].stage)
    && RowGrows(s.row, after.row)
    && (after.row.Some? ==> RowSafe(after.row.value, price, mode, s.nextToken))
    && (after.row.None? ==> s.nextToken == 0)
    && StageSafe(after.attempts[p].stage, after.row, price, mode, s.nextToken)
    && (TokenOf(after.attempts[p].stage) == None || TokenOf(after.attempts[p].stage) == TokenOf(s.attempts[p].stage))
  }

  /** What a step may assume of the row and of the attempt it moves. */
  predicate Locally(s: System, p: nat, price: Price, mode: Mode) {
    && p in s.attempts
    && (s.row.Some? ==> RowSafe(s.row.value, price, mode, s.nextToken))
    && (s.row.None? ==> s.nextToken == 0)
    && StageSafe(s.attempts[p].stage, s.row, price, mode, s.nextToken)
  }

  lemma StayPut(s: System, p: nat)
    requires p in s.attempts
    ensures Put(s, p, s.attempts[p].stage) == s
  {
    assert s.attempts[p := s.attempts[p]] == s.attempts;
  }

  lemma DecideIsGood(s: System, p: nat, now: Time, price: Price, mode: Mode)
    requires Locally(s, p, price, mode) && s.attempts[p].stage.Saw?
    ensures GoodMove(s, DoAct(s, p, now), p, price, mode)
  {
    hide Mismatches;
  }

  lemma AnswerIsGood(s: System, p: nat, now: Time, price: Price, mode: Mode)
    requires Locally(s, p, price, mode) && s.attempts[p].stage.Answered?
    ensures GoodMove(s, DoAct(s, p, now), p, price, mode)
  {
    hide Mismatches;
  }

  lemma VerdictIsGood(s: System, p: nat, now: Time, price: Price, mode: Mode)
    requires Locally(s, p, price, mode) && s.attempts[p].stage.Checked?
    ensures GoodMove(s, DoAct(s, p, now), p, price, mode)
  {
    hide Mismatches;
  }

  lemma LinkIsGood(s: System, p: nat, now: Time, price: Price, mode: Mode)
    requires Locally(s, p, price, mode) && (s.attempts[p].stage.Linking? || s.attempts[p].stage.LinkSaw?)
    ensures GoodMove(s, DoAct(s, p, now), p, price, mode)
  {
    hide Mismatches;
  }

  lemma OtherActIsGood(s: System, p: nat, now: Time, price: Price, mode: Mode)
    requires Locally(s, p, price, mode)
    requires s.attempts[p].stage.Starting? || s.attempts[p].stage.Calling? || s.attempts[p].stage.Verifying?
             || s.attempts[p].stage.Over?
             || (s.attempts[p].stage.Owning? && (s.row.None? || Claim(s.row.value, s.nextToken, now).None?))
    ensures GoodMove(s, DoAct(s, p, now), p, price, mode)
  {
    StayPut(s, p);
    hide Mismatches;
  }

  lemma GoodMoveKeepsSafe(s: System, after: System, p: nat, price: Price, mode: Mode)
    requires Safe(s, price, mode) && GoodMove(s, after, p, price, mode)
    ensures Safe(after, price, mode)
  {
    hide Mismatches, Safe, RowSafe, StageSafe, RowGrows;
    MoveKeepsSafe(s, price, mode, p, after.row, after.attempts[p].stage);
  }

  lemma SafeLocally(s: System, p: nat, price: Price, mode: Mode)
    requires Safe(s, price, mode) && p in s.attempts
    ensures Locally(s, p, price, mode)
  {
  }

  lemma SafeIgnoresTrace(s: System, t: System, price: Price, mode: Mode)
    requires Safe(s, price, mode) && t == s.(trace := t.trace, made := t.made)
    ensures Safe(t, price, mode)
  {
  }

  /** Every update an attempt can make grows the row and keeps it safe. */
  lemma ActKeepsSafe(s: System, price: Price, mode: Mode, p: nat, now: Time)
    requires Safe(s, price, mode) && p in s.attempts
    ensures Safe(DoAct(s, p, now), price, mode) && RowGrows(s.row, DoAct(s, p, now).row)
  {
    hide Safe, Mismatches, Locally;
    SafeLocally(s, p, price, mode);
    var after := DoAct(s, p, now);
    var stage := s.attempts[p].stage;
    if stage.Owning? && s.row.Some? && Claim(s.row.value, s.nextToken, now).Some? {
      ClaimKeepsSafe(s, price, mode, p, now);
      SafeIgnoresTrace(Put(s.(row := after.row, nextToken := s.nextToken + 1), p, Calling(s.nextToken)), after, price,
                       mode);
    } else {
      match stage {
        case Saw(_) => DecideIsGood(s, p, now, price, mode);
        case Answered(_, _) => AnswerIsGood(s, p, now, price, mode);
        case Checked(_, _, _) => VerdictIsGood(s, p, now, price, mode);
        case Linking(_) => LinkIsGood(s, p, now, price, mode);
        case LinkSaw(_, _) => LinkIsGood(s, p, now, price, mode);
        case _ => OtherActIsGood(s, p, now, price, mode);
      }
      GoodMoveKeepsSafe(s, after, p, price, mode);
    }
  }

  lemma CallKeepsSafe(s: System, price: Price, mode: Mode, p: nat, reply: Reply)
    requires Safe(s, price, mode) && p in s.attempts && s.attempts[p].stage.Calling?
    ensures Safe(DoCall(s, p, reply), price, mode) && DoCall(s, p, reply).row == s.row
  {
    var after := DoCall(s, p, reply);
    StayPut(s, p);
    var moved := Put(s, p, after.attempts[p].stage);
    assert GoodMove(s, moved, p, price, mode) by { SafeLocally(s, p, price, mode); }
    GoodMoveKeepsSafe(s, moved, p, price, mode);
    SafeIgnoresTrace(moved, after, price, mode);
  }

  lemma BeginKeepsSafe(s: System, price: Price, mode: Mode, p: nat, a: Attempt)
    requires Safe(s, price, mode) && p !in s.attempts
    requires a.stage.Starting? || (a.stage.Linking? && Mismatches(price, a.stage.product, mode) == [])
    ensures Safe(s.(attempts := s.attempts[p := a]), price, mode)
  {
    hide Mismatches, RowSafe;
  }

  lemma OperatorKeepsSafe(s: System, price: Price, mode: Mode, now: Time)
    requires Safe(s, price, mode) && s.row.Some? && MarkFailed(s.row.value, now).Some?
    ensures Safe(s.(row := MarkFailed(s.row.value, now)), price, mode) && RowGrows(s.row, MarkFailed(s.row.value, now))
  {
    hide Mismatches;
    var row := MarkFailed(s.row.value, now);
    forall q | q in s.attempts ensures StageSafe(s.attempts[q].stage, row, price, mode, s.nextToken) {
      var other := s.attempts[q].stage;
      if other.LinkSaw? {
        GrowsOn(Some(other.observed), s.row, row);
      }
    }
  }

  /** Every step of anybody keeps the row safe and lets it only grow. */
  lemma StepKeepsSafe(s: System, price: Price, mode: Mode, m: Move)
    requires Safe(s, price, mode)
    ensures Safe(Step(s, price, mode, m), price, mode) && RowGrows(s.row, Step(s, price, mode, m).row)
  {
    hide Safe, Mismatches, DoAct, DoCall;
    var after := Step(s, price, mode, m);
    match m
    case Begin(p, intent) =>
      if p !in s.attempts {
        BeginKeepsSafe(s, price, mode, p, Attempt(intent, Starting));
      }
    case BeginLink(p, product) =>
      if after != s {
        BeginKeepsSafe(s, price, mode, p, after.attempts[p]);
      }
    case Look(p) =>
      if p in s.attempts && s.attempts[p].stage.Starting? {
        SafeLocally(s, p, price, mode);
        GoodMoveKeepsSafe(s, after, p, price, mode);
      }
    case Act(p, now) =>
      if p in s.attempts {
        ActKeepsSafe(s, price, mode, p, now);
      }
    case Call(p, reply) =>
      if p in s.attempts && s.attempts[p].stage.Calling? {
        CallKeepsSafe(s, price, mode, p, reply);
      }
    case Verify(p, read) =>
      if p in s.attempts && s.attempts[p].stage.Verifying? {
        SafeLocally(s, p, price, mode);
        GoodMoveKeepsSafe(s, after, p, price, mode);
      }
    case OperatorFails(now) =>
      if s.row.Some? && MarkFailed(s.row.value, now).Some? {
        OperatorKeepsSafe(s, price, mode, now);
        SafeIgnoresTrace(s.(row := MarkFailed(s.row.value, now)), after, price, mode);
      }
  }

  lemma {:induction false} RunKeepsSafe(s: System, price: Price, mode: Mode, moves: seq<Move>)
    requires Safe(s, price, mode)
    ensures Safe(Run(s, price, mode, moves), price, mode) && RowGrows(s.row, Run(s, price, mode, moves).row)
    decreases |moves|
  {
    if moves != [] {
      StepKeepsSafe(s, price, mode, moves[0]);
      hide Safe, Step;
      RunKeepsSafe(Step(s, price, mode, moves[0]), price, mode, moves[1..]);
      GrowsOn(s.row, Step(s, price, mode, moves[0]).row, Run(s, price, mode, moves).row);
    }
  }

  lemma EmptyIsSafe(price: Price, mode: Mode)
    ensures Safe(EMPTY, price, mode)
  {
  }

  /**
   * Whatever the interleaving, and from any moment to any later one: a set
   * product id is never lost, a synced row stays synced with its product, and
   * that product is one whose comparison with the price found no mismatch.
   */
  lemma SyncedIsFinalAndVerified(price: Price, mode: Mode, earlier: seq<Move>, later: seq<Move>)
    ensures var s := Run(EMPTY, price, mode, earlier); var t := Run(s, price, mode, later);
            && RowGrows(s.row, t.row)
            && (t.row.Some? && t.row.value.status.Synced? ==>
                  && t.row.value.verified.Some?
                  && CheckoutProduct(t.row) == Some(t.row.value.verified.value.id)
                  && Mismatches(price, t.row.value.verified.value, mode) == [])
  {
    EmptyIsSafe(price, mode);
    RunKeepsSafe(EMPTY, price, mode, earlier);
    RunKeepsSafe(Run(EMPTY, price, mode, earlier), price, mode, later);
  }

  // ---- ABA ----

  /** A newer attempt has claimed the row. */
  predicate Superseded(s: System, token: nat) {
    s.row.Some? && s.row.value.token.Some? && token < s.row.value.token.value
  }

  /** A superseded attempt keeps its old token until it is over. */
  predicate ShutOut(s: System, p: nat, token: nat) {
    && Superseded(s, token) && p in s.attempts
    && (s.attempts[p].stage.Over? || TokenOf(s.attempts[p].stage) == Some(token))
  }

  predicate IsMoveOf(m: Move, p: nat) {
    match m
    case OperatorFails(_) => false
    case _ => m.p == p
  }

  lemma ActOfShutOut(s: System, p: nat, token: nat, now: Time)
    requires ShutOut(s, p, token)
    ensures var after := DoAct(s, p, now);
            && after.row == s.row && p in after.attempts
            && (after.attempts[p].stage.Over? || TokenOf(after.attempts[p].stage) == Some(token))
  {
  }

  /** A step of the superseded attempt itself leaves the row alone; a step of anybody else leaves the attempt alone. */
  lemma StepOfShutOut(s: System, price: Price, mode: Mode, p: nat, token: nat, m: Move)
    requires ShutOut(s, p, token)
    ensures IsMoveOf(m, p) ==> Step(s, price, mode, m).row == s.row
    ensures var after := Step(s, price, mode, m);
            p in after.attempts && (after.attempts[p].stage.Over? || TokenOf(after.attempts[p].stage) == Some(token))
  {
    hide DoAct, VerdictOn, Mismatches;
    if m.Act? && m.p in s.attempts {
      if m.p == p {
        ActOfShutOut(s, p, token, m.now);
      } else {
        ActTouchesOne(s, m.p, m.now, p);
      }
    }
  }

  lemma ActTouchesOne(s: System, p: nat, now: Time, q: nat)
    requires p in s.attempts && q in s.attempts && q != p
    ensures q in DoAct(s, p, now).attempts && DoAct(s, p, now).attempts[q] == s.attempts[q]
  {
  }

  lemma {:induction false} StaysShutOut(s: System, price: Price, mode: Mode, p: nat, token: nat, moves: seq<Move>)
    requires Safe(s, price, mode) && ShutOut(s, p, token)
    ensures ShutOut(Run(s, price, mode, moves), p, token)
    decreases |moves|
  {
    hide Safe, Step;
    if moves != [] {
      StepKeepsSafe(s, price, mode, moves[0]);
      StepOfShutOut(s, price, mode, p, token, moves[0]);
      StaysShutOut(Step(s, price, mode, moves[0]), price, mode, p, token, moves[1..]);
    }
  }

  /**
   * Once a newer attempt has claimed the row, no step of an older one changes
   * the row any more, however late it comes and whatever happens meanwhile.
   */
  lemma SupersededNeverWrites(price: Price, mode: Mode, earlier: seq<Move>, later: seq<Move>, p: nat, m: Move)
    requires var s := Run(EMPTY, price, mode, earlier);
             p in s.attempts && TokenOf(s.attempts[p].stage).Some? && Superseded(s, TokenOf(s.attempts[p].stage).value)
    requires IsMoveOf(m, p)
    ensures var t := Run(Run(EMPTY, price, mode, earlier), price, mode, later);
            Step(t, price, mode, m).row == t.row
  {
    EmptyIsSafe(price, mode);
    RunKeepsSafe(EMPTY, price, mode, earlier);
    var s := Run(EMPTY, price, mode, earlier);
    hide Run, Step, Safe;
    var token := TokenOf(s.attempts[p].stage).value;
    StaysShutOut(s, price, mode, p, token, later);
    StepOfShutOut(Run(s, price, mode, later), price, mode, p, token, m);
  }

  /** An older attempt stays superseded for good, and no two attempts share a token. */
  lemma OnceSupersededAlways(price: Price, mode: Mode, earlier: seq<Move>, later: seq<Move>, token: nat)
    requires Superseded(Run(EMPTY, price, mode, earlier), token)
    ensures Superseded(Run(Run(EMPTY, price, mode, earlier), price, mode, later), token)
    ensures OwnTokens(Run(Run(EMPTY, price, mode, earlier), price, mode, later).attempts)
  {
    EmptyIsSafe(price, mode);
    RunKeepsSafe(EMPTY, price, mode, earlier);
    RunKeepsSafe(Run(EMPTY, price, mode, earlier), price, mode, later);
  }

  /** At any moment at most one attempt owns the row. */
  lemma OneOwner(price: Price, mode: Mode, moves: seq<Move>, p: nat, q: nat)
    requires var s := Run(EMPTY, price, mode, moves);
             && s.row.Some? && p in s.attempts && q in s.attempts
             && TokenOf(s.attempts[p].stage).Some? && Owns(s.row.value, TokenOf(s.attempts[p].stage).value)
             && TokenOf(s.attempts[q].stage).Some? && Owns(s.row.value, TokenOf(s.attempts[q].stage).value)
    ensures p == q
  {
    EmptyIsSafe(price, mode);
    RunKeepsSafe(EMPTY, price, mode, moves);
  }
}
