/**
 * The create calls of one mapping row: they all carry the same parameters, so
 * a provider that dedupes by key holds at most one product.
 */
module CatalogCreates {
  import opened Wrappers
  import opened CatalogMapping
  import opened CatalogProvisioning
  import opened CatalogSafety

  // ---- frozen parameters ----

  predicate IntentOf(row: Option<Row>, frozen: Intent) {
    row.Some? ==>
      && (row.value.intent.Some? ==> row.value.intent.value == frozen)
      && (!row.value.status.Synced? ==> row.value.intent.Some?)
  }

  /**
   * An attempt past its first look carries the frozen parameters; what it was
   * answered is the product made with them.
   */
  predicate AttemptFrozen(a: Attempt, frozen: Intent, made: Option<(Intent, string)>) {
    && (a.stage.Saw? ==> IntentOf(a.stage.row, frozen))
    && (a.stage.Owning? || TokenOf(a.stage).Some? ==> a.intent == frozen)
    && (a.stage.Answered? && a.stage.answer.Created? ==> made == Some((frozen, a.stage.answer.id)))
    && (a.stage.Verifying? || a.stage.Checked? ==> made == Some((frozen, a.stage.id)))
  }

  predicate MarkFrozen(m: Mark, frozen: Intent) {
    m.Sent? ==> m.intent == frozen
  }

  ghost predicate Frozen(s: System, frozen: Intent) {
    && IntentOf(s.row, frozen)
    && (forall p :: p in s.attempts ==> AttemptFrozen(s.attempts[p], frozen, s.made))
    && (forall k :: 0 <= k < |s.trace| ==> MarkFrozen(s.trace[k], frozen))
    && (s.made.Some? ==> s.made.value.0 == frozen)
    && (s.row.None? ==> s.made.None? && s.trace == [] && forall p :: p in s.attempts ==> Early(s.attempts[p].stage))
  }

  /** Nothing has been decided yet. */
  predicate Early(stage: Stage) {
    stage.Starting? || (stage.Saw? && stage.row.None?) || stage.Linking? || stage.Over?
  }

  /** The parameters the row froze: those of the attempt that inserts it. */
  function FreezeAt(s: System, m: Move, frozen: Intent): Intent {
    if s.row.None? && m.Act? && m.p in s.attempts && s.attempts[m.p].stage.Saw? then s.attempts[m.p].intent else frozen
  }

  lemma RefreezeEarly(s: System, frozen: Intent, other: Intent)
    requires Frozen(s, frozen) && s.row.None?
    ensures Frozen(s, other)
  {
  }

  /** The first attempt freezes its own parameters. */
  lemma InsertKeepsFrozen(s: System, p: nat, now: Time, frozen: Intent)
    requires Frozen(s, frozen) && p in s.attempts && s.attempts[p].stage == Saw(None)
    requires (s.row.None? ==> s.attempts[p].intent == frozen)
    ensures Frozen(DoAct(s, p, now), frozen)
  {
  }

  /** Retries are only let through with the frozen parameters. */
  lemma RetryKeepsFrozen(s: System, p: nat, now: Time, frozen: Intent)
    requires Frozen(s, frozen) && p in s.attempts && s.attempts[p].stage.Saw? && s.attempts[p].stage.row.Some?
    ensures Frozen(DoAct(s, p, now), frozen)
  {
    hide Stale;
    assert AttemptFrozen(s.attempts[p], frozen, s.made);
    assert s.row.Some?;
  }

  lemma LinkKeepsFrozen(s: System, price: Price, mode: Mode, p: nat, now: Time, frozen: Intent)
    requires Safe(s, price, mode) && Frozen(s, frozen) && p in s.attempts
    requires (s.attempts[p].stage.Linking? || s.attempts[p].stage.LinkSaw?)
    ensures Frozen(DoAct(s, p, now), frozen)
  {
    SafeLocally(s, p, price, mode);
    hide Safe, Mismatches;
  }

  lemma ClaimKeepsFrozen(s: System, p: nat, now: Time, frozen: Intent)
    requires Frozen(s, frozen) && p in s.attempts && s.attempts[p].stage.Owning?
    ensures Frozen(DoAct(s, p, now), frozen)
  {
    assert AttemptFrozen(s.attempts[p], frozen, s.made);
  }

  lemma FinishKeepsFrozen(s: System, p: nat, now: Time, frozen: Intent)
    requires Frozen(s, frozen) && p in s.attempts && !s.attempts[p].stage.Owning?
    requires !s.attempts[p].stage.Saw? && !s.attempts[p].stage.Linking? && !s.attempts[p].stage.LinkSaw?
    ensures Frozen(DoAct(s, p, now), frozen)
  {
    assert AttemptFrozen(s.attempts[p], frozen, s.made);
  }

  lemma CallKeepsFrozen(s: System, p: nat, reply: Reply, frozen: Intent)
    requires Frozen(s, frozen) && p in s.attempts && s.attempts[p].stage.Calling?
    ensures Frozen(DoCall(s, p, reply), frozen)
  {
    assert AttemptFrozen(s.attempts[p], frozen, s.made);
  }

  lemma StepKeepsFrozen(s: System, price: Price, mode: Mode, m: Move, frozen: Intent)
    requires Safe(s, price, mode) && Frozen(s, frozen)
    ensures Frozen(Step(s, price, mode, m), FreezeAt(s, m, frozen))
  {
    hide DoAct, DoCall, Mismatches, Safe;
    var now := FreezeAt(s, m, frozen);
    if now != frozen {
      RefreezeEarly(s, frozen, now);
    }
    match m
    case Act(p, time) =>
      if p in s.attempts {
        if s.attempts[p].stage.Saw? {
          if s.attempts[p].stage.row.None? {
            InsertKeepsFrozen(s, p, time, now);
          } else {
            RetryKeepsFrozen(s, p, time, now);
          }
        } else if s.attempts[p].stage.Linking? || s.attempts[p].stage.LinkSaw? {
          LinkKeepsFrozen(s, price, mode, p, time, now);
        } else if s.attempts[p].stage.Owning? {
          ClaimKeepsFrozen(s, p, time, now);
        } else {
          FinishKeepsFrozen(s, p, time, now);
        }
      }
    case Call(p, reply) =>
      if p in s.attempts && s.attempts[p].stage.Calling? {
        CallKeepsFrozen(s, p, reply, now);
      }
    case _ =>
  }

  lemma {:induction false} RunKeepsFrozen(s: System, price: Price, mode: Mode, moves: seq<Move>, frozen: Intent)
    returns (final: Intent)
    requires Safe(s, price, mode) && Frozen(s, frozen)
    ensures Frozen(Run(s, price, mode, moves), final)
    decreases |moves|
  {
    final := frozen;
    if moves != [] {
      hide Frozen, Step, Safe;
      StepKeepsFrozen(s, price, mode, moves[0], frozen);
      StepKeepsSafe(s, price, mode, moves[0]);
      final := RunKeepsFrozen(Step(s, price, mode, moves[0]), price, mode, moves[1..], FreezeAt(s, moves[0], frozen));
    }
  }

  /**
   * All create calls of the row carry the same parameters (the key is the
   * row's own id), and whatever the provider made under that key was made
   * with them; so it made one product at most, and every attempt that was
   * answered was answered with that product.
   */
  lemma CreatesAgree(price: Price, mode: Mode, moves: seq<Move>)
    ensures var s := Run(EMPTY, price, mode, moves);
            && (forall j, k | 0 <= j < |s.trace| && 0 <= k < |s.trace| && s.trace[j].Sent? && s.trace[k].Sent? ::
                  s.trace[j].intent == s.trace[k].intent)
            && (forall k :: 0 <= k < |s.trace| && s.trace[k].Sent? && s.made.Some? ==>
                s.made.value.0 == s.trace[k].intent)
            && (forall p :: p in s.attempts && s.attempts[p].stage.Answered? && s.attempts[p].stage.answer.Created? ==>
                  s.made.Some? && s.made.value.1 == s.attempts[p].stage.answer.id)
  {
    EmptyIsSafe(price, mode);
    var any := Intent("", None, 0, "", OneTime, None, None, None);
    var frozen := RunKeepsFrozen(EMPTY, price, mode, moves, any);
    var s := Run(EMPTY, price, mode, moves);
    forall k | 0 <= k < |s.trace| && s.trace[k].Sent? ensures s.trace[k].intent == frozen {
      assert MarkFrozen(s.trace[k], frozen);
    }
    forall p | p in s.attempts ensures AttemptFrozen(s.attempts[p], frozen, s.made) {
    }
    hide Run;
  }
}
