/**
 * Blind create calls: calls made while an earlier call of the row is neither
 * rejected nor given up. If every caller owned the row when it calls there
 * would be none; the code checks ownership when an attempt reports, not when
 * it calls.
 */
module CatalogCalls {
  import opened Wrappers
  import opened CatalogMapping
  import opened CatalogProvisioning
  import opened CatalogSafety

  /** The latest call, as long as nothing has resolved it. */
  function Unresolved(trace: seq<Mark>): Option<nat> {
    if trace == [] then None
    else
      var before := Unresolved(trace[..|trace| - 1]);
      match trace[|trace| - 1]
      case Sent(token, _, _) => Some(token)
      case Throttled(token) => if before == Some(token) then None else before
      case Refused(token) => if before == Some(token) then None else before
      case MarkedFailed => None
      case Claimed(_) => before
  }

  lemma UnresolvedAfter(trace: seq<Mark>, m: Mark)
    ensures var before := Unresolved(trace);
            Unresolved(trace + [m])
            == match m
               case Sent(token, _, _) => Some(token)
               case Throttled(token) => if before == Some(token) then None else before
               case Refused(token) => if before == Some(token) then None else before
               case MarkedFailed => None
               case Claimed(_) => before
  {
    assert (trace + [m])[..|trace|] == trace;
  }

  /** Every call was made with nothing unresolved. */
  ghost predicate Sighted(trace: seq<Mark>) {
    forall j :: 0 <= j < |trace| && trace[j].Sent? ==> Unresolved(trace[..j]).None?
  }

  /** Every caller owned the row when it called. */
  ghost predicate CallsOwned(trace: seq<Mark>) {
    forall j :: 0 <= j < |trace| && trace[j].Sent? ==> trace[j].current
  }

  lemma OwnedBefore(trace: seq<Mark>, m: Mark)
    ensures CallsOwned(trace + [m]) <==> CallsOwned(trace) && (m.Sent? ==> m.current)
  {
    assert (trace + [m])[|trace|] == m;
    forall j | 0 <= j < |trace| ensures (trace + [m])[j] == trace[j] {
    }
  }

  lemma SightedAfter(trace: seq<Mark>, m: Mark)
    requires Sighted(trace) && (m.Sent? ==> Unresolved(trace).None?)
    ensures Sighted(trace + [m])
  {
    var longer := trace + [m];
    forall j | 0 <= j < |longer| && longer[j].Sent? ensures Unresolved(longer[..j]).None? {
      if j < |trace| {
        assert longer[..j] == trace[..j];
        assert trace[j] == longer[j];
      } else {
        assert longer[..j] == trace;
      }
    }
  }

  /**
   * While an owner's call is unresolved the row is its own, and it is neither
   * about to call again nor to report a rejection.
   */
  ghost predicate Watched(s: System) {
    CallsOwned(s.trace) ==>
    && Sighted(s.trace)
    && (Unresolved(s.trace).Some? ==>
          var token := Unresolved(s.trace).value;
          && s.row.Some? && s.row.value.token == Some(token)
          && (s.row.value.status.Creating? || s.row.value.status.NeedsReconciliation? || s.row.value.status.Synced?)
          && (forall p :: p in s.attempts ==> !Resending(s.attempts[p].stage, token)))
  }

  predicate Resending(stage: Stage, token: nat) {
    stage == Calling(token) || stage == Answered(token, Rejected)
  }

  lemma OtherActKeepsWatched(s: System, price: Price, mode: Mode, p: nat, now: Time)
    requires Locally(s, p, price, mode) && Watched(s) && !s.attempts[p].stage.Owning?
    ensures Watched(DoAct(s, p, now))
  {
    hide Mismatches, Sighted, Unresolved, CallsOwned;
  }

  lemma ActKeepsWatched(s: System, price: Price, mode: Mode, p: nat, now: Time)
    requires Safe(s, price, mode) && Watched(s) && p in s.attempts
    ensures Watched(DoAct(s, p, now))
  {
    SafeLocally(s, p, price, mode);
    hide Mismatches, Sighted, Unresolved, Safe, CallsOwned;
    if s.attempts[p].stage.Owning? {
      UnresolvedAfter(s.trace, Claimed(s.nextToken));
      OwnedBefore(s.trace, Claimed(s.nextToken));
      if CallsOwned(s.trace) {
        SightedAfter(s.trace, Claimed(s.nextToken));
      }
    } else {
      OtherActKeepsWatched(s, price, mode, p, now);
    }
  }

  /** One mark after another: what it does to what is unresolved, and to who has called. */
  lemma MarkFollows(trace: seq<Mark>, m: Mark)
    requires CallsOwned(trace + [m]) ==> Sighted(trace) && (m.Sent? ==> Unresolved(trace).None?)
    ensures CallsOwned(trace + [m]) <==> CallsOwned(trace) && (m.Sent? ==> m.current)
    ensures CallsOwned(trace + [m]) ==> Sighted(trace + [m])
  {
    OwnedBefore(trace, m);
    if CallsOwned(trace + [m]) {
      SightedAfter(trace, m);
    }
  }

  /** An owner that is about to call finds nothing unresolved. */
  lemma OwnerSeesNothing(s: System, p: nat)
    requires Watched(s) && p in s.attempts && s.attempts[p].stage.Calling? && s.row.Some? && CallsOwned(s.trace)
    ensures Sighted(s.trace)
    ensures Owns(s.row.value, s.attempts[p].stage.token) ==> Unresolved(s.trace).None?
  {
    hide Unresolved, Sighted, CallsOwned;
    assert Resending(s.attempts[p].stage, s.attempts[p].stage.token);
  }

  /** The call itself: the owner's becomes the unresolved one. */
  lemma SentFollows(s: System, p: nat)
    requires Watched(s) && p in s.attempts && s.attempts[p].stage.Calling? && s.row.Some?
    ensures var token := s.attempts[p].stage.token;
            var sent := s.trace + [Sent(token, s.attempts[p].intent, Owns(s.row.value, token))];
            && Unresolved(sent) == Some(token)
            && (CallsOwned(sent) ==> Owns(s.row.value, token) && Sighted(sent))
  {
    hide Unresolved, Sighted, Watched, CallsOwned, Owns;
    var token := s.attempts[p].stage.token;
    var call := Sent(token, s.attempts[p].intent, Owns(s.row.value, token));
    OwnedBefore(s.trace, call);
    UnresolvedAfter(s.trace, call);
    if CallsOwned(s.trace) {
      OwnerSeesNothing(s, p);
      MarkFollows(s.trace, call);
    }
  }

  lemma RejectionFollows(s: System, p: nat, m: Mark)
    requires Watched(s) && p in s.attempts && s.attempts[p].stage.Calling? && s.row.Some?
    requires m == Mark.Throttled(s.attempts[p].stage.token) || m == Mark.Refused(s.attempts[p].stage.token)
    ensures var token := s.attempts[p].stage.token;
            var sent := s.trace + [Sent(token, s.attempts[p].intent, Owns(s.row.value, token))];
            && Unresolved(sent + [m]) == None
            && (CallsOwned(sent + [m]) ==> Owns(s.row.value, token) && Sighted(sent + [m]))
  {
    hide Unresolved, Sighted, Watched, CallsOwned, Owns;
    var token := s.attempts[p].stage.token;
    var sent := s.trace + [Sent(token, s.attempts[p].intent, Owns(s.row.value, token))];
    SentFollows(s, p);
    OwnedBefore(sent, m);
    MarkFollows(sent, m);
    UnresolvedAfter(sent, m);
  }

  lemma UnsentKeepsWatched(s: System, p: nat)
    requires Watched(s) && p in s.attempts && s.attempts[p].stage.Calling? && s.row.Some?
    ensures Watched(DoCall(s, p, Unsent))
  {
    hide Sighted, Unresolved, CallsOwned;
    var m := Mark.Refused(s.attempts[p].stage.token);
    OwnedBefore(s.trace, m);
    if CallsOwned(s.trace) {
      MarkFollows(s.trace, m);
    }
    UnresolvedAfter(s.trace, m);
  }

  /** Tokens are distinct: only the caller itself could resend under its token. */
  lemma OnlyItself(s: System, price: Price, mode: Mode, p: nat, q: nat)
    requires Safe(s, price, mode) && p in s.attempts && q in s.attempts && q != p && s.attempts[p].stage.Calling?
    ensures !Resending(s.attempts[q].stage, s.attempts[p].stage.token)
  {
    assert OwnTokens(s.attempts);
    assert TokenOf(s.attempts[p].stage) == Some(s.attempts[p].stage.token);
  }

  lemma CallKeepsWatched(s: System, price: Price, mode: Mode, p: nat, reply: Reply)
    requires Safe(s, price, mode) && Watched(s) && p in s.attempts && s.attempts[p].stage.Calling?
    ensures Watched(DoCall(s, p, reply))
  {
    SafeLocally(s, p, price, mode);
    if reply.Unsent? {
      UnsentKeepsWatched(s, p);
    } else {
      var token := s.attempts[p].stage.token;
      SentFollows(s, p);
      RejectionFollows(s, p, Mark.Throttled(token));
      RejectionFollows(s, p, Mark.Refused(token));
      hide Mismatches, Sighted, Unresolved, CallsOwned, Safe;
      forall q | q in s.attempts && q != p ensures !Resending(s.attempts[q].stage, token) {
        OnlyItself(s, price, mode, p, q);
      }
    }
  }

  lemma OperatorKeepsWatched(s: System, now: Time)
    requires Watched(s) && s.row.Some? && MarkFailed(s.row.value, now).Some?
    ensures Watched(s.(row := MarkFailed(s.row.value, now), trace := s.trace + [MarkedFailed]))
  {
    hide Sighted, Unresolved, CallsOwned;
    OwnedBefore(s.trace, MarkedFailed);
    MarkFollows(s.trace, MarkedFailed);
    UnresolvedAfter(s.trace, MarkedFailed);
  }

  lemma StepKeepsWatched(s: System, price: Price, mode: Mode, m: Move)
    requires Safe(s, price, mode) && Watched(s)
    ensures Watched(Step(s, price, mode, m))
  {
    hide Safe, DoAct, DoCall, Mismatches, Sighted, VerdictOn, CallsOwned, Unresolved;
    match m
    case Act(p, now) =>
      if p in s.attempts {
        ActKeepsWatched(s, price, mode, p, now);
      }
    case Call(p, reply) =>
      if p in s.attempts && s.attempts[p].stage.Calling? {
        CallKeepsWatched(s, price, mode, p, reply);
      }
    case OperatorFails(now) =>
      if s.row.Some? && MarkFailed(s.row.value, now).Some? {
        OperatorKeepsWatched(s, now);
      }
    case _ =>
  }

  lemma {:induction false} RunKeepsWatched(s: System, price: Price, mode: Mode, moves: seq<Move>)
    requires Safe(s, price, mode) && Watched(s)
    ensures Watched(Run(s, price, mode, moves))
    decreases |moves|
  {
    hide Safe, Watched, Step;
    if moves != [] {
      StepKeepsWatched(s, price, mode, moves[0]);
      StepKeepsSafe(s, price, mode, moves[0]);
      RunKeepsWatched(Step(s, price, mode, moves[0]), price, mode, moves[1..]);
    }
  }

  /** A rejection of the call, or an operator's decision to give the attempt up. */
  predicate Resolves(m: Mark, token: nat) {
    m == Throttled(token) || m == Refused(token) || m.MarkedFailed?
  }

  /** Without a resolution and without another call, a call stays unresolved. */
  lemma {:induction false} StaysUnresolved(trace: seq<Mark>, i: nat, j: nat)
    requires i < j <= |trace| && trace[i].Sent?
    requires forall k :: i < k < j ==> !Resolves(trace[k], trace[i].token) && !trace[k].Sent?
    ensures Unresolved(trace[..j]) == Some(trace[i].token)
    decreases j
  {
    assert trace[..j] == trace[..j - 1] + [trace[j - 1]];
    UnresolvedAfter(trace[..j - 1], trace[j - 1]);
    if i < j - 1 {
      StaysUnresolved(trace, i, j - 1);
    }
  }

  /** Two consecutive calls, the first of them resolved in between. */
  ghost predicate Separated(trace: seq<Mark>, i: nat, j: nat)
    requires i < j < |trace| && trace[i].Sent?
  {
    exists k :: i < k < j && Resolves(trace[k], trace[i].token)
  }

  /**
   * In every run in which each caller finds its own token on the row when it
   * calls, any two consecutive create calls are separated: the first was
   * rejected, or an operator gave it up.
   */
  lemma OwnedCallsAreSeparated(price: Price, mode: Mode, moves: seq<Move>, i: nat, j: nat)
    requires var trace := Run(EMPTY, price, mode, moves).trace;
             && CallsOwned(trace) && i < j < |trace| && trace[i].Sent? && trace[j].Sent?
             && forall k :: i < k < j ==> !trace[k].Sent?
    ensures Separated(Run(EMPTY, price, mode, moves).trace, i, j)
  {
    EmptyIsSafe(price, mode);
    RunKeepsWatched(EMPTY, price, mode, moves);
    var trace := Run(EMPTY, price, mode, moves).trace;
    hide Run, Unresolved;
    if !Separated(trace, i, j) {
      StaysUnresolved(trace, i, j);
    }
  }

  /**
   * The first call that may go wrong: after calls by owners only, nothing can
   * be unresolved but the call of the attempt whose token is on the row, so a
   * blind call is never the owner's own. (The other half is by definition.)
   * OwnedCallsAreSeparated says what ownership gives over a whole run,
   * EveryCallCanBeOvertaken what is lost without it.
   */
  lemma BlindCallExactly(price: Price, mode: Mode, moves: seq<Move>, p: nat)
    requires var s := Run(EMPTY, price, mode, moves);
             CallsOwned(s.trace) && p in s.attempts && s.attempts[p].stage.Calling?
    ensures var s := Run(EMPTY, price, mode, moves); var token := s.attempts[p].stage.token;
            && s.row.Some?
            && (Unresolved(s.trace).Some?
                <==> !Owns(s.row.value, token) && s.row.value.token.Some? && Unresolved(s.trace) == s.row.value.token)
  {
    EmptyIsSafe(price, mode);
    RunKeepsWatched(EMPTY, price, mode, moves);
    RunKeepsSafe(EMPTY, price, mode, moves);
    var s := Run(EMPTY, price, mode, moves);
    SafeLocally(s, p, price, mode);
    hide Run, Unresolved, Safe, Sighted;
    assert Resending(s.attempts[p].stage, s.attempts[p].stage.token);
  }

  // ---- runs ----

  predicate Follows(states: seq<System>, price: Price, mode: Mode, moves: seq<Move>, k: nat)
    requires k < |moves| && |states| == |moves| + 1
  {
    states[k + 1] == Step(states[k], price, mode, moves[k])
  }

  lemma {:induction false} RunThrough(states: seq<System>, price: Price, mode: Mode, moves: seq<Move>)
    requires |states| == |moves| + 1 && forall k :: 0 <= k < |moves| ==> Follows(states, price, mode, moves, k)
    ensures Run(states[0], price, mode, moves) == states[|moves|]
    decreases |moves|
  {
    hide Step;
    if moves != [] {
      assert Follows(states, price, mode, moves, 0);
      forall k | 0 <= k < |moves| - 1 ensures Follows(states[1..], price, mode, moves[1..], k) {
        assert Follows(states, price, mode, moves, k + 1);
      }
      RunThrough(states[1..], price, mode, moves[1..]);
    }
  }

  lemma {:induction false} RunInParts(s: System, price: Price, mode: Mode, xs: seq<Move>, ys: seq<Move>)
    ensures Run(s, price, mode, xs + ys) == Run(Run(s, price, mode, xs), price, mode, ys)
    decreases |xs|
  {
    hide Step;
    if xs == [] {
      assert xs + ys == ys;
    } else {
      assert (xs + ys)[1..] == xs[1..] + ys;
      RunInParts(Step(s, price, mode, xs[0]), price, mode, xs[1..], ys);
    }
  }

  // ---- what happens without the check ----

  lemma {:induction false} Above(some: set<nat>) returns (q: nat)
    ensures q !in some && forall x :: x in some ==> x < q
  {
    q := 0;
    if some != {} {
      var x :| x in some;
      var rest := Above(some - {x});
      q := Max(rest, x + 1);
      forall y | y in some ensures y < q {
        assert y == x || y in some - {x};
      }
    }
  }

  function ClaimMoves(q: nat, intent: Intent, now: Time): seq<Move> {
    [Begin(q, intent), Look(q), Act(q, now), Act(q, now)]
  }

  /** A retry by a new attempt claims a failed row. */
  function Reclaimed(s: System, q: nat, now: Time): System
    requires s.row.Some? && s.row.value.intent.Some?
  {
    s.(row := Some(s.row.value.(status := Creating, token := Some(s.nextToken), updatedAt := now)),
       attempts := s.attempts[q := Attempt(s.row.value.intent.value, Calling(s.nextToken))],
       nextToken := s.nextToken + 1,
       trace := s.trace + [Claimed(s.nextToken)])
  }

  lemma RetryClaims(s: System, price: Price, mode: Mode, q: nat, now: Time)
    requires q !in s.attempts && s.row.Some? && s.row.value.status.Failed? && s.row.value.intent.Some?
    ensures Run(s, price, mode, ClaimMoves(q, s.row.value.intent.value, now)) == Reclaimed(s, q, now)
  {
    var moves := ClaimMoves(q, s.row.value.intent.value, now);
    var s1 := Step(s, price, mode, moves[0]);
    var s2 := Step(s1, price, mode, moves[1]);
    var s3 := Step(s2, price, mode, moves[2]);
    var s4 := Step(s3, price, mode, moves[3]);
    assert s4.attempts == Reclaimed(s, q, now).attempts;
    RunThrough([s, s1, s2, s3, s4], price, mode, moves);
  }

  /** A row in flight can be parked by a request that comes long after, and then be given up. */
  lemma ParkAndFail(s: System, price: Price, mode: Mode, q: nat)
    requires q !in s.attempts && s.row.Some? && InFlight(s.row.value) && s.row.value.intent.Some?
    ensures var now := s.row.value.updatedAt + STALE_IN_FLIGHT_MS + 1;
            var after := Run(s, price, mode,
                             [Begin(q, s.row.value.intent.value), Look(q), Act(q, now), OperatorFails(now)]);
            && after.row == Some(s.row.value.(status := Failed, updatedAt := now))
            && after.nextToken == s.nextToken
            && (forall p :: p in s.attempts ==> p in after.attempts && after.attempts[p] == s.attempts[p])
  {
    var now := s.row.value.updatedAt + STALE_IN_FLIGHT_MS + 1;
    var moves := [Begin(q, s.row.value.intent.value), Look(q), Act(q, now), OperatorFails(now)];
    var s1 := Step(s, price, mode, moves[0]);
    var s2 := Step(s1, price, mode, moves[1]);
    var s3 := Step(s2, price, mode, moves[2]);
    var s4 := Step(s3, price, mode, moves[3]);
    RunThrough([s, s1, s2, s3, s4], price, mode, moves);
  }

  lemma OneMove(s: System, price: Price, mode: Mode, m: Move)
    ensures Run(s, price, mode, [m]) == Step(s, price, mode, m)
  {
    assert [m][1..] == [];
  }

  /** A row that is not synced can always come to be failed, whoever is still about to call. */
  lemma CanBeFailed(s: System, price: Price, mode: Mode) returns (moves: seq<Move>)
    requires s.row.Some? && !s.row.value.status.Synced? && s.row.value.intent.Some?
    ensures var after := Run(s, price, mode, moves);
            && after.row.Some? && after.row.value.status.Failed? && after.row.value.intent == s.row.value.intent
            && after.nextToken == s.nextToken
            && (forall p :: p in s.attempts ==> p in after.attempts && after.attempts[p] == s.attempts[p])
  {
    if InFlight(s.row.value) {
      var q := Above(s.attempts.Keys);
      ParkAndFail(s, price, mode, q);
      var now := s.row.value.updatedAt + STALE_IN_FLIGHT_MS + 1;
      moves := [Begin(q, s.row.value.intent.value), Look(q), Act(q, now), OperatorFails(now)];
    } else if s.row.value.status.NeedsReconciliation? {
      OneMove(s, price, mode, OperatorFails(0));
      moves := [OperatorFails(0)];
    } else {
      moves := [];
    }
  }

  /** A call whose answer is lost. */
  function Lost(s: System, p: nat): System
    requires p in s.attempts && s.attempts[p].stage.Calling? && s.row.Some?
  {
    var a := s.attempts[p];
    s.(attempts := s.attempts[p := a.(stage := Answered(a.stage.token, Uncertain))],
       trace := s.trace + [Sent(a.stage.token, a.intent, Owns(s.row.value, a.stage.token))])
  }

  lemma CallIsLost(s: System, price: Price, mode: Mode, p: nat)
    requires p in s.attempts && s.attempts[p].stage.Calling? && s.row.Some?
    ensures Run(s, price, mode, [Call(p, Loses(None))]) == Lost(s, p)
  {
    OneMove(s, price, mode, Call(p, Loses(None)));
  }

  /** On a failed row: a new attempt claims and calls, then the late one calls. */
  lemma LateAfterOwner(s: System, price: Price, mode: Mode, p: nat, q: nat)
    requires p in s.attempts && s.attempts[p].stage.Calling? && s.attempts[p].stage.token < s.nextToken
    requires q !in s.attempts
    requires s.row.Some? && s.row.value.status.Failed? && s.row.value.intent.Some?
    ensures var a := s.attempts[p]; var intent := s.row.value.intent.value;
            Run(s, price, mode, ClaimMoves(q, intent, 0) + [Call(q, Loses(None))] + [Call(p, Loses(None))]).trace
            == s.trace + [Claimed(s.nextToken), Sent(s.nextToken, intent, true), Sent(a.stage.token, a.intent, false)]
  {
    var intent := s.row.value.intent.value;
    var s1 := Reclaimed(s, q, 0);
    var s2 := Lost(s1, q);
    RetryClaims(s, price, mode, q, 0);
    CallIsLost(s1, price, mode, q);
    CallIsLost(s2, price, mode, p);
    RunInParts(s, price, mode, ClaimMoves(q, intent, 0), [Call(q, Loses(None))]);
    RunInParts(s, price, mode, ClaimMoves(q, intent, 0) + [Call(q, Loses(None))], [Call(p, Loses(None))]);
    hide Run, Step;
  }

  /** On a failed row: the late attempt calls, then a new one claims and calls. */
  lemma LateBeforeOwner(s: System, price: Price, mode: Mode, p: nat, q: nat)
    requires p in s.attempts && s.attempts[p].stage.Calling? && q !in s.attempts
    requires s.row.Some? && s.row.value.status.Failed? && s.row.value.intent.Some?
    ensures var a := s.attempts[p]; var intent := s.row.value.intent.value;
            Run(s, price, mode, [Call(p, Loses(None))] + ClaimMoves(q, intent, 0) + [Call(q, Loses(None))]).trace
            == s.trace + [Sent(a.stage.token, a.intent, false), Claimed(s.nextToken), Sent(s.nextToken, intent, true)]
  {
    var intent := s.row.value.intent.value;
    var s1 := Lost(s, p);
    var s2 := Reclaimed(s1, q, 0);
    CallIsLost(s, price, mode, p);
    RetryClaims(s1, price, mode, q, 0);
    CallIsLost(s2, price, mode, q);
    RunInParts(s, price, mode, [Call(p, Loses(None))], ClaimMoves(q, intent, 0));
    RunInParts(s, price, mode, [Call(p, Loses(None))] + ClaimMoves(q, intent, 0), [Call(q, Loses(None))]);
    hide Run, Step;
  }

  /** The trace ends with two calls, and nothing has resolved the first of them. */
  ghost predicate EndsBlind(trace: seq<Mark>, first: nat, second: nat) {
    && 2 <= |trace| && trace[|trace| - 1].Sent? && trace[|trace| - 1].token == second
    && Unresolved(trace[..|trace| - 1]) == Some(first)
  }

  /**
   * The check before the call cannot be spared: wherever an attempt is about
   * to call and the row is not synced, the run can go on so that its call
   * follows a new owner's unresolved call, and so that a new owner's call
   * follows its own unresolved one.
   */
  lemma EveryCallCanBeOvertaken(price: Price, mode: Mode, earlier: seq<Move>, p: nat)
    returns (after: seq<Move>, before: seq<Move>, owner: nat)
    requires var s := Run(EMPTY, price, mode, earlier);
             p in s.attempts && s.attempts[p].stage.Calling? && s.row.Some? && !s.row.value.status.Synced?
    ensures var s := Run(EMPTY, price, mode, earlier); var late := s.attempts[p].stage.token;
            && late != owner
            && EndsBlind(Run(s, price, mode, after).trace, owner, late)
            && EndsBlind(Run(s, price, mode, before).trace, late, owner)
  {
    EmptyIsSafe(price, mode);
    RunKeepsSafe(EMPTY, price, mode, earlier);
    var s := Run(EMPTY, price, mode, earlier);
    SafeLocally(s, p, price, mode);
    hide Run, Safe, Step, Mismatches, Unresolved;
    var first := CanBeFailed(s, price, mode);
    var failed := Run(s, price, mode, first);
    var q := Above(failed.attempts.Keys);
    var intent := failed.row.value.intent.value;
    owner := failed.nextToken;
    LateAfterOwner(failed, price, mode, p, q);
    LateBeforeOwner(failed, price, mode, p, q);
    var x := ClaimMoves(q, intent, 0) + [Call(q, Loses(None))] + [Call(p, Loses(None))];
    var y := [Call(p, Loses(None))] + ClaimMoves(q, intent, 0) + [Call(q, Loses(None))];
    after, before := first + x, first + y;
    RunInParts(s, price, mode, first, x);
    RunInParts(s, price, mode, first, y);
    var a := failed.attempts[p];
    EndsInTwoCalls(failed.trace, Claimed(owner), Sent(owner, intent, true), Sent(a.stage.token, a.intent, false));
    EndsAroundClaim(failed.trace, Sent(a.stage.token, a.intent, false), owner, Sent(owner, intent, true));
  }

  lemma EndsInTwoCalls(trace: seq<Mark>, m: Mark, x: Mark, y: Mark)
    requires x.Sent? && y.Sent?
    ensures EndsBlind(trace + [m, x, y], x.token, y.token)
  {
    var longer := trace + [m, x, y];
    assert longer[..|longer| - 1] == (trace + [m]) + [x];
    UnresolvedAfter(trace + [m], x);
  }

  lemma EndsAroundClaim(trace: seq<Mark>, x: Mark, token: nat, y: Mark)
    requires x.Sent? && y.Sent?
    ensures EndsBlind(trace + [x, Claimed(token), y], x.token, y.token)
  {
    var longer := trace + [x, Claimed(token), y];
    assert longer[..|longer| - 1] == (trace + [x]) + [Claimed(token)];
    UnresolvedAfter(trace, x);
    UnresolvedAfter(trace + [x], Claimed(token));
  }

  // ---- the undisturbed attempt ----

  /** The moves of one attempt that nothing disturbs, from its claim on. */
  function FinishMoves(q: nat, product: Product, now: Time): seq<Move> {
    [Call(q, Accepts(product.id)), Act(q, now), Verify(q, Some(product)), Act(q, now)]
  }

  lemma ClaimedAttemptSyncs(s: System, price: Price, mode: Mode, q: nat, product: Product, now: Time)
    requires q in s.attempts && s.attempts[q].stage.Calling? && s.row.Some?
    requires Owns(s.row.value, s.attempts[q].stage.token)
    requires Mismatches(price, product, mode) == [] && (s.made.Some? ==> product.id == s.made.value.1)
    ensures var after := Run(s, price, mode, FinishMoves(q, product, now)); var a := s.attempts[q];
            && CheckoutProduct(after.row) == Some(product.id) && after.row.value.verified == Some(product)
            && after.made == Make(s.made, a.intent, product.id)
            && after.trace == s.trace + [Sent(a.stage.token, a.intent, true)]
  {
    hide Mismatches;
    var moves := FinishMoves(q, product, now);
    var s1 := Step(s, price, mode, moves[0]);
    var s2 := Step(s1, price, mode, moves[1]);
    var s3 := Step(s2, price, mode, moves[2]);
    var s4 := Step(s3, price, mode, moves[3]);
    RunThrough([s, s1, s2, s3, s4], price, mode, moves);
  }

  lemma FirstClaims(s: System, price: Price, mode: Mode, q: nat, intent: Intent, now: Time)
    requires q !in s.attempts && s.row.None?
    ensures Run(s, price, mode, ClaimMoves(q, intent, now))
            == s.(row := Some(NewIntent(intent, now).(status := Creating, token := Some(s.nextToken))),
                  attempts := s.attempts[q := Attempt(intent, Calling(s.nextToken))],
                  nextToken := s.nextToken + 1,
                  trace := s.trace + [Claimed(s.nextToken)])
  {
    var moves := ClaimMoves(q, intent, now);
    var s1 := Step(s, price, mode, moves[0]);
    var s2 := Step(s1, price, mode, moves[1]);
    var s3 := Step(s2, price, mode, moves[2]);
    var s4 := Step(s3, price, mode, moves[3]);
    assert s4.attempts == s.attempts[q := Attempt(intent, Calling(s.nextToken))];
    RunThrough([s, s1, s2, s3, s4], price, mode, moves);
  }

  /**
   * From any state without a row, or with a failed one: a new attempt with the
   * row's parameters that nothing disturbs, and whose product matches, ends
   * synced with the product the provider holds, after one call.
   */
  lemma UndisturbedAttemptSyncs(s: System, price: Price, mode: Mode, q: nat, intent: Intent, product: Product,
                                now: Time)
    requires q !in s.attempts && (s.row.Some? ==> s.row.value.status.Failed? && s.row.value.intent == Some(intent))
    requires Mismatches(price, product, mode) == [] && (s.made.Some? ==> product.id == s.made.value.1)
    ensures var after := Run(s, price, mode, ClaimMoves(q, intent, now) + FinishMoves(q, product, now));
            && CheckoutProduct(after.row) == Some(product.id) && after.row.value.verified == Some(product)
            && after.made == Make(s.made, intent, product.id)
            && after.trace == s.trace + [Claimed(s.nextToken), Sent(s.nextToken, intent, true)]
  {
    if s.row.None? {
      FirstClaims(s, price, mode, q, intent, now);
    } else {
      RetryClaims(s, price, mode, q, now);
    }
    RunInParts(s, price, mode, ClaimMoves(q, intent, now), FinishMoves(q, product, now));
    hide Run, Step, Mismatches;
    ClaimedAttemptSyncs(Run(s, price, mode, ClaimMoves(q, intent, now)), price, mode, q, product, now);
  }
}
