/**
 * Provisioning attempts, operators and the provider, interleaved step by step
 * over one mapping row. Between two steps an attempt only has what it
 * observed; it may be arbitrarily late, or never come back.
 */
module CatalogProvisioning {
  import opened Wrappers
  import opened CatalogMapping

  datatype Answer = Created(id: string) | Rejected | Uncertain

  datatype Verdict = Matches(product: Product) | Unusable   // Unusable: the read failed, or mismatches

  datatype Stage =
    | Starting
    | Saw(row: Option<Row>)                       // after reading the row
    | Owning                                      // thinks the pending row is its own
    | Calling(token: nat)                         // claimed; about to call the provider
    | Answered(token: nat, answer: Answer)
    | Verifying(token: nat, id: string)           // the created id is persisted
    | Checked(token: nat, id: string, verdict: Verdict)
    | Linking(product: Product)                   // an operator linking a product that matches the price
    | LinkSaw(product: Product, observed: Row)
    | Over

  datatype Attempt = Attempt(intent: Intent, stage: Stage)

  /** What happened, as far as create calls are concerned. */
  datatype Mark =
    | Claimed(token: nat)
    | Sent(token: nat, intent: Intent, current: bool)   // current: the sender still owned the row
    | Throttled(token: nat)                             // rejected by rate limit; the same attempt sends again
    | Refused(token: nat)                               // rejected for good
    | MarkedFailed                                      // by an operator

  /** `made` is what the provider holds under the row's idempotency key. */
  datatype System = System(
    row: Option<Row>,
    attempts: map<nat, Attempt>,
    nextToken: nat,
    made: Option<(Intent, string)>,
    trace: seq<Mark>)

  const EMPTY := System(None, map[], 0, None, [])

  datatype Reply =
    | Accepts(id: string)         // the id a new product would get; a known key returns the product it made before
    | Throttles
    | Refuses
    | Loses(landed: Option<string>)  // no answer; the product may have been created
    | Unsent                      // the call failed before anything was sent

  datatype Move =
    | Begin(p: nat, intent: Intent)
    | BeginLink(p: nat, product: Product)
    | Look(p: nat)
    | Act(p: nat, now: Time)
    | Call(p: nat, reply: Reply)
    | Verify(p: nat, read: Option<Product>)
    | OperatorFails(now: Time)

  function Put(s: System, p: nat, stage: Stage): System
    requires p in s.attempts
  {
    s.(attempts := s.attempts[p := s.attempts[p].(stage := stage)])
  }

  /** A conditional update: the next stage if it matched, another one if it did not. */
  function Update(s: System, p: nat, row: Option<Row>, matched: Stage, missed: Stage): System
    requires p in s.attempts
  {
    if row.Some? then Put(s.(row := row), p, matched) else Put(s, p, missed)
  }

  /** beginProvision, from the row it read to the update it decides on. */
  function Decide(s: System, p: nat, seen: Option<Row>, now: Time): System
    requires p in s.attempts
  {
    var intent := s.attempts[p].intent;
    match seen
    case None =>
      if s.row.None? then Put(s.(row := Some(NewIntent(intent, now))), p, Owning) else Put(s, p, Over)
    case Some(r) =>
      if r.status.Synced? then Put(s, p, Over)
      else if r.intent.Some? && r.intent.value != intent then Put(s, p, Over)
      else if InFlight(r) then
        if Stale(r, now) && s.row.Some? then Update(s, p, Park(s.row.value, r, now), Over, Starting)
        else Put(s, p, Over)
      else if r.status.NeedsReconciliation? || s.row.None? then Put(s, p, Over)
      else Update(s, p, Reset(s.row.value, now), Owning, Starting)
  }

  /** finishProvision's first update, by the kind of answer. */
  function Finish(s: System, p: nat, token: nat, answer: Answer, now: Time): System
    requires p in s.attempts && s.row.Some?
  {
    match answer
    case Created(id) => Update(s, p, PersistId(s.row.value, token, id, now), Verifying(token, id), Over)
    case Rejected => Update(s, p, FinishRejected(s.row.value, token, now), Over, Over)
    case Uncertain => Update(s, p, FinishUncertain(s.row.value, token, now), Over, Over)
  }

  function Conclude(s: System, p: nat, token: nat, id: string, verdict: Verdict, now: Time): System
    requires p in s.attempts && s.row.Some?
  {
    match verdict
    case Matches(product) => Update(s, p, FinishSynced(s.row.value, token, product, now), Over, Over)
    case Unusable => Update(s, p, FinishUnverified(s.row.value, token, id, now), Over, Over)
  }

  function DoAct(s: System, p: nat, now: Time): System
    requires p in s.attempts
  {
    match s.attempts[p].stage
    case Saw(seen) => Decide(s, p, seen, now)
    case Owning =>
      if s.row.None? then Put(s, p, Over)
      else
        var claimed := Claim(s.row.value, s.nextToken, now);
        if claimed.None? then Put(s, p, Over)
        else Put(s.(row := claimed, nextToken := s.nextToken + 1, trace := s.trace + [Claimed(s.nextToken)]), p,
                 Calling(s.nextToken))
    case Answered(token, answer) => if s.row.None? then Put(s, p, Over) else Finish(s, p, token, answer, now)
    case Checked(token, id, verdict) => if s.row.None? then Put(s, p, Over) else Conclude(s, p, token, id, verdict, now)
    case Linking(product) =>
      if s.row.None? then Put(s.(row := Some(NewLink(product, now))), p, Over)
      else Put(s, p, LinkSaw(product, s.row.value))
    case LinkSaw(product, observed) =>
      if s.row.None? then Put(s, p, Over)
      else if observed.status.Synced? && observed.product == Some(product.id)
      then Put(s.(row := Some(Refresh(s.row.value, product, now))), p, Over)
      else if observed.status.NeedsReconciliation? || observed.status.Failed?
      then Update(s, p, Adopt(s.row.value, product, now), Over, Over)
      else Put(s, p, Over)
    case _ => s
  }

  /** The provider keeps what it made under the key; a repeated key returns it. */
  function Make(made: Option<(Intent, string)>, intent: Intent, id: string): Option<(Intent, string)> {
    if made.Some? then made else Some((intent, id))
  }

  function DoCall(s: System, p: nat, reply: Reply): System
    requires p in s.attempts && s.attempts[p].stage.Calling?
  {
    var token, intent := s.attempts[p].stage.token, s.attempts[p].intent;
    var current := s.row.Some? && Owns(s.row.value, token);
    var sent := s.(trace := s.trace + [Sent(token, intent, current)]);
    match reply
    case Accepts(id) =>
      var made := Make(s.made, intent, id);
      Put(sent.(made := made), p, Answered(token, Created(made.value.1)))
    case Throttles => sent.(trace := sent.trace + [Mark.Throttled(token)])
    case Refuses => Put(sent.(trace := sent.trace + [Mark.Refused(token)]), p, Answered(token, Rejected))
    case Loses(landed) =>
      Put(sent.(made := if landed.Some? then Make(s.made, intent, landed.value) else s.made), p,
          Answered(token, Uncertain))
    case Unsent => Put(s.(trace := s.trace + [Mark.Refused(token)]), p, Answered(token, Rejected))
  }

  function VerdictOn(price: Price, mode: Mode, id: string, read: Option<Product>): Verdict {
    if read.Some? && read.value.id == id && Mismatches(price, read.value, mode) == [] then Matches(read.value)
    else Unusable
  }

  function Step(s: System, price: Price, mode: Mode, m: Move): System {
    match m
    case Begin(p, intent) =>
      if p in s.attempts then s else s.(attempts := s.attempts[p := Attempt(intent, Starting)])
    case BeginLink(p, product) =>
      if p in s.attempts || Mismatches(price, product, mode) != [] then s
      else s.(attempts := s.attempts[p := Attempt(Intent("", None, 0, "", OneTime, None, None, None),
                                                  Linking(product))])
    case Look(p) => if p in s.attempts && s.attempts[p].stage.Starting? then Put(s, p, Saw(s.row)) else s
    case Act(p, now) => if p in s.attempts then DoAct(s, p, now) else s
    case Call(p, reply) => if p in s.attempts && s.attempts[p].stage.Calling? then DoCall(s, p, reply) else s
    case Verify(p, read) =>
      if p in s.attempts && s.attempts[p].stage.Verifying? then
        var stage := s.attempts[p].stage;
        Put(s, p, Checked(stage.token, stage.id, VerdictOn(price, mode, stage.id, read)))
      else s
    case OperatorFails(now) =>
      if s.row.Some? && MarkFailed(s.row.value, now).Some?
      then s.(row := MarkFailed(s.row.value, now), trace := s.trace + [MarkedFailed]) else s
  }

  function Run(s: System, price: Price, mode: Mode, moves: seq<Move>): System
    decreases |moves|
  {
    if moves == [] then s else Run(Step(s, price, mode, moves[0]), price, mode, moves[1..])
  }
}
