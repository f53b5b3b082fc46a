/**
 * The webhook inbox: a durable row per provider event id in front of a
 * handler that either throws (its transaction rolls back) or acknowledges.
 * A delivery is one step here, its failure mark included; it may also die in
 * the middle, which leaves the row it inserted and nothing else.
 */
module Inbox {
  import opened Wrappers

  datatype Handled<+B> = Throws | Acknowledges(state: B, ignored: bool)

  datatype RowStatus = Received | Processed | Skipped | Failing

  datatype Row<+E> = Row(status: RowStatus, payload: E)

  /** `at` is the occurrence time of this very delivery, whichever payload is processed in the end. */
  datatype Delivery<+E> = Delivery(id: string, payload: E, at: int, dies: bool)

  datatype System<+B, +E> = System(state: B, rows: map<string, Row<E>>)

  /** What the caller is told. */
  datatype Reply = Duplicate(status: RowStatus) | Done(status: RowStatus) | Error | Nothing

  function RowFor<E>(rows: map<string, Row<E>>, d: Delivery<E>): Row<E> {
    if d.id in rows then rows[d.id] else Row(Received, d.payload)
  }

  /** A failed row is re-armed with the payload just delivered; a row left behind by a crash keeps its own. */
  function Chosen<E>(row: Row<E>, d: Delivery<E>): E {
    if row.status.Failing? then d.payload else row.payload
  }

  function Settled(status: RowStatus): bool {
    status.Processed? || status.Skipped?
  }

  function Receive<B, E>(s: System<B, E>, handle: (B, E, int) -> Handled<B>, d: Delivery<E>): System<B, E> {
    var row := RowFor(s.rows, d);
    if Settled(row.status) then s
    else if d.dies then s.(rows := s.rows[d.id := row])
    else
      match handle(s.state, Chosen(row, d), d.at)
      case Throws => s.(rows := s.rows[d.id := row.(status := Failing)])
      case Acknowledges(after, ignored) =>
        System(after, s.rows[d.id := Row(if ignored then Skipped else Processed, Chosen(row, d))])
  }

  function ReceiveAll<B, E>(s: System<B, E>, handle: (B, E, int) -> Handled<B>, ds: seq<Delivery<E>>): System<B, E> {
    if ds == [] then s else Receive(ReceiveAll(s, handle, ds[..|ds| - 1]), handle, ds[|ds| - 1])
  }

  // ---- exactly once, said without the inbox ----

  datatype Applied<+E> = Applied(id: string, event: E, at: int)

  /** The state, what was applied to get there, and the ids whose last attempt threw. */
  datatype Story<+B, +E> = Story(state: B, applied: seq<Applied<E>>, thrown: set<string>)

  predicate WasApplied<E>(applied: seq<Applied<E>>, id: string) {
    exists k :: 0 <= k < |applied| && applied[k].id == id
  }

  /** The payload an id first arrived with. */
  function FirstPayload<E>(ds: seq<Delivery<E>>, id: string): (p: Option<E>)
    ensures p.Some? <==> exists k :: 0 <= k < |ds| && ds[k].id == id
  {
    if ds == [] then None
    else if ds[0].id == id then Some(ds[0].payload)
    else
      assert forall k :: 0 < k < |ds| ==> ds[k] == ds[1..][k - 1];
      FirstPayload(ds[1..], id)
  }

  /** An attempt at `event` under an id: a throw is remembered, an acknowledgement applies the event. */
  function Attempt<B, E>(before: Story<B, E>, handle: (B, E, int) -> Handled<B>, id: string, event: E,
                         at: int): Story<B, E> {
    match handle(before.state, event, at)
    case Throws => before.(thrown := before.thrown + {id})
    case Acknowledges(after, _) => Story(after, before.applied + [Applied(id, event, at)], before.thrown)
  }

  /**
   * Each id is applied once, at its first attempt that does not throw: with its
   * first payload, or the current one after a throw.
   */
  function Tell<B, E>(from: B, handle: (B, E, int) -> Handled<B>, ds: seq<Delivery<E>>): Story<B, E> {
    if ds == [] then Story(from, [], {})
    else
      var before := Tell(from, handle, ds[..|ds| - 1]);
      var d := ds[|ds| - 1];
      if WasApplied(before.applied, d.id) || d.dies then before
      else
        assert ds[|ds| - 1].id == d.id;
        Attempt(before, handle, d.id, if d.id in before.thrown then d.payload else FirstPayload(ds, d.id).value, d.at)
  }

  /** The handler folded over events; an event it would throw on does nothing. */
  function Fold<B, E>(from: B, handle: (B, E, int) -> Handled<B>, applied: seq<Applied<E>>): B {
    if applied == [] then from
    else
      var before := Fold(from, handle, applied[..|applied| - 1]);
      match handle(before, applied[|applied| - 1].event, applied[|applied| - 1].at)
      case Throws => before
      case Acknowledges(after, _) => after
  }

  // ---- the inbox tells that story ----

  ghost predicate Tells<B, E(!new)>(s: System<B, E>, story: Story<B, E>, ds: seq<Delivery<E>>) {
    && s.state == story.state
    && (forall id :: id in s.rows <==> FirstPayload(ds, id).Some?)
    && (forall id :: id in s.rows ==> TellsRow(s.rows[id], story, ds, id))
  }

  ghost predicate TellsRow<B, E(!new)>(row: Row<E>, story: Story<B, E>, ds: seq<Delivery<E>>, id: string)
    requires FirstPayload(ds, id).Some?
  {
    && (Settled(row.status) <==> WasApplied(story.applied, id))
    && (row.status.Failing? <==> !WasApplied(story.applied, id) && id in story.thrown)
    && (row.status.Received? ==> row.payload == FirstPayload(ds, id).value)
  }

  lemma FirstPayloadAfter<E>(ds: seq<Delivery<E>>, d: Delivery<E>, id: string)
    ensures FirstPayload(ds + [d], id)
            == if FirstPayload(ds, id).Some? then FirstPayload(ds, id) else if d.id == id then Some(d.payload) else None
  {
    if ds != [] {
      assert (ds + [d])[1..] == ds[1..] + [d];
    }
  }

  lemma AppliedAfter<E>(applied: seq<Applied<E>>, a: Applied<E>, id: string)
    ensures WasApplied(applied + [a], id) <==> WasApplied(applied, id) || a.id == id
  {
    assert (applied + [a])[|applied|] == a;
    if WasApplied(applied, id) {
      var k :| 0 <= k < |applied| && applied[k].id == id;
      assert (applied + [a])[k] == applied[k];
    }
  }

  lemma {:induction false} InboxTells<B, E(!new)>(from: B, handle: (B, E, int) -> Handled<B>, ds: seq<Delivery<E>>)
    ensures Tells(ReceiveAll(System(from, map[]), handle, ds), Tell(from, handle, ds), ds)
  {
    if ds != [] {
      var before, d := ds[..|ds| - 1], ds[|ds| - 1];
      assert ds == before + [d];
      InboxTells(from, handle, before);
      ReceiveTells(from, handle, before, d);
    }
  }

  lemma AttemptApplies<B, E(!new)>(before: Story<B, E>, handle: (B, E, int) -> Handled<B>, id: string, event: E,
                            at: int, other: string)
    ensures var after := Attempt(before, handle, id, event, at); var threw := handle(before.state, event, at).Throws?;
            && (WasApplied(after.applied, other) <==> WasApplied(before.applied, other) || (!threw && other == id))
            && (other in after.thrown <==> other in before.thrown || (threw && other == id))
  {
    AppliedAfter(before.applied, Applied(id, event, at), other);
  }

  /** The row a delivery works on, and what the story knows about its id. */
  lemma RowTells<B, E(!new)>(from: B, handle: (B, E, int) -> Handled<B>, before: seq<Delivery<E>>, d: Delivery<E>,
                             s: System<B, E>, story: Story<B, E>)
    requires story == Tell(from, handle, before) && Tells(s, story, before)
    ensures var row := RowFor(s.rows, d); var first := FirstPayload(before + [d], d.id);
            && first.Some?
            && (Settled(row.status) <==> WasApplied(story.applied, d.id))
            && (row.status.Failing? <==> !WasApplied(story.applied, d.id) && d.id in story.thrown)
            && (row.status.Received? ==> row.payload == first.value)
            && (!Settled(row.status) ==> Chosen(row, d) == if d.id in story.thrown then d.payload else first.value)
            && (d.id in s.rows <==> FirstPayload(before, d.id).Some?)
  {
    FirstPayloadAfter(before, d, d.id);
    NeverSeen(from, handle, before, d.id);
    hide WasApplied, FirstPayload, Tell;
    if d.id in s.rows {
      assert TellsRow(s.rows[d.id], story, before, d.id);
    }
  }

  /** One delivery, told once for the inbox and once for the story. */
  lemma ReceiveMatches<B, E(!new)>(handle: (B, E, int) -> Handled<B>, before: seq<Delivery<E>>, d: Delivery<E>,
                                   s: System<B, E>, story: Story<B, E>, id: string)
    requires Tells(s, story, before)
    requires var row := RowFor(s.rows, d); var first := FirstPayload(before + [d], d.id);
             && first.Some?
             && (Settled(row.status) <==> WasApplied(story.applied, d.id))
             && (row.status.Failing? <==> !WasApplied(story.applied, d.id) && d.id in story.thrown)
             && (row.status.Received? ==> row.payload == first.value)
             && (d.id in s.rows <==> FirstPayload(before, d.id).Some?)
    ensures var row := RowFor(s.rows, d); var after := Receive(s, handle, d);
            var told := if Settled(row.status) || d.dies then story
              else Attempt(story, handle, d.id, Chosen(row, d), d.at);
            && after.state == told.state
            && (id in after.rows <==> FirstPayload(before + [d], id).Some?)
            && (id in after.rows ==> TellsRow(after.rows[id], told, before + [d], id))
  {
    var row := RowFor(s.rows, d);
    FirstPayloadAfter(before, d, id);
    AttemptApplies(story, handle, d.id, Chosen(row, d), d.at, id);
    AttemptState(story, handle, d.id, Chosen(row, d), d.at);
    hide WasApplied, FirstPayload, Attempt;
    if id in s.rows {
      assert TellsRow(s.rows[id], story, before, id);
    }
  }

  lemma ReceiveTells<B, E(!new)>(from: B, handle: (B, E, int) -> Handled<B>, before: seq<Delivery<E>>, d: Delivery<E>)
    requires Tells(ReceiveAll(System(from, map[]), handle, before), Tell(from, handle, before), before)
    ensures Tells(ReceiveAll(System(from, map[]), handle, before + [d]), Tell(from, handle, before + [d]), before + [d])
  {
    var ds := before + [d];
    assert ds[..|ds| - 1] == before;
    var s, story := ReceiveAll(System(from, map[]), handle, before), Tell(from, handle, before);
    RowTells(from, handle, before, d, s, story);
    hide WasApplied, FirstPayload, Attempt, Receive, TellsRow;
    forall id
      ensures id in Receive(s, handle, d).rows <==> FirstPayload(ds, id).Some?
      ensures id in Receive(s, handle, d).rows ==>
                TellsRow(Receive(s, handle, d).rows[id], Tell(from, handle, ds), ds, id)
    {
      ReceiveMatches(handle, before, d, s, story, id);
    }
    ReceiveMatches(handle, before, d, s, story, d.id);
  }

  lemma AttemptState<B, E>(before: Story<B, E>, handle: (B, E, int) -> Handled<B>, id: string, event: E, at: int)
    ensures match handle(before.state, event, at)
            case Throws => Attempt(before, handle, id, event, at).state == before.state
            case Acknowledges(after, _) => Attempt(before, handle, id, event, at).state == after
  {
  }

  /** Nothing was tried under an id that never arrived. */
  lemma {:induction false} NeverSeen<B, E(!new)>(from: B, handle: (B, E, int) -> Handled<B>, ds: seq<Delivery<E>>,
                                          id: string)
    ensures FirstPayload(ds, id).None? ==>
              id !in Tell(from, handle, ds).thrown && !WasApplied(Tell(from, handle, ds).applied, id)
  {
    if ds != [] {
      var before, d := ds[..|ds| - 1], ds[|ds| - 1];
      assert ds == before + [d];
      NeverSeen(from, handle, before, id);
      FirstPayloadAfter(before, d, id);
      var story := Tell(from, handle, before);
      AttemptApplies(story, handle, d.id, if d.id in story.thrown then d.payload
                     else FirstPayload(ds, d.id).value, d.at, id);
    }
  }

  // ---- what the story says ----

  ghost predicate AppliedOnce<E(!new)>(applied: seq<Applied<E>>) {
    forall j, k :: 0 <= j < k < |applied| ==> applied[j].id != applied[k].id
  }

  /** The state is the applied events folded in order, no id twice. */
  lemma {:induction false} ExactlyOnce<B, E(!new)>(from: B, handle: (B, E, int) -> Handled<B>, ds: seq<Delivery<E>>)
    ensures var s := ReceiveAll(System(from, map[]), handle, ds); var story := Tell(from, handle, ds);
            && s.state == Fold(from, handle, story.applied)
            && AppliedOnce(story.applied)
            && forall id :: id in s.rows ==> (Settled(s.rows[id].status) <==> WasApplied(story.applied, id))
  {
    InboxTells(from, handle, ds);
    StoryFolds(from, handle, ds);
  }

  lemma {:induction false} StoryFolds<B, E(!new)>(from: B, handle: (B, E, int) -> Handled<B>, ds: seq<Delivery<E>>)
    ensures var story := Tell(from, handle, ds);
            story.state == Fold(from, handle, story.applied) && AppliedOnce(story.applied)
  {
    if ds != [] {
      var before, d := ds[..|ds| - 1], ds[|ds| - 1];
      StoryFolds(from, handle, before);
      var story := Tell(from, handle, before);
      if !WasApplied(story.applied, d.id) && !d.dies {
        var event := if d.id in story.thrown then d.payload else FirstPayload(ds, d.id).value;
        AttemptFolds(from, story, handle, d.id, event, d.at);
      }
    }
  }

  lemma AttemptFolds<B, E(!new)>(from: B, story: Story<B, E>, handle: (B, E, int) -> Handled<B>, id: string, event: E,
                          at: int)
    requires story.state == Fold(from, handle, story.applied) && AppliedOnce(story.applied)
    requires !WasApplied(story.applied, id)
    ensures var after := Attempt(story, handle, id, event, at);
            after.state == Fold(from, handle, after.applied) && AppliedOnce(after.applied)
  {
    var longer := story.applied + [Applied(id, event, at)];
    assert longer[..|longer| - 1] == story.applied;
  }

  /** A delivery that throws, or dies, changes nothing but the row of its own id. */
  lemma FailureTouchesOnlyItsRow<B, E>(s: System<B, E>, handle: (B, E, int) -> Handled<B>, d: Delivery<E>, id: string)
    requires d.dies || handle(s.state, Chosen(RowFor(s.rows, d), d), d.at).Throws?
    ensures var after := Receive(s, handle, d);
            && after.state == s.state
            && (id != d.id ==> (id in after.rows <==> id in s.rows) && (id in s.rows ==> after.rows[id] == s.rows[id]))
            && d.id in after.rows && after.rows[d.id].payload == RowFor(s.rows, d).payload
  {
  }

  /** What was settled stays settled: redelivery changes nothing at all. */
  lemma {:induction false} SettledIsFinal<B, E>(s: System<B, E>, handle: (B, E, int) -> Handled<B>,
                                                ds: seq<Delivery<E>>, id: string)
    requires id in s.rows && Settled(s.rows[id].status)
    ensures var after := ReceiveAll(s, handle, ds); id in after.rows && after.rows[id] == s.rows[id]
  {
    if ds != [] {
      SettledIsFinal(s, handle, ds[..|ds| - 1], id);
    }
  }

  // ---- the inbox as a table ----

  class Store<B(!new), E(!new)> {
    var state: B
    var rows: map<string, Row<E>>
    const handle: (B, E, int) -> Handled<B>

    constructor (from: B, handle: (B, E, int) -> Handled<B>)
      ensures Snapshot() == System(from, map[]) && this.handle == handle
    {
      state, rows := from, map[];
      this.handle := handle;
    }

    function Snapshot(): System<B, E>
      reads this
    {
      System(state, rows)
    }

    /** processProviderWebhook, from the insertion of the inbox row to the failure mark. */
    method Process(d: Delivery<E>) returns (reply: Reply)
      modifies this
      ensures Snapshot() == Receive(old(Snapshot()), handle, d)
      ensures reply.Duplicate? <==> d.id in old(rows) && Settled(old(rows)[d.id].status)
      ensures reply.Done?
              <==> && !reply.Duplicate? && !d.dies
                   && !handle(old(state), Chosen(RowFor(old(rows), d), d), d.at).Throws?
    {
      if d.id !in rows {
        rows := rows[d.id := Row(Received, d.payload)];
      }
      var locked := rows[d.id];
      if Settled(locked.status) {
        return Duplicate(locked.status);
      }
      if d.dies {
        return Nothing;
      }
      var stored := locked.payload;
      if locked.status.Failing? {
        rows := rows[d.id := locked.(payload := d.payload)];
        stored := d.payload;
      }
      var outcome := handle(state, stored, d.at);
      match outcome
      case Acknowledges(after, ignored) =>
        state := after;
        rows := rows[d.id := rows[d.id].(status := if ignored then Skipped else Processed)];
        return Done(rows[d.id].status);
      case Throws =>
        rows := rows[d.id := locked];
        rows := rows[d.id := rows[d.id].(status := Failing)];
        return Error;
    }
  }
}
