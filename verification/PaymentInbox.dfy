/** Payment events behind the inbox: each provider event counts once, whatever is delivered. */
module PaymentInbox {
  import opened Wrappers
  import opened PaymentEvents
  import opened PaymentFacts
  import opened PaymentGrowth
  import opened PaymentRuns
  import opened Inbox

  /** A verified, normalized notification; the inbox acknowledges the unknown ones without looking further. */
  datatype Notice = PaymentNotice(e: Event) | UnknownNotice

  /** The stored payload is processed with the occurrence time of the current delivery. */
  function Handle(books: Books, n: Notice, at: int): Handled<Books> {
    match n
    case UnknownNotice => Acknowledges(books, true)
    case PaymentNotice(e) =>
      match Apply(books, e.(occurredAt := at))
      case Threw(_) => Throws
      case Ignored(after) => Acknowledges(after, true)
      case Applied(after) => Acknowledges(after, false)
  }

  function Receiving(books: Books, ds: seq<Delivery<Notice>>): Books {
    ReceiveAll(System(books, map[]), Handle, ds).state
  }

  /** The payload carries the event id it is filed under, and its refund id is the provider's own. */
  predicate Genuine(id: string, n: Notice) {
    n.PaymentNotice? ==> n.e.id == id && (n.e.refund.Some? ==> ForeignId(n.e.refund.value))
  }

  ghost predicate AllGenuine(applied: seq<Inbox.Applied<Notice>>) {
    forall k :: 0 <= k < |applied| ==> Genuine(applied[k].id, applied[k].event)
  }

  lemma {:induction false} FirstPayloadIsGenuine(ds: seq<Delivery<Notice>>, id: string)
    requires FirstPayload(ds, id).Some? && forall k :: 0 <= k < |ds| ==> Genuine(ds[k].id, ds[k].payload)
    ensures Genuine(id, FirstPayload(ds, id).value)
  {
    if ds[0].id != id {
      FirstPayloadIsGenuine(ds[1..], id);
    }
  }

  lemma {:induction false} AppliedAreGenuine(books: Books, ds: seq<Delivery<Notice>>)
    requires forall k :: 0 <= k < |ds| ==> Genuine(ds[k].id, ds[k].payload)
    ensures AllGenuine(Tell(books, Handle, ds).applied)
  {
    if ds != [] {
      AppliedAreGenuine(books, ds[..|ds| - 1]);
      assert ds[|ds| - 1].id == ds[|ds| - 1].id;
      FirstPayloadIsGenuine(ds, ds[|ds| - 1].id);
      hide Handle, Genuine, WasApplied;
    }
  }

  /** An event about no payment at all, which changes nothing. */
  function Blank(id: string): Event {
    Event(id, Succeeding, None, None, None, None, None, None, 0)
  }

  function HappeningOf(a: Inbox.Applied<Notice>): Happening {
    Happening.Deliver(if a.event.PaymentNotice? then a.event.e.(occurredAt := a.at) else Blank(a.id))
  }

  function Happenings(applied: seq<Inbox.Applied<Notice>>): seq<Happening> {
    seq(|applied|, k requires 0 <= k < |applied| => HappeningOf(applied[k]))
  }

  lemma GenuineIsTidy(applied: seq<Inbox.Applied<Notice>>)
    requires AllGenuine(applied) && AppliedOnce(applied)
    ensures Tidy(Happenings(applied))
  {
    assert forall k :: 0 <= k < |applied| ==> Happenings(applied)[k].e.id == applied[k].id;
  }

  lemma {:induction false} FoldIsRun(books: Books, applied: seq<Inbox.Applied<Notice>>)
    ensures Fold(books, Handle, applied) == RunTo(books, Happenings(applied), |applied|)
  {
    if applied != [] {
      var n := |applied| - 1;
      FoldIsRun(books, applied[..n]);
      RunOfPrefix(books, applied, n, n);
      hide Apply;
      BlankChangesNothing(Fold(books, Handle, applied[..n]), applied[n].id);
    }
  }

  lemma BlankChangesNothing(books: Books, id: string)
    ensures After(books, Blank(id)) == books
  {
  }

  lemma {:induction false} RunOfPrefix(books: Books, applied: seq<Inbox.Applied<Notice>>, n: nat, m: nat)
    requires m <= n <= |applied|
    ensures RunTo(books, Happenings(applied[..n]), m) == RunTo(books, Happenings(applied), m)
  {
    hide Happen;
    if 0 < m {
      RunOfPrefix(books, applied, n, m - 1);
    }
  }

  /** The history behind the inbox: what it applied, in order, no event id twice. */
  lemma InboxIsHistory(books: Books, ds: seq<Delivery<Notice>>)
    ensures var applied := Tell(books, Handle, ds).applied;
            Receiving(books, ds) == RunTo(books, Happenings(applied), |applied|) && AppliedOnce(applied)
  {
    hide Tell, ReceiveAll, RunTo;
    ExactlyOnce(books, Handle, ds);
    FoldIsRun(books, Tell(books, Handle, ds).applied);
  }

  /**
   * Whatever is delivered to the inbox, however often, whether it throws or
   * dies on the way: the refund rows stay valid and the books only ever move
   * forward.
   */
  lemma InboxKeepsBooks(books: Books, ds: seq<Delivery<Notice>>)
    requires RowsValid(books)
    ensures RowsValid(Receiving(books, ds)) && Forward(books, Receiving(books, ds))
  {
    hide RowsValid, Forward, Tell, RunTo, Receiving;
    var applied := Tell(books, Handle, ds).applied;
    InboxIsHistory(books, ds);
    RunFromStart(books, Happenings(applied));
    HistoryMovesForward(books, Happenings(applied), 0, |applied|);
  }

  /**
   * As long as every payload carries the event id it is filed under and no
   * refund id looks derived, succeeded refunds do not change either, and a
   * payment is refunded exactly when its confirmed refunds have reached what
   * was captured.
   */
  lemma GenuineInboxKeepsAll(books: Books, ds: seq<Delivery<Notice>>)
    requires ValidBooks(books) && forall k :: 0 <= k < |books.refunds| ==> ForeignId(books.refunds[k].id)
    requires forall k :: 0 <= k < |ds| ==> Genuine(ds[k].id, ds[k].payload)
    ensures ValidBooks(Receiving(books, ds)) && Grows(books, Receiving(books, ds))
  {
    hide ValidBooks, Grows, Tell, Genuine, RunTo, Receiving;
    var applied := Tell(books, Handle, ds).applied;
    InboxIsHistory(books, ds);
    AppliedAreGenuine(books, ds);
    GenuineIsTidy(applied);
    RunFromStart(books, Happenings(applied));
    TidyHistoryKeepsAll(books, Happenings(applied), 0, |applied|);
  }

  lemma RunFromStart(books: Books, hs: seq<Happening>)
    ensures RunTo(books, hs, 0) == books
  {
  }

  // ---- what becomes of one delivery ----

  /**
   * What is looked at: the payload just delivered, unless the id was left
   * behind by a crash with a payload of its own.
   */
  function Looked(rows: map<string, Row<Notice>>, d: Delivery<Notice>): Notice {
    if d.id in rows && rows[d.id].status == Received then rows[d.id].payload else d.payload
  }

  predicate IsDone(rows: map<string, Row<Notice>>, id: string) {
    id in rows && (rows[id].status == Processed || rows[id].status == Skipped)
  }

  /**
   * A delivery that does not die, of an id that is not done: the event is
   * applied with the occurrence time just delivered. If it is rejected the id
   * stays open, otherwise it is done, as ignored or as processed.
   */
  lemma NoticeGives(s: System<Books, Notice>, d: Delivery<Notice>)
    requires !d.dies && !IsDone(s.rows, d.id)
    ensures var after := Receive(s, Handle, d); var n := Looked(s.rows, d);
            && d.id in after.rows
            && match n
               case UnknownNotice => after.state == s.state && after.rows[d.id].status == Skipped
               case PaymentNotice(e) =>
                 && after.state == After(s.state, e.(occurredAt := d.at))
                 && after.rows[d.id].status
                    == match Apply(s.state, e.(occurredAt := d.at))
                       case Threw(_) => RowStatus.Failing
                       case Ignored(_) => Skipped
                       case Applied(_) => Processed
  {
    hide Apply;
  }

  /** A rejected event is tried again with what is delivered next under its id. */
  lemma RejectedIsTriedAgain(s: System<Books, Notice>, d: Delivery<Notice>, next: Delivery<Notice>)
    requires !d.dies && !IsDone(s.rows, d.id) && Looked(s.rows, d).PaymentNotice?
    requires Apply(s.state, Looked(s.rows, d).e.(occurredAt := d.at)).Threw?
    requires next.id == d.id && !next.dies && next.payload.PaymentNotice?
    ensures Receive(Receive(s, Handle, d), Handle, next).state
            == After(s.state, next.payload.e.(occurredAt := next.at))
  {
    NoticeGives(s, d);
    hide Apply, Receive;
    NoticeGives(Receive(s, Handle, d), next);
  }
}
