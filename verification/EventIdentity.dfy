/**
 * Which developer event id a billing fact gets. The fact is written as a
 * length-prefixed string and hashed; events that do not say enough keep the id
 * of their inbox row. The hash is a parameter, assumed not to collide.
 */
module EventIdentity {
  import opened Wrappers
  import opened Digits
  import Money

  // ---- the canonical string ----

  /** One part: its length, a colon, the part. */
  function Framed(part: string): string {
    Numeral(|part|) + ":" + part
  }

  /** The parts, framed and joined with bars. */
  function Canonical(parts: seq<string>): string {
    if parts == [] then ""
    else if |parts| == 1 then Framed(parts[0])
    else Framed(parts[0]) + "|" + Canonical(parts[1..])
  }

  /** The digits a text begins with. */
  function LeadingDigits(s: string): string {
    if s != [] && IsDigit(s[0]) then [s[0]] + LeadingDigits(s[1..]) else ""
  }

  lemma {:induction false} LeadingDigitsOf(digits: string, rest: string)
    requires AllDigits(digits) && (rest != [] ==> !IsDigit(rest[0]))
    ensures LeadingDigits(digits + rest) == digits
  {
    if digits == [] {
      assert digits + rest == rest;
    } else {
      assert (digits + rest)[1..] == digits[1..] + rest;
      LeadingDigitsOf(digits[1..], rest);
      assert digits == [digits[0]] + digits[1..];
    }
  }

  /** A framed part can be read off the front of whatever follows it. */
  lemma FrameReads(x: string, y: string, xs: string, ys: string)
    requires Framed(x) + xs == Framed(y) + ys
    ensures x == y && xs == ys
  {
    hide Numeral, Value, LeadingDigits;
    var nx, ny := Numeral(|x|), Numeral(|y|);
    var tx, ty := ":" + (x + xs), ":" + (y + ys);
    assert Framed(x) + xs == nx + tx;
    assert Framed(y) + ys == ny + ty;
    LeadingDigitsOf(nx, tx);
    LeadingDigitsOf(ny, ty);
    NumeralDenotes(|x|);
    NumeralDenotes(|y|);
    AfterPrefix(nx, tx, ty);
    AfterPrefix(":", x + xs, y + ys);
    assert x == (x + xs)[..|x|] && y == (y + ys)[..|y|];
    AfterPrefix(x, xs, ys);
  }

  lemma AfterPrefix(p: string, s: string, t: string)
    requires p + s == p + t
    ensures s == t
  {
    assert s == (p + s)[|p|..];
    assert t == (p + t)[|p|..];
  }

  lemma FramedIsNotEmpty(part: string)
    ensures 2 <= |Framed(part)|
  {
  }

  /** What follows the first framed part. */
  function AfterFirst(parts: seq<string>): string
    requires parts != []
  {
    if |parts| == 1 then "" else "|" + Canonical(parts[1..])
  }

  lemma CanonicalSplits(parts: seq<string>)
    requires parts != []
    ensures Canonical(parts) == Framed(parts[0]) + AfterFirst(parts)
    ensures Canonical(parts) != ""
  {
    FramedIsNotEmpty(parts[0]);
  }

  lemma SplitList(parts: seq<string>)
    requires parts != []
    ensures parts == [parts[0]] + parts[1..]
  {
  }

  /** Different lists of strings have different canonical strings, whatever the strings contain. */
  lemma {:induction false} CanonicalIsInjective(xs: seq<string>, ys: seq<string>)
    requires Canonical(xs) == Canonical(ys)
    ensures xs == ys
    decreases |xs|
  {
    if xs == [] {
      if ys != [] {
        CanonicalSplits(ys);
      }
    } else if ys == [] {
      CanonicalSplits(xs);
    } else {
      hide Canonical, Framed;
      CanonicalSplits(xs);
      CanonicalSplits(ys);
      FrameReads(xs[0], ys[0], AfterFirst(xs), AfterFirst(ys));
      SplitList(xs);
      SplitList(ys);
      if |xs| != 1 && |ys| != 1 {
        AfterPrefix("|", Canonical(xs[1..]), Canonical(ys[1..]));
        CanonicalIsInjective(xs[1..], ys[1..]);
      }
    }
  }

  // ---- facts ----

  /** The fields of a normalized event that identify its fact; None where the event has no such string. */
  datatype Normalized = Normalized(
    kind: string,
    refund: Option<string>,
    payment: Option<string>,
    subscription: Option<string>,
    periodStart: Option<string>)

  datatype Family = RefundFamily | PaymentFamily | SubscriptionFamily

  /** What happened, as far as it can be told apart from everything else that happened. */
  datatype Fact = Unspecified | Fact(family: Family, parts: seq<string>)

  /** A field counts when something is left of it after trimming. */
  function StringPart(field: Option<string>): Option<string> {
    if field.Some? && Money.Trim(field.value) != "" then Some(Money.Trim(field.value)) else None
  }

  /** The event type decides the family; the ids that happen to be present do not. */
  function FactOf(e: Normalized, connection: string): Fact {
    var refund, payment := StringPart(e.refund), StringPart(e.payment);
    var subscription, period := StringPart(e.subscription), StringPart(e.periodStart);
    if e.kind == "payment.refunded" then
      if refund.None? then Unspecified else Fact(RefundFamily, [connection, refund.value])
    else if e.kind == "payment.succeeded" || e.kind == "payment.failed" then
      if payment.None? then Unspecified else Fact(PaymentFamily, [connection, payment.value, e.kind])
    else if "subscription." <= e.kind then
      if subscription.None? || (e.kind == "subscription.renewed" && period.None?) then Unspecified
      else Fact(SubscriptionFamily, [connection, subscription.value, e.kind]
                + if period.Some? then [period.value] else [])
    else Unspecified
  }

  function Prefix(family: Family): string {
    match family
    case RefundFamily => "dev_refund_"
    case PaymentFamily => "dev_payment_"
    case SubscriptionFamily => "dev_subscription_"
  }

  function DeveloperEventId(hash: string -> string, e: Normalized, connection: string, inbox: string): string {
    match FactOf(e, connection)
    case Unspecified => "dev_" + inbox
    case Fact(family, parts) => Prefix(family) + hash(Canonical(parts))
  }

  ghost predicate CollisionFree(hash: string -> string) {
    forall x, y :: hash(x) == hash(y) ==> x == y
  }

  /** The ids of inbox rows. */
  predicate IsInboxId(id: string) {
    "wh_" <= id
  }

  lemma FamiliesDiffer(x: Family, s: string, y: Family, t: string)
    requires Prefix(x) + s == Prefix(y) + t
    ensures x == y && s == t
  {
    assert (Prefix(x) + s)[4] == Prefix(x)[4];
    assert (Prefix(y) + t)[4] == Prefix(y)[4];
    AfterPrefix(Prefix(x), s, t);
  }

  lemma RawIsApart(inbox: string, family: Family, s: string)
    requires IsInboxId(inbox)
    ensures "dev_" + inbox != Prefix(family) + s
  {
    assert ("dev_" + inbox)[4] == inbox[0];
    assert (Prefix(family) + s)[4] == Prefix(family)[4];
  }

  /**
   * Two events have the same developer event id exactly when they are the
   * same fact of the same family, or both fall back on the same inbox row.
   */
  lemma SameIdIsSameFact(hash: string -> string, x: Normalized, y: Normalized,
                         connectionX: string, connectionY: string, inboxX: string, inboxY: string)
    requires CollisionFree(hash) && IsInboxId(inboxX) && IsInboxId(inboxY)
    ensures DeveloperEventId(hash, x, connectionX, inboxX) == DeveloperEventId(hash, y, connectionY, inboxY)
            <==> && FactOf(x, connectionX) == FactOf(y, connectionY)
                 && (FactOf(x, connectionX).Unspecified? ==> inboxX == inboxY)
  {
    hide FactOf, Canonical;
    if DeveloperEventId(hash, x, connectionX, inboxX) == DeveloperEventId(hash, y, connectionY, inboxY) {
      match (FactOf(x, connectionX), FactOf(y, connectionY))
      case (Unspecified, Unspecified) => AfterPrefix("dev_", inboxX, inboxY);
      case (Unspecified, Fact(family, parts)) => RawIsApart(inboxX, family, hash(Canonical(parts)));
      case (Fact(family, parts), Unspecified) => RawIsApart(inboxY, family, hash(Canonical(parts)));
      case (Fact(f, xs), Fact(g, ys)) =>
        FamiliesDiffer(f, hash(Canonical(xs)), g, hash(Canonical(ys)));
        CanonicalIsInjective(xs, ys);
    }
  }

  lemma PaymentsAreNotSubscriptions(kind: string)
    requires kind != "" && kind[0] == 'p'
    ensures !("subscription." <= kind)
  {
    assert "subscription."[0] == 's';
  }

  /** What makes two events the same fact, field by field. */
  lemma FactSaysWhat(x: Normalized, y: Normalized, connectionX: string, connectionY: string)
    requires !FactOf(x, connectionX).Unspecified?
    ensures FactOf(x, connectionX) == FactOf(y, connectionY)
            <==> && connectionX == connectionY && !FactOf(y, connectionY).Unspecified?
                 && x.kind == y.kind
                 && (x.kind == "payment.refunded" ==> StringPart(x.refund) == StringPart(y.refund))
                 && (x.kind == "payment.succeeded" || x.kind == "payment.failed" ==>
                     StringPart(x.payment) == StringPart(y.payment))
                 && ("subscription." <= x.kind ==>
                       StringPart(x.subscription) == StringPart(y.subscription)
                         && StringPart(x.periodStart) == StringPart(y.periodStart))
  {
    hide StringPart;
    var fx, fy := FactOf(x, connectionX), FactOf(y, connectionY);
    PaymentsAreNotSubscriptions("payment.refunded");
    PaymentsAreNotSubscriptions("payment.succeeded");
    PaymentsAreNotSubscriptions("payment.failed");
    if fx == fy && fx.Fact? {
      assert fx.parts[0] == fy.parts[0];
      assert |fx.parts| == |fy.parts|;
      if fx.family.SubscriptionFamily? {
        assert fx.parts[2] == x.kind && fy.parts[2] == y.kind;
        assert fx.parts[1] == fy.parts[1];
        assert |fx.parts| == 4 ==> fx.parts[3] == fy.parts[3];
      } else {
        assert fx.parts[1] == fy.parts[1];
      }
    }
  }
}
