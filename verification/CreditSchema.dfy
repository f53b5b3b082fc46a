/**
 * The four tables of the credit ledger: accounts, grant buckets, reservations
 * and the append-only transaction log.
 *
 * A table is a sequence of rows. A row's identity is its position, except for
 * buckets: that table is kept in the canonical order in which every statement
 * reads and locks it, so a bucket carries its own id.
 */
module CreditSchema {
  import opened Wrappers

  const MAX_SAFE_INTEGER: int := 9007199254740991

  type Time = int

  datatype Environment = Test | Live

  datatype Scope = Scope(application: nat, environment: Environment)

  datatype Account = Account(scope: Scope, customer: string, creditType: string, available: int, reserved: int)

  datatype BucketSource = FromPurchase | FromSubscription | FromPromotion | FromAdmin | FromRefund

  datatype BucketStatus = Active | Consumed | Expired | Reversed

  datatype Bucket = Bucket(
    id: nat,
    scope: Scope,
    account: nat,
    source: BucketSource,
    sourceId: string,
    transaction: nat,
    granted: int,
    remaining: int,
    expiresAt: Option<Time>,
    createdAt: Time,
    status: BucketStatus)

  datatype ReservationStatus = Open | Captured | Released | Lapsed

  datatype Reservation = Reservation(
    scope: Scope,
    customer: string,
    account: nat,
    amount: int,
    captured: int,
    status: ReservationStatus,
    referenceType: string,
    referenceId: string,
    key: string)

  /** Idempotency keys: the keys callers choose, and the three key formats the ledger derives itself. */
  datatype Key =
    | ClientKey(text: string)
    | GrantKey(sourceType: string, sourceId: string, period: string, creditType: string)
    | ExpiryKey(bucket: nat, before: int)
    | RevocationKey(subscription: string, bucket: nat, before: int)

  type CallerKey = k: Key | k.ClientKey? || k.GrantKey? witness ClientKey("")

  /** The same row later on: it only gives up what it holds, and once it is retired it stays so. */
  predicate Kept(before: Bucket, after: Bucket) {
    && after.(remaining := before.remaining, status := before.status) == before
    && after.remaining <= before.remaining
    && (after.status.Active? ==> before.status.Active?)
  }

  datatype EntryType =
    | GrantPurchase
    | GrantSubscription
    | GrantPromotion
    | RefundUsage
    | AdjustmentAdmin
    | DebitUsage
    | ReserveUsage
    | CaptureUsage
    | ReleaseUsage
    | GrantExpired
    | GrantRevoked

  type GrantType = t: EntryType | IsGrant(t) witness GrantPurchase

  predicate IsGrant(t: EntryType) {
    t.GrantPurchase? || t.GrantSubscription? || t.GrantPromotion? || t.RefundUsage? || t.AdjustmentAdmin?
  }

  function BucketSourceFor(t: GrantType): BucketSource {
    match t
    case GrantPurchase => FromPurchase
    case GrantSubscription => FromSubscription
    case GrantPromotion => FromPromotion
    case RefundUsage => FromRefund
    case AdjustmentAdmin => FromAdmin
  }

  /** What an entry's `sourceId` column points at. */
  datatype Source = TextSource(text: string) | ReservationSource(reservation: nat) | BucketSourceRow(bucket: nat)

  datatype Entry = Entry(
    scope: Scope,
    customer: string,
    account: nat,
    kind: EntryType,
    amount: int,
    availableAfter: int,
    reservedAfter: int,
    sourceType: string,
    source: Source,
    key: Key,
    expiry: Option<Time>)

  datatype Ledger = Ledger(
    accounts: seq<Account>,
    buckets: seq<Bucket>,
    reservations: seq<Reservation>,
    log: seq<Entry>)

  const EMPTY_LEDGER := Ledger([], [], [], [])

  // ---- canonical bucket order: expiry (never-expiring last), creation time, id ----

  predicate ExpiresBefore(x: Option<Time>, y: Option<Time>) {
    x.Some? && (y.None? || x.value < y.value)
  }

  predicate Before(x: Bucket, y: Bucket) {
    || ExpiresBefore(x.expiresAt, y.expiresAt)
    || (x.expiresAt == y.expiresAt && (x.createdAt < y.createdAt || (x.createdAt == y.createdAt && x.id < y.id)))
  }

  ghost predicate Canonical(buckets: seq<Bucket>) {
    forall i, j :: 0 <= i < j < |buckets| ==> Before(buckets[i], buckets[j])
  }

  ghost predicate DistinctIds(buckets: seq<Bucket>) {
    && (forall i :: 0 <= i < |buckets| ==> buckets[i].id < |buckets|)
    && (forall i, j :: 0 <= i < j < |buckets| ==> buckets[i].id != buckets[j].id)
  }

  /** Where a new row falls in the canonical order. */
  function Position(buckets: seq<Bucket>, b: Bucket, from: nat := 0): (k: nat)
    requires from <= |buckets|
    ensures from <= k <= |buckets|
    ensures forall i :: from <= i < k ==> !Before(b, buckets[i])
    ensures k < |buckets| ==> Before(b, buckets[k])
    decreases |buckets| - from
  {
    if from == |buckets| || Before(b, buckets[from]) then from else Position(buckets, b, from + 1)
  }

  function InsertRow(buckets: seq<Bucket>, b: Bucket): seq<Bucket> {
    var k := Position(buckets, b);
    buckets[..k] + [b] + buckets[k..]
  }

  lemma BeforeIsTotal(x: Bucket, y: Bucket)
    requires x.id != y.id
    ensures Before(x, y) <==> !Before(y, x)
  {
  }

  lemma BeforeIsTransitive(x: Bucket, y: Bucket, z: Bucket)
    requires Before(x, y) && Before(y, z)
    ensures Before(x, z)
  {
  }

  /** A new row with a fresh id comes after every row before its position and before every row after it. */
  lemma PositionSplits(buckets: seq<Bucket>, b: Bucket, i: nat)
    requires Canonical(buckets) && DistinctIds(buckets) && b.id == |buckets| && i < |buckets|
    ensures i < Position(buckets, b) ==> Before(buckets[i], b)
    ensures Position(buckets, b) <= i ==> Before(b, buckets[i])
  {
    var k := Position(buckets, b);
    if i < k {
      BeforeIsTotal(b, buckets[i]);
    } else if k < i {
      BeforeIsTransitive(b, buckets[k], buckets[i]);
    }
  }

  /** Inserting a row with a fresh id keeps the table in its total order. */
  lemma InsertKeepsOrder(buckets: seq<Bucket>, b: Bucket)
    requires Canonical(buckets) && DistinctIds(buckets) && b.id == |buckets|
    ensures Canonical(InsertRow(buckets, b)) && DistinctIds(InsertRow(buckets, b))
  {
    var k := Position(buckets, b);
    var after := InsertRow(buckets, b);
    forall i, j | 0 <= i < j < |after|
      ensures Before(after[i], after[j])
      ensures after[i].id != after[j].id
    {
      if i == k {
        PositionSplits(buckets, b, j - 1);
      } else if j == k {
        PositionSplits(buckets, b, i);
      }
    }
  }

  // ---- lookups ----

  /** The row the unique index (scope, idempotency key) can hold. */
  function FindEntry(log: seq<Entry>, scope: Scope, key: Key): (found: Option<nat>)
    ensures found.Some? ==> found.value < |log| && log[found.value].scope == scope && log[found.value].key == key
    ensures found.None? ==> forall i :: 0 <= i < |log| ==> log[i].scope != scope || log[i].key != key
  {
    if log == [] then None
    else
      var last := |log| - 1;
      if log[last].scope == scope && log[last].key == key then Some(last) else FindEntry(log[..last], scope, key)
  }

  function FindAccount(accounts: seq<Account>, scope: Scope, customer: string, creditType: string): (found: Option<nat>)
    ensures found.Some? ==>
              && found.value < |accounts|
              && accounts[found.value].scope == scope
              && accounts[found.value].customer == customer
              && accounts[found.value].creditType == creditType
    ensures found.None? ==>
              forall i :: 0 <= i < |accounts| ==>
                accounts[i].scope != scope || accounts[i].customer != customer || accounts[i].creditType != creditType
  {
    if accounts == [] then None
    else
      var last := |accounts| - 1;
      if accounts[last].scope == scope && accounts[last].customer == customer && accounts[last].creditType == creditType
      then Some(last)
      else FindAccount(accounts[..last], scope, customer, creditType)
  }

  function FindReservation(rows: seq<Reservation>, scope: Scope, key: string): (found: Option<nat>)
    ensures found.Some? ==> found.value < |rows| && rows[found.value].scope == scope && rows[found.value].key == key
    ensures found.None? ==> forall i :: 0 <= i < |rows| ==> rows[i].scope != scope || rows[i].key != key
  {
    if rows == [] then None
    else
      var last := |rows| - 1;
      if rows[last].scope == scope && rows[last].key == key then Some(last)
      else FindReservation(rows[..last], scope, key)
  }
}
