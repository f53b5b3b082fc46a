/**
 * The mapping row of a price, and the conditional updates that move it. Each
 * update names the states (and the attempt token) it applies to; it returns
 * None where the WHERE clause matches no row.
 */
module CatalogMapping {
  import opened Wrappers

  type Time = int

  const STALE_IN_FLIGHT_MS: int := 300000

  datatype Mode = TestMode | LiveMode

  datatype Billing = OneTime | Recurring

  datatype Interval = Week | Month | Year

  /** Currencies are canonical (upper case). */
  datatype Price = Price(currency: string, amount: int, billing: Billing, interval: Option<Interval>,
                         count: Option<int>)

  datatype ProductStatus = ActiveProduct | ArchivedProduct | UnknownProduct

  datatype Product = Product(
    id: string,
    status: ProductStatus,
    mode: Option<Mode>,         // None: unknown
    currency: string,
    amount: int,
    billing: Billing,
    interval: Option<Interval>,
    count: Option<int>)

  datatype Field = CurrencyField | AmountField | BillingField | IntervalField | ModeField | StatusField

  /** compareProviderProductWithPrice: the dimensions that differ. */
  function Mismatches(price: Price, product: Product, mode: Mode): seq<Field> {
    (if product.currency != price.currency then [CurrencyField] else [])
    + (if product.amount != price.amount then [AmountField] else [])
    + (if product.billing != price.billing then [BillingField]
       else if price.billing.Recurring? then
         if product.interval != price.interval || product.count != price.count then [IntervalField] else []
       else if product.interval.Some? || product.count.Some? then [IntervalField]
       else [])
    + (if product.mode != Some(mode) then [ModeField] else [])
    + (if !product.status.ActiveProduct? then [StatusField] else [])
  }

  /** What a buyer of the product is charged, and how often. */
  datatype Terms = Terms(currency: string, amount: int, every: Option<(Option<Interval>, Option<int>)>)

  function PriceTerms(price: Price): Terms {
    Terms(price.currency, price.amount, if price.billing.Recurring? then Some((price.interval, price.count)) else None)
  }

  function ProductTerms(product: Product): Terms {
    Terms(product.currency, product.amount,
          if product.billing.Recurring? then Some((product.interval, product.count)) else None)
  }

  /**
   * No mismatch means: active, in the expected environment, on the price's
   * terms, and no stray interval on a one-time product.
   */
  lemma NoMismatchIsSameTerms(price: Price, product: Product, mode: Mode)
    ensures Mismatches(price, product, mode) == []
            <==> && ProductTerms(product) == PriceTerms(price)
                 && (product.billing.OneTime? ==> product.interval.None? && product.count.None?)
                 && product.mode == Some(mode) && product.status.ActiveProduct?
  {
  }

  // ---- the row ----

  datatype Status = Pending | Creating | Synced | NeedsReconciliation | Failed

  /** The provider-visible parameters of a create, without its idempotency key. */
  datatype Intent = Intent(
    name: string,
    description: Option<string>,
    amount: int,
    currency: string,
    billing: Billing,
    interval: Option<Interval>,
    count: Option<int>,
    taxCategory: Option<string>)

  datatype Row = Row(
    status: Status,
    product: Option<string>,
    token: Option<nat>,
    intent: Option<Intent>,       // frozen while the row is an intent; replaced by the snapshot once synced
    verified: Option<Product>,
    updatedAt: Time)

  function NewIntent(intent: Intent, now: Time): Row {
    Row(Pending, None, None, Some(intent), None, now)
  }

  function NewLink(product: Product, now: Time): Row {
    Row(Synced, Some(product.id), None, None, Some(product), now)
  }

  predicate InFlight(r: Row) {
    r.status.Pending? || r.status.Creating?
  }

  predicate Stale(r: Row, now: Time) {
    now - r.updatedAt > STALE_IN_FLIGHT_MS
  }

  /** parkStaleInFlight: only if nothing touched the row since it was observed. */
  function Park(r: Row, observed: Row, now: Time): Option<Row> {
    if r.status == observed.status && r.updatedAt == observed.updatedAt
    then Some(r.(status := NeedsReconciliation, updatedAt := now)) else None
  }

  function Reset(r: Row, now: Time): Option<Row> {
    if r.status.Failed? then Some(r.(status := Pending, updatedAt := now)) else None
  }

  /** claimPendingIntent */
  function Claim(r: Row, token: nat, now: Time): Option<Row> {
    if r.status.Pending? then Some(r.(status := Creating, token := Some(token), updatedAt := now)) else None
  }

  /** What every update of a finishing attempt requires. */
  predicate Owns(r: Row, token: nat) {
    (r.status.Creating? || r.status.NeedsReconciliation?) && r.token == Some(token)
  }

  function FinishRejected(r: Row, token: nat, now: Time): Option<Row> {
    if Owns(r, token) then Some(r.(status := Failed, updatedAt := now)) else None
  }

  function FinishUncertain(r: Row, token: nat, now: Time): Option<Row> {
    if Owns(r, token) then Some(r.(status := NeedsReconciliation, updatedAt := now)) else None
  }

  function PersistId(r: Row, token: nat, id: string, now: Time): Option<Row> {
    if Owns(r, token) then Some(r.(product := Some(id), updatedAt := now)) else None
  }

  function FinishUnverified(r: Row, token: nat, id: string, now: Time): Option<Row> {
    if Owns(r, token) then Some(r.(status := NeedsReconciliation, product := Some(id), updatedAt := now)) else None
  }

  function FinishSynced(r: Row, token: nat, product: Product, now: Time): Option<Row> {
    if Owns(r, token)
    then Some(r.(status := Synced, product := Some(product.id), intent := None, verified := Some(product),
                 updatedAt := now))
    else None
  }

  /** failNeedsReconciliationIntent */
  function MarkFailed(r: Row, now: Time): Option<Row> {
    if r.status.NeedsReconciliation? then Some(r.(status := Failed, updatedAt := now)) else None
  }

  /** The adoption of a located product by linkProviderCatalogProduct. */
  function Adopt(r: Row, product: Product, now: Time): Option<Row> {
    if r.status.NeedsReconciliation? || r.status.Failed?
    then Some(r.(status := Synced, product := Some(product.id), intent := None, verified := Some(product),
                 updatedAt := now))
    else None
  }

  /** Linking the same product again refreshes the snapshot; the update is by row id alone. */
  function Refresh(r: Row, product: Product, now: Time): Row {
    r.(intent := None, verified := Some(product), updatedAt := now)
  }

  /** resolveCheckoutProviderProductIds, for one price. */
  function CheckoutProduct(row: Option<Row>): Option<string> {
    if row.Some? && row.value.status.Synced? then row.value.product else None
  }
}
