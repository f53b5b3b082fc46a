/**
 * What every credit operation does to the ledger, as a function from the old
 * tables to the new ones and the outcome. A transaction that throws leaves the
 * tables as they were.
 */
module CreditService {
  import opened Wrappers
  import opened CreditSchema
  import opened CreditBuckets

  datatype CreditError =
    | InvalidAmount
    | IdempotencyConflict
    | InsufficientCredits
    | ReservationNotFound
    | EnvironmentMismatch
    | TerminalState
    | CaptureExceedsReserved
    | BalanceInconsistent      // "Reserved credit balance is inconsistent"
    | AllocationViolated       // "consumption exceeds active buckets"
    | UniqueViolation          // the unique index on (application, environment, idempotency key)

  datatype Receipt =
    | Recorded(entry: nat)
    | Replayed(entry: nat)
    | Reserved(reservation: nat)
    | ReservedBefore(reservation: nat)
    | Settled(reservation: nat, entry: nat)
    | SettledBefore(reservation: nat)

  type Outcome = Result<Receipt, CreditError>

  datatype Done = Done(ledger: Ledger, outcome: Outcome)

  predicate PositiveAmount(amount: int) {
    0 < amount <= MAX_SAFE_INTEGER
  }

  // ---- expiry and clawback ----

  datatype Retirement = Expiry | Clawback(subscription: string)
  {
    function Status(): BucketStatus {
      if Expiry? then BucketStatus.Expired else Reversed
    }

    function KeyFor(b: Bucket): Key {
      match this
      case Expiry => ExpiryKey(b.id, b.remaining)
      case Clawback(subscription) => RevocationKey(subscription, b.id, b.remaining)
    }

    function EntryFor(b: Bucket, account: Account, share: int, availableAfter: int): Entry {
      match this
      case Expiry =>
        Entry(b.scope, account.customer, b.account, GrantExpired, -share, availableAfter, account.reserved,
              "expiration", BucketSourceRow(b.id), KeyFor(b), None)
      case Clawback(subscription) =>
        Entry(b.scope, account.customer, b.account, GrantRevoked, -share, availableAfter, account.reserved,
              "subscription", TextSource(subscription), KeyFor(b), None)
    }
  }

  function Balances(accounts: seq<Account>): seq<int> {
    seq(|accounts|, i requires 0 <= i < |accounts| => accounts[i].available)
  }

  ghost predicate Linked(accounts: seq<Account>, buckets: seq<Bucket>) {
    forall i :: 0 <= i < |buckets| ==>
      && buckets[i].account < |accounts|
      && buckets[i].scope == accounts[buckets[i].account].scope
  }

  ghost predicate Solvent(accounts: seq<Account>) {
    forall a :: 0 <= a < |accounts| ==> 0 <= accounts[a].available && 0 <= accounts[a].reserved
  }

  /** The tables can be walked: rows are well formed and belong to accounts with non-negative balances. */
  ghost predicate Walkable(l: Ledger) {
    WellFormed(l.buckets) && Linked(l.accounts, l.buckets) && Solvent(l.accounts)
  }

  function AvailableAfter(l: Ledger, rows: Rows, account: nat, n: nat): int
    requires account < |l.accounts| && n <= |l.buckets|
  {
    l.accounts[account].available - TakenTo(l.buckets, rows, account, l.accounts[account].available, n)
  }

  function BucketEntry(l: Ledger, rows: Rows, why: Retirement, i: nat): Entry
    requires Walkable(l) && i < |l.buckets|
  {
    var b := l.buckets[i];
    var share := Share(l.buckets, rows, Budget.Available(Balances(l.accounts)), i);
    why.EntryFor(b, l.accounts[b.account], share, AvailableAfter(l, rows, b.account, i + 1))
  }

  /** One entry for each of the first n rows that gave something up, in row order. */
  function RetirementEntries(l: Ledger, rows: Rows, why: Retirement, n: nat): seq<Entry>
    requires Walkable(l) && n <= |l.buckets|
  {
    if n == 0 then []
    else
      RetirementEntries(l, rows, why, n - 1)
      + if Share(l.buckets, rows, Budget.Available(Balances(l.accounts)), n - 1) == 0 then []
        else [BucketEntry(l, rows, why, n - 1)]
  }

  function RetiredAccounts(l: Ledger, rows: Rows, n: nat): seq<Account>
    requires n <= |l.buckets|
  {
    seq(|l.accounts|, a requires 0 <= a < |l.accounts| => l.accounts[a].(available := AvailableAfter(l, rows, a, n)))
  }

  /** Retire the available-backed part of the picked rows, account by account. */
  function Retire(l: Ledger, rows: Rows, why: Retirement): Ledger
    requires Walkable(l)
  {
    l.(accounts := RetiredAccounts(l, rows, |l.buckets|),
       buckets := Drawn(l.buckets, rows, Budget.Available(Balances(l.accounts)), why.Status()),
       log := l.log + RetirementEntries(l, rows, why, |l.buckets|))
  }

  function ExpireAccount(l: Ledger, account: nat, now: Time): Ledger
    requires Walkable(l) && account < |l.accounts|
  {
    Retire(l, DueIn(l.accounts[account].scope, account, now), Expiry)
  }

  function Sweep(l: Ledger, now: Time): Ledger
    requires Walkable(l)
  {
    Retire(l, DueAnywhere(now), Expiry)
  }

  function RevokeSubscription(l: Ledger, scope: Scope, subscription: string): Ledger
    requires Walkable(l)
  {
    Retire(l, GrantedBy(scope, subscription), Clawback(subscription))
  }

  // ---- grant ----

  datatype GrantInput = GrantInput(
    customer: string,
    creditType: string,
    amount: int,
    kind: GrantType,
    sourceType: string,
    sourceId: string,
    key: CallerKey,
    expiresAt: Option<Time>)

  predicate Matches(e: Entry, kind: EntryType, amount: int, customer: string, sourceType: string, sourceId: string) {
    e.kind == kind && e.amount == amount && e.customer == customer && e.sourceType == sourceType
      && e.source == TextSource(sourceId)
  }

  /** The account of the grant, created with zero balances when it does not exist yet. */
  function EnsureAccount(accounts: seq<Account>, scope: Scope, customer: string,
                         creditType: string): (r: (seq<Account>, nat))
    ensures r.1 < |r.0|
    ensures r.0[r.1].scope == scope && r.0[r.1].customer == customer && r.0[r.1].creditType == creditType
    ensures accounts <= r.0
    ensures r.0 == accounts || (r.1 == |accounts| && |r.0| == |accounts| + 1 && r.0[r.1].available == 0
                                && r.0[r.1].reserved == 0)
  {
    match FindAccount(accounts, scope, customer, creditType)
    case Some(a) => (accounts, a)
    case None => (accounts + [Account(scope, customer, creditType, 0, 0)], |accounts|)
  }

  function NewBucket(l: Ledger, scope: Scope, account: nat, g: GrantInput, now: Time): Bucket {
    Bucket(|l.buckets|, scope, account, BucketSourceFor(g.kind), g.sourceId, |l.log|, g.amount, g.amount, g.expiresAt,
           now, Active)
  }

  function BookGrant(l: Ledger, scope: Scope, g: GrantInput, now: Time): Ledger {
    var (accounts, a) := EnsureAccount(l.accounts, scope, g.customer, g.creditType);
    var updated := accounts[a].(available := accounts[a].available + g.amount);
    l.(accounts := accounts[a := updated],
       buckets := InsertRow(l.buckets, NewBucket(l, scope, a, g, now)),
       log := l.log + [Entry(scope, g.customer, a, g.kind, g.amount, updated.available, updated.reserved,
                             g.sourceType, TextSource(g.sourceId), g.key, g.expiresAt)])
  }

  function Grant(l: Ledger, scope: Scope, g: GrantInput, now: Time): Done {
    if !PositiveAmount(g.amount) then Done(l, Failure(InvalidAmount))
    else
      match FindEntry(l.log, scope, g.key)
      case Some(e) =>
        if Matches(l.log[e], g.kind, g.amount, g.customer, g.sourceType, g.sourceId) && l.log[e].expiry == g.expiresAt
        then Done(l, Success(Replayed(e)))
        else Done(l, Failure(IdempotencyConflict))
      case None => Done(BookGrant(l, scope, g, now), Success(Recorded(|l.log|)))
  }

  // ---- debit ----

  datatype DebitInput = DebitInput(
    customer: string,
    creditType: string,
    amount: int,
    sourceType: string,
    sourceId: string,
    key: string)

  /** consumeBuckets: Some(table) when the picked rows hold the amount, None when it throws. */
  function Consume(buckets: seq<Bucket>, rows: Rows, account: nat, amount: int): Option<seq<Bucket>> {
    if amount <= 0 then Some(buckets)
    else if Sum(buckets, rows, account) < amount then None
    else Some(Drawn(buckets, rows, Fixed(amount), Consumed))
  }

  function Debit(l: Ledger, scope: Scope, d: DebitInput, now: Time): Done {
    if !PositiveAmount(d.amount) then Done(l, Failure(InvalidAmount))
    else
      match FindEntry(l.log, scope, ClientKey(d.key))
      case Some(e) =>
        if Matches(l.log[e], DebitUsage, -d.amount, d.customer, d.sourceType, d.sourceId)
        then Done(l, Success(Replayed(e)))
        else Done(l, Failure(IdempotencyConflict))
      case None =>
        match FindAccount(l.accounts, scope, d.customer, d.creditType)
        case None => Done(l, Failure(InsufficientCredits))
        case Some(a) =>
          if l.accounts[a].available < d.amount then Done(l, Failure(InsufficientCredits))
          else
            match Consume(l.buckets, Spendable(a, now), a, d.amount)
            case None => Done(l, Failure(AllocationViolated))
            case Some(buckets) =>
              var updated := l.accounts[a].(available := l.accounts[a].available - d.amount);
              Done(l.(accounts := l.accounts[a := updated],
                      buckets := buckets,
                      log := l.log + [Entry(scope, d.customer, a, DebitUsage, -d.amount,
                                            updated.available, updated.reserved,
                                            d.sourceType, TextSource(d.sourceId), ClientKey(d.key), None)]),
                   Success(Recorded(|l.log|)))
  }

  // ---- reserve ----

  datatype ReserveInput = ReserveInput(
    customer: string,
    creditType: string,
    amount: int,
    referenceType: string,
    referenceId: string,
    key: string)

  function BookReservation(l: Ledger, scope: Scope, r: ReserveInput, a: nat): Ledger
    requires a < |l.accounts|
  {
    var updated := l.accounts[a].(available := l.accounts[a].available - r.amount,
                                  reserved := l.accounts[a].reserved + r.amount);
    l.(accounts := l.accounts[a := updated],
       reservations := l.reservations
         + [Reservation(scope, r.customer, a, r.amount, 0, Open, r.referenceType, r.referenceId, r.key)],
       log := l.log + [Entry(scope, r.customer, a, ReserveUsage, -r.amount, updated.available, updated.reserved,
                             "reservation", ReservationSource(|l.reservations|), ClientKey(r.key), None)])
  }

  /** A rejected reservation still commits its expiry; a key already used in the log rolls everything back. */
  function Reserve(l: Ledger, scope: Scope, r: ReserveInput, now: Time): Done
    requires Walkable(l)
  {
    if !PositiveAmount(r.amount) then Done(l, Failure(InvalidAmount))
    else
      match FindReservation(l.reservations, scope, r.key)
      case Some(v) =>
        var existing := l.reservations[v];
        if existing.customer == r.customer && existing.amount == r.amount
           && existing.referenceType == r.referenceType && existing.referenceId == r.referenceId
        then Done(l, Success(ReservedBefore(v)))
        else Done(l, Failure(IdempotencyConflict))
      case None =>
        match FindAccount(l.accounts, scope, r.customer, r.creditType)
        case None => Done(l, Failure(InsufficientCredits))
        case Some(a) =>
          var clean := ExpireAccount(l, a, now);
          if clean.accounts[a].available < r.amount then Done(clean, Failure(InsufficientCredits))
          else if FindEntry(clean.log, scope, ClientKey(r.key)).Some? then Done(l, Failure(UniqueViolation))
          else Done(BookReservation(clean, scope, r, a), Success(Reserved(|l.reservations|)))
  }

  // ---- capture and release ----

  datatype Claim = Held(row: Reservation) | Refused(error: CreditError)

  /** The reservation row addressed by id, under its application and environment. */
  function LockReservation(l: Ledger, scope: Scope, id: nat): Claim {
    if |l.reservations| <= id || l.reservations[id].scope.application != scope.application
      then Refused(ReservationNotFound)
    else if l.reservations[id].scope.environment != scope.environment then Refused(EnvironmentMismatch)
    else Held(l.reservations[id])
  }

  ghost predicate Bound(accounts: seq<Account>, reservations: seq<Reservation>) {
    forall v :: 0 <= v < |reservations| ==>
      reservations[v].account < |accounts| && reservations[v].scope == accounts[reservations[v].account].scope
  }

  function BookCapture(l: Ledger, scope: Scope, id: nat, amount: int, key: string, buckets: seq<Bucket>): Ledger
    requires id < |l.reservations| && l.reservations[id].account < |l.accounts|
  {
    var v := l.reservations[id];
    var account := l.accounts[v.account];
    var updated := account.(available := account.available + (v.amount - amount),
                            reserved := account.reserved - v.amount);
    l.(accounts := l.accounts[v.account := updated],
       buckets := buckets,
       reservations := l.reservations[id := v.(status := Captured, captured := amount)],
       log := l.log + [Entry(scope, v.customer, v.account, CaptureUsage, -amount, updated.available, updated.reserved,
                             "reservation", ReservationSource(id), ClientKey(key), None)])
  }

  function Capture(l: Ledger, scope: Scope, id: nat, amount: int, key: string): Done
    requires Bound(l.accounts, l.reservations)
  {
    if !PositiveAmount(amount) then Done(l, Failure(InvalidAmount))
    else
      match FindEntry(l.log, scope, ClientKey(key))
      case Some(e) =>
        if l.log[e].kind.CaptureUsage? && l.log[e].source == ReservationSource(id) && l.log[e].amount == -amount
        then Done(l, Success(Replayed(e)))
        else Done(l, Failure(IdempotencyConflict))
      case None =>
        match LockReservation(l, scope, id)
        case Refused(error) => Done(l, Failure(error))
        case Held(v) =>
          if v.status.Captured? then Done(l, Success(SettledBefore(id)))
          else if !v.status.Open? then Done(l, Failure(TerminalState))
          else if v.amount < amount then Done(l, Failure(CaptureExceedsReserved))
          else if l.accounts[v.account].reserved < v.amount then Done(l, Failure(BalanceInconsistent))
          else
            match Consume(l.buckets, Settleable(v.account), v.account, amount)
            case None => Done(l, Failure(AllocationViolated))
            case Some(buckets) => Done(BookCapture(l, scope, id, amount, key, buckets), Success(Settled(id, |l.log|)))
  }

  function BookRelease(l: Ledger, scope: Scope, id: nat, key: string): Ledger
    requires id < |l.reservations| && l.reservations[id].account < |l.accounts|
  {
    var v := l.reservations[id];
    var account := l.accounts[v.account];
    var updated := account.(available := account.available + v.amount, reserved := account.reserved - v.amount);
    l.(accounts := l.accounts[v.account := updated],
       reservations := l.reservations[id := v.(status := Released)],
       log := l.log + [Entry(scope, v.customer, v.account, ReleaseUsage, v.amount, updated.available, updated.reserved,
                             "reservation", ReservationSource(id), ClientKey(key), None)])
  }

  function Release(l: Ledger, scope: Scope, id: nat, key: string): Done
    requires Bound(l.accounts, l.reservations)
  {
    match FindEntry(l.log, scope, ClientKey(key))
    case Some(e) =>
      if l.log[e].kind.ReleaseUsage? && l.log[e].source == ReservationSource(id)
      then Done(l, Success(Replayed(e)))
      else Done(l, Failure(IdempotencyConflict))
    case None =>
      match LockReservation(l, scope, id)
      case Refused(error) => Done(l, Failure(error))
      case Held(v) =>
        if v.status.Released? then Done(l, Success(SettledBefore(id)))
        else if !v.status.Open? then Done(l, Failure(TerminalState))
        else if l.accounts[v.account].reserved < v.amount then Done(l, Failure(BalanceInconsistent))
        else Done(BookRelease(l, scope, id, key), Success(Settled(id, |l.log|)))
  }
}
