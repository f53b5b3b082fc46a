# A verified model of the credit ledger, the payment inbox and the provider catalog

This project models four parts of the system in Dafny and proves what they
promise about money and intent under replay, reordering and concurrency.

**Credit ledger** (`src/modules/credits`). Accounts hold an available and a
reserved balance, backed by grant buckets that expire; reservations and an
append-only transaction log sit beside them.

- `CreditSchema`, `CreditBuckets`, `CreditService` say what each operation does
  to the tables. Consumption, expiry and clawback are given in closed form: how
  much a row gives up is the difference it makes to a prefix sum.
- `CreditStore` is the same in the service's own form: a class whose methods
  update rows one statement at a time, loop over buckets and roll back. Every
  method is proved to compute what `CreditService` says; `CreditWalks` relates
  the loops to the closed form.
- `CreditBalances`, `CreditLog`, `CreditReplay` and `CreditRuns` prove the
  invariants over every run; `CreditExpiry` and `CreditOptimality` prove what
  expiry, the sweep, the clawback and soonest-expiry-first consumption achieve;
  `CreditAnswers`, `CreditSettlements` and `CreditLapses` say in plain terms what
  each operation gives its caller: what changes and by how much, which request is
  refused and why, and what asking again does.
- `CreditStatements`, `CreditAlone`, `CreditInterleavings`,
  `CreditSerializability` and `CreditConcurrency` split the operations into
  single statements under locks and prove every interleaving serializable.
  `CreditCandidates` and `CreditStaleLists` tie the expiry and the clawback of
  that model to the service's: exactly with an up-to-date list of buckets, and
  row by row with a list that other transactions have overtaken.
  `CreditLocks` proves the lock order free of deadlock, row locks included, and
  `CreditWaits` derives it for the interleavings themselves.
- `CreditGrants` adds up what the products of an order grant, per credit type,
  and issues it once; `CreditIssues` says what each source and period gains.

**Payment events** (`src/modules/commerce`). `PaymentEvents` is the handler for
success, failure and refund events; `PaymentStore` is its imperative form;
`PaymentAnswers` says in plain terms what an event is answered with and books;
`PaymentFacts` and `PaymentGrowth` prove what one event does to refunds, exactly,
and what it can only move forward; `PaymentRuns` and `PaymentLimits` lift both to
histories, and `PaymentDeliveries` proves what holds over delivery orders. `Inbox` is the durable inbox in front of
it, and `PaymentInbox` puts the two together.

**Catalog provisioning** (`src/modules/providers`). `CatalogMapping` holds the
conditional updates of a mapping row, `CatalogProvisioning` interleaves
attempts, operators and the provider over it. `CatalogAnswers` says exactly which
step brings a row to each of its states; `CatalogSafety` and `CatalogCreates` prove what survives every interleaving, and `CatalogCalls`
when create calls to the provider are blind.

**Codecs**. `Money` (with `Digits`) is the money printer and its two parsers;
`EventIdentity` is the identity of developer events.

Time, ids chosen by the database, and everything a provider answers are
parameters. A transaction that throws returns the tables unchanged. Idempotency
keys are a datatype, so keys chosen by callers and keys the ledger derives for
itself are apart by construction.

Where the code does not keep what its comments say, the model follows the code
and a theorem says exactly when the property holds:

- Events of one sale settle to the same books whatever their order exactly when
  the first delivery that is not rejected is the success or names the order,
  something that takes effect names the order, and from then on a success comes
  in time, unless everything is refunded in the end
  (`PaymentDeliveries.OrderOfDeliveryMattersExactly`). Where
  every success names its order this is: the first delivery that is not rejected
  names the order (`PaymentDeliveries.OrderOfDeliveryDoesNotMatter`). A refund
  that arrives first without it seeds the payment with its own amount, and can
  even land it on `refunded` at insert. Credits and entitlements are granted
  exactly when the success came before the refunds had used up the amount
  (`PaymentDeliveries.GrantsNeedSuccessInTime`).
- Confirmed refunds come to exceed what a payment captured in exactly two ways:
  the confirmation of a pending refund with more than is left, and a refund event
  about another payment, without a refund id, whose derived id is that of one of
  this payment's refunds, if it books more than is left
  (`PaymentFacts.ConfirmedExceedsExactly`). The same holds with pending refunds
  included (`PaymentFacts.ReservedExceedsExactly`). `PaymentLimits` lifts both to
  any history (`WithinCapturedExactly`, `WithinHeadroomExactly`);
  `ConfirmationMayExceedCaptured` and `LookalikeRefundIsRewritten` are instances.
- A payment becomes refunded exactly when a refund planned for it takes what was
  confirmed up to what was captured (`PaymentFacts.ClosesExactly`). That differs
  from what its rows say afterwards exactly when the derived id was taken: by
  another payment's row, by a confirmed row of its own, or by a row of it while
  the event was about another payment and took its confirmed refunds across the
  captured amount (`PaymentFacts.TerminalExactly`, over any history
  `PaymentLimits.RefundedMeansConfirmedExactly`).
- The step that refunds an order takes its access. It comes back exactly by a
  success for another payment of it that had not settled, if it never had access
  before; access that was revoked does not come back
  (`PaymentLimits.AccessReturnsExactly`, over any history
  `PaymentLimits.RefundedOrderAccessExactly`, instance `SecondPaymentReopensAccess`).
- A succeeded refund changes exactly at a refund event without a refund id whose
  derived id is the row's, with something left to refund and another amount to
  book (`PaymentGrowth.SucceededRefundChangesExactly`,
  `PaymentLimits.SucceededRefundStaysExactly`). The inbox applies an event id
  once, so the derived ids of two events cannot meet; the one way there is a
  provider's refund id spelled like a derived one, such as `event:7`. The run
  `LOOKALIKE` gets there from empty books with four different events: the row it
  rewrites belongs to another payment and stays with it, that payment then has
  more confirmed than it captured, and the event's own payment is refunded with
  nothing confirmed. In histories without such ids succeeded refunds never change
  and refunded means confirmed
  (`PaymentRuns.TidyHistoryKeepsAll`, `PaymentInbox.GenuineInboxKeepsAll`), and
  what was once exceeded stays so (`PaymentLimits.TidyWithinCaptured`).
- A failure notice before the success makes no difference exactly if it is
  rejected, finds the payment settled, or says no more than the success does
  (`PaymentGrowth.FailureIsForgottenExactly`): a payment's amount, currency, order
  and customer are written once, by whichever event comes first.
- Attempt ownership is checked when an attempt reports, not when it calls the
  provider. Any two consecutive create calls are separated by a rejection or by
  an operator in every run in which each caller finds its own token on the row
  when it calls (`CatalogCalls.OwnedCallsAreSeparated`), the check the code does
  not make. After calls by owners only, nothing can be unresolved but the call of
  the attempt whose token is on the row, so a blind call is never the owner's own
  (`CatalogCalls.BlindCallExactly`). Wherever an attempt is about to call and the
  row is not synced, the run can go on so that its call follows a new owner's
  unresolved one, and so that a new owner's call follows its own
  (`CatalogCalls.EveryCallCanBeOvertaken`); then only the shared idempotency key
  keeps the provider at one product (`CatalogCreates.CreatesAgree`).

## Model

| member | source | states |
|---|---|---|
| CreditSchema.InsertKeepsOrder | src/modules/credits/buckets.ts:20-25 | the consumption order (expiry with never-expiring last, creation time, id) is total, and a new bucket keeps the table in it |
| CreditBuckets.DrainsPrefix | src/modules/credits/buckets.ts:156-170 | once a selected bucket keeps something, no later bucket of the account gives anything: a prefix of the order is drained |
| CreditBuckets.DrawnSum | src/modules/credits/buckets.ts:111-176 | a walk takes exactly min(budget, what the selected rows hold) from the account's active sum and from the selected rows |
| CreditWalks.WalkRetires | src/modules/credits/buckets.ts:221-291 | the loop that retires one bucket after the other, rereading the balance each time, leaves the closed form for accounts, buckets and log |
| CreditWalks.ConsumeWalkEnds | src/modules/credits/buckets.ts:156-175 | the consumption loop, wherever it stops, took exactly the amount or throws because the rows do not hold it |
| CreditStore.Store.ConsumeBuckets | src/modules/credits/buckets.ts:111-176 | succeeds exactly when the eligible active rows hold the amount, and leaves the closed-form table |
| CreditStore.Store.ExpireDueBucketsForAccount | src/modules/credits/buckets.ts:193-292 | run under the account lock, it retires the available-backed part of the account's due buckets with one entry each |
| CreditStore.Store.ExpireDueCreditBuckets | src/modules/credits/buckets.ts:299-440 | the sweep, with its unlocked scan and one transaction per bucket, equals retiring all due buckets account by account |
| CreditStore.Store.ExpireScanned | src/modules/credits/buckets.ts:325-365 | a bucket found due, whatever it has given up or become since, is retired as its row is now: not at all if it is no longer active or holds nothing |
| CreditStore.Store.RevokeSubscriptionCredits | src/modules/credits/revocation.ts:36-204 | with balances read once and a map of what was taken, it takes what the accounts have available from the subscription's buckets, and reports per credit type exactly what it took |
| CreditLapses.ExpiryGives | src/modules/credits/buckets.ts:193-292 | an account's expiry: only its active rows with an expiry at or before now give anything up, the balance becomes max(0, available - due), each row that gives something has one entry with its own staged key, nothing else changes |
| CreditLapses.SweepGives | src/modules/credits/buckets.ts:299-440 | the sweep, likewise on every account |
| CreditLapses.RevocationGives | src/modules/credits/revocation.ts:52-197 | the clawback: only active rows granted by this subscription in this scope give anything up, every balance loses what they hold as far as it goes, one entry each |
| CreditAnswers.GrantGives | src/modules/credits/service.ts:338-458 | a grant is booked exactly when its amount is positive and its key new; then one account's balance and bucket sum rise by the amount, with one entry and one full bucket, and nothing else changes; otherwise nothing does |
| CreditAnswers.GrantAnsweredOnce | src/modules/credits/service.ts:368-400 | whatever happened since, asking for a booked grant again is answered with its entry, asking for anything else under its key is refused, and neither changes anything |
| CreditStore.Store.DebitCredits | src/modules/credits/service.ts:467-555 | the whole debit with its rollback: either entry, balance and buckets move together or nothing does |
| CreditAnswers.DebitGives | src/modules/credits/service.ts:467-555 | a debit with a new key goes through exactly when its amount is positive and safe and both the balance and the unexpired rows cover it; then one balance, its unexpired rows and the log lose exactly the amount; otherwise nothing changes and the error says why |
| CreditAnswers.DebitFinds | src/modules/credits/service.ts:490-508 | with a known key the same request is answered with its entry and any other is a conflict |
| CreditAnswers.DebitAnsweredOnce | src/modules/credits/service.ts:490-508 | that stays so after any run, and charges nothing |
| CreditStore.Store.ReserveCredits | src/modules/credits/service.ts:621-793 | expiry and reservation in one transaction: rejection commits the expiry, a key already in the log rolls everything back |
| CreditSettlements.ReserveGives | src/modules/credits/service.ts:660-757 | a reservation under a new key, case by case; when it goes through, available loses what was due and the amount, reserved gains the amount, one open row with the request and one entry after those of the expiry are added, nothing else changes |
| CreditSettlements.ReserveFinds | src/modules/credits/service.ts:661-690 | with a known key the same request is answered with its row and any other is a conflict |
| CreditSettlements.ReserveAnsweredOnce | src/modules/credits/service.ts:661-690 | that stays so after any run, whatever became of the row |
| CreditStore.Store.CaptureReservation | src/modules/credits/service.ts:827-946 | settles the reservation, returns the unused part, consumes expired buckets too, or changes nothing |
| CreditSettlements.CaptureGives | src/modules/credits/service.ts:795-946 | a capture under a new key: not found exactly for no row of the application, mismatch exactly for the other environment, then by the row's status and amount; only a settlement changes anything: one account, one row, one entry, and rows of the account for exactly the amount |
| CreditSettlements.CaptureFinds | src/modules/credits/service.ts:845-862 | with a known key the same capture is answered with its entry and any other is a conflict |
| CreditSettlements.CaptureAnsweredOnce | src/modules/credits/service.ts:845-862 | that stays so after any run |
| CreditSettlements.ReleaseGives | src/modules/credits/service.ts:948-1045 | a release under a new key, likewise; everything it held goes back to available and no row gives anything up |
| CreditSettlements.ReleaseFinds | src/modules/credits/service.ts:962-981 | with a known key the same release is answered with its entry and any other is a conflict |
| CreditSettlements.ReleaseAnsweredOnce | src/modules/credits/service.ts:962-981 | that stays so after any run |
| CreditSettlements.ReleaseUndoesReserve | src/modules/credits/service.ts:948-1045 | releasing a reservation leaves accounts and buckets as the expiry inside the reservation alone would have |
| CreditSettlements.SettledForGood | src/modules/credits/service.ts:854-905 | after any run, no capture and no release of a settled reservation changes anything; the same call is answered as settled, the other one as terminal |
| CreditRuns.StepIsSound | src/modules/credits/buckets.ts:14-18 | every operation, whatever its outcome, keeps the books balanced, the keys unique and the log replayable |
| CreditRuns.BackingInEveryReachableState | src/modules/credits/buckets.ts:14-18 | in every reachable state active remaining sums to available + reserved, reserved is the sum of open reservations, balances are non-negative, and a bucket is active exactly when something remains |
| CreditRuns.GrantKeysFireOnce | src/modules/credits/service.ts:368-400 | in every reachable state an idempotency key has at most one entry and issued at most one bucket |
| CreditRuns.CaptureNeverStuck | src/modules/credits/service.ts:864-916 | an open reservation can always be captured up to its amount, whatever became of its buckets |
| CreditRuns.ReleaseNeverStuck | src/modules/credits/service.ts:982-1019 | an open reservation can always be released |
| CreditRuns.NoInconsistencyError | src/modules/credits/buckets.ts:171-175 | the errors for inconsistent books are unreachable for capture and release |
| CreditRuns.ReservationsSettleOnce | src/modules/credits/service.ts:854-861 | over any run a reservation leaves the open state at most once and never changes afterwards |
| CreditRuns.LogReproducesBalances | src/modules/credits/service.ts:256-293 | folding an account's entries gives its balances, every entry recorded the balances of its own prefix, and granted credit is held, debited, captured, expired or revoked |
| CreditReplay.CreditIsConserved | src/modules/credits/service.ts:256-293 | nothing appears or disappears: grants equal balances plus everything that left |
| CreditLog.WalkKeepsUniqueKeys | src/modules/credits/buckets.ts:239-243 | staged expiry and clawback keys never repeat, because a bucket has dropped below every amount its keys name |
| CreditExpiry.RetireClosedForm | src/modules/credits/revocation.ts:125-197 | a retirement takes min(available, selected remaining) from each account |
| CreditExpiry.ExpiryClosedForm | src/modules/credits/buckets.ts:178-192 | after an account's expiry available is max(0, old available - due), and if something is available no due bucket is left |
| CreditExpiry.DebitSucceedsExactly | src/modules/credits/buckets.ts:126-149 | a debit succeeds exactly when balance and unexpired rows both cover it, and never touches an expired row |
| CreditExpiry.DebitAfterExpiry | src/modules/credits/buckets.ts:182-186 | right after the account's expiry the balance alone decides |
| CreditExpiry.ReserveIsBackedByUnexpired | src/modules/credits/service.ts:657-740 | a successful reservation leaves available + reserved wholly on unexpired buckets; a rejected one commits exactly the expiry |
| CreditExpiry.SweepIsExpiryOfEveryAccount | src/modules/credits/buckets.ts:299-440 | the sweep leaves the tables that account-scoped expiry of every account in turn leaves |
| CreditExpiry.SweepBooksTheSameEntries | src/modules/credits/buckets.ts:368-387 | and books the same entries per account, in the same order |
| CreditOptimality.SoonestExpiryFirstIsOptimal | src/modules/credits/buckets.ts:20-25 | for every future time, no other way of taking the amount from the same rows leaves more credit that outlives it |
| CreditOptimality.AtMostOnePartlyDrained | src/modules/credits/buckets.ts:156-170 | at most one bucket is drained in part, and it is the last one drawn from |
| CreditAlone.DebitAlone | src/modules/credits/service.ts:519-555 | the debit's statements, run without interference, do what the debit does |
| CreditAlone.ReserveAlone | src/modules/credits/service.ts:706-757 | the same for the reservation: expire, then hold or stop |
| CreditAlone.CaptureAlone | src/modules/credits/service.ts:845-945 | the same for the capture, outcome by outcome |
| CreditAlone.ReleaseAlone | src/modules/credits/service.ts:975-1043 | the same for the release |
| CreditAlone.GrantAlone | src/modules/credits/service.ts:403-457 | the same for the grant, with and without an account |
| CreditSerializability.StatementOnTrack | src/modules/credits/buckets.ts:111-176 | a transaction holding its locks is always where it would be had it run alone on the versions it locked |
| CreditSerializability.CandidateOnTrack | src/modules/credits/revocation.ts:125-197 | a clawback or sweep working from a stale list of buckets is always where retiring the listed buckets one after the other would have it, with the balances it read under the lock |
| CreditSerializability.Serializable | src/modules/credits/buckets.ts:27-38 | in every interleaving the committed cells are those of a serial run of the committed transactions, and no two transactions hold one lock |
| CreditSerializability.LeftAloneItEnds | src/modules/credits/service.ts:519-555 | a transaction with nobody else about reaches its end, and leaves exactly what applying its operation leaves |
| CreditSerializability.RollbackIsApply | src/modules/credits/service.ts:519-535 | a transaction that rolls itself back would have changed nothing alone either |
| CreditConcurrency.EveryScheduleIsSerial | src/modules/credits/buckets.ts:27-38 | for every schedule of debits, reserves, captures, releases, grants, expiries and clawbacks, crashes included, the committed accounts are balanced and are what the operations produce one after the other |
| CreditConcurrency.KeysWorkOnce | src/modules/credits/service.ts:485-508 | once an operation went through under a key, no later one with the key changes anything, whatever committed in between |
| CreditCandidates.RetiredIsRetire | src/modules/credits/revocation.ts:93-197 | retiring the picked buckets of an account by their ids leaves what the service's closed form leaves |
| CreditCandidates.ClawbackAlone | src/modules/credits/revocation.ts:46-197 | a clawback whose list is up to date leaves every account as the service's clawback of the subscription does, and every other cell alone |
| CreditCandidates.SweepAlone | src/modules/credits/buckets.ts:299-440 | the sweep's transactions one after the other leave every account as the service's sweep does, and every other cell alone |
| CreditStaleLists.StaleListTakes | src/modules/credits/revocation.ts:93-165 | from any list, however old, the balance drops by min(available, what the listed rows still hold), each listed row gives up its share in list order, and no other row changes |
| CreditStaleLists.RowsLast | src/modules/credits/buckets.ts:420-431 | whatever commits, a bucket row is never removed; only its remaining amount, which never grows, and its status change, and a retired row stays retired |
| CreditStaleLists.StaleListIsSafe | src/modules/credits/revocation.ts:46-123 | whatever commits between the scan and the retirement, the listed rows are still due (or of the subscription) unless retired by now, the balance drops by what they still hold, and no row changes that the statement would not pick at that moment |
| CreditLocks.PlansAscend | src/modules/credits/revocation.ts:74-123 | every transaction takes its locks in ascending order: key, reservation, accounts by id, buckets in consumption order |
| CreditLocks.NeverDeadlocked | src/modules/credits/buckets.ts:27-38 | no set of transactions that lock in ascending order waits for itself |
| CreditLocks.NoReachableDeadlock | src/modules/credits/buckets.ts:150-155 | no schedule reaches a deadlock, and unless all are done somebody can go on |
| CreditWaits.HoldsItsPlan | src/modules/credits/revocation.ts:74-91 | what a transaction of the interleavings holds is always the part of its ascending plan that it has behind it |
| CreditWaits.NoScheduleDeadlocks | src/modules/credits/buckets.ts:27-38 | no interleaving, crashes included, reaches a deadlock, and while transactions are left one of them can go on |
| CreditGrants.CountProducts | src/modules/credits/commerce.ts:43-50 | sums quantities per product, refusing exactly when a running sum leaves the positive safe range |
| CreditGrants.AddUpTypes | src/modules/credits/commerce.ts:69-92 | sums what the configurations grant per credit type, refusing exactly when a configuration or a sum is unsafe |
| CreditGrants.ConfiguredGrants | src/modules/credits/commerce.ts:41-101 | nothing for an empty order; otherwise refuses exactly for unsafe sums or a missing expiry where one is required and credits are granted |
| CreditGrants.TypesCoverConfigs | src/modules/credits/commerce.ts:69-92 | the amounts per type add up to everything the configurations contribute |
| CreditGrants.GrantingTwiceIsOnce | src/modules/credits/commerce.ts:103-128 | issuing the grants of a source and period again, at any time, changes nothing |
| CreditIssues.IssueGives | src/modules/credits/commerce.ts:97-128 | issuing goes through exactly if no type is unsafe or was granted otherwise for this source and period; each type not granted before gains its amount, once, under the key of source, period and type, and no other balance changes |
| CreditIssues.TwoPeriodsGiveBoth | src/modules/credits/commerce.ts:97-128 | two periods of one source, neither granted before, give both amounts |
| CreditIssues.AmountIsWhatItemsGrant | src/modules/credits/commerce.ts:41-92 | the amount of a credit type is what the items grant one by one: quantity times the configured rate of their product |
| PaymentStore.Store.CountRefunds | src/modules/commerce/webhook-payment-events.ts:333-381 | the loop over refund rows computes the reserved, the confirmed and the unknown part of the payment's refunds |
| PaymentStore.Store.PlanRefundEvent | src/modules/commerce/webhook-payment-events.ts:239-453 | the plan of a refund: replay, conflict, nothing left, confirmation as reported, or a new fact within what is left |
| PaymentStore.Store.ApplyPaymentEvent | src/modules/commerce/webhook-payment-events.ts:35-744 | the handler with its statements and rollback leaves the books the event leaves |
| PaymentAnswers.AdmittedExactly | src/modules/commerce/webhook-payment-events.ts:44-237 | an event is admitted exactly if its amount is in range, it names a payment, it contradicts neither the order, the customer nor the currency on record, and there is something to book; else the first of these is the error |
| PaymentAnswers.FirstEventBooks | src/modules/commerce/webhook-payment-events.ts:196-216 | the first event of a payment writes the amount it reports, else the order's total, but a refund the order's total first; its currency, else the order's; its order and known customer; and succeeded, failed, or refunded if all is refunded |
| PaymentAnswers.LaterEventBooks | src/modules/commerce/webhook-payment-events.ts:587-617 | later events keep amount and currency, fill in order and customer, and set the status each kind calls for |
| PaymentAnswers.OrderBecomes | src/modules/commerce/webhook-payment-events.ts:619-663 | an order is paid from pending or failed, failed from pending, refunded from pending or paid by a refund that closes its payment, and otherwise stays |
| PaymentAnswers.SuccessAnswers | src/modules/commerce/webhook-payment-events.ts:475-536 | a success is ignored exactly when the payment is refunded or payment and order are settled, and throws exactly when access was granted with another start |
| PaymentAnswers.FailureAnswers | src/modules/commerce/webhook-payment-events.ts:538-566 | a failure is ignored exactly once the payment is settled |
| PaymentAnswers.RefundAnswers | src/modules/commerce/webhook-payment-events.ts:239-453 | a refund event, case by case over the recorded rows: which error, a repeat, nothing left, or the amount it is booked with; which row holds it, which provisional rows give way, and whose access ends |
| PaymentAnswers.ClosesInPlainTerms | src/modules/commerce/webhook-payment-events.ts:383-453 | it closes its payment exactly if it takes the succeeded refunds up to what was captured, pending ones aside |
| PaymentRuns.GrantsExactly | src/modules/commerce/webhook-payment-events.ts:484-536 | credits are granted exactly by a success about a one-time order whose payment is not refunded, not both settled, and without conflicting access; access with them where configured, starting with that event |
| PaymentRuns.GrantsLast | src/modules/entitlements/service.ts:78-161 | over any history what was granted stays granted: the start of an entitlement never moves and a revoked one never comes back |
| PaymentGrowth.FailureIsForgottenExactly | src/modules/commerce/webhook-payment-events.ts:538-575 | a failure notice after the success changes nothing; one before it makes no difference exactly if it is rejected, finds the payment settled, or says no more than the success |
| PaymentFacts.PlannedTally | src/modules/commerce/webhook-payment-events.ts:383-453 | a planned refund adds its amount to the payment its row belongs to, in place of what that row held before, and to no other payment |
| PaymentFacts.PlannedAgainst | src/modules/commerce/webhook-payment-events.ts:333-453 | a plan closes its payment exactly when it takes what was confirmed up to what was captured, and fits into what pending and succeeded refunds leave unless it confirms a pending refund |
| PaymentFacts.ConfirmedExceedsExactly | src/modules/commerce/webhook-payment-events.ts:385-406 | an event takes the confirmed refunds of a payment beyond the captured amount exactly if it confirms a pending refund of it, or books another payment's refund over one of it, with more than its other refunds leave |
| PaymentFacts.ReservedExceedsExactly | src/modules/commerce/webhook-payment-events.ts:339-381 | the same for pending and succeeded refunds together |
| PaymentFacts.RefundsStayWithinCaptured | src/modules/commerce/webhook-payment-events.ts:339-381 | no event but these two lets pending and succeeded refunds exceed the larger of the captured amount and what they were before |
| PaymentFacts.ClosesExactly | src/modules/commerce/webhook-payment-events.ts:568-585 | a payment is refunded after an event exactly if it was before or a refund planned for it takes what was confirmed up to what was captured |
| PaymentFacts.TerminalExactly | src/modules/commerce/webhook-payment-events.ts:568-732 | whether refunded means confirmed >= captured after an event: exactly if the event does not split the two, in one of three ways that all need a derived id that is taken |
| PaymentFacts.ApplyKeepsRows | src/modules/commerce/webhook-payment-events.ts:709-732 | every event keeps refund ids unique, rows with their payments, amounts non-negative and succeeded refunds with an amount |
| PaymentFacts.ClosesExactlyWhenConfirmed | src/modules/commerce/webhook-payment-events.ts:568-585 | so a payment that the event does not split closes at the very step at which its confirmed refunds reach the captured amount |
| PaymentGrowth.ApplyMovesForward | src/modules/commerce/webhook-payment-events.ts:587-663 | every event: amounts, currencies and bindings are written once, order and payment statuses only move forward, refunds keep their payment and stay succeeded, grants stay |
| PaymentGrowth.GrowsExactly | src/modules/commerce/webhook-payment-events.ts:709-732 | and succeeded refunds keep their amounts too, exactly if the event rewrites none |
| PaymentRuns.HistoryMovesForward | src/modules/commerce/webhook-payment-events.ts:129-179 | between any two moments of any history, with the refund journal adding and abandoning pending refunds, the books only move forward |
| PaymentRuns.RefundedOrderGrantsNothingEver | src/modules/commerce/webhook-payment-events.ts:734-738 | with one payment per order, a refunded order never has an active entitlement |
| PaymentLimits.WithinCapturedExactly | src/modules/commerce/webhook-payment-events.ts:339-406 | over any history confirmed refunds are within the captured amounts at every moment exactly when no event overbooked a payment |
| PaymentLimits.WithinHeadroomExactly | src/modules/commerce/webhook-payment-events.ts:339-381 | the same with pending refunds included, and promises of the journal as a third way |
| PaymentLimits.RefundedMeansConfirmedExactly | src/modules/commerce/webhook-payment-events.ts:339-345 | over any history refunded is equivalent to confirmed >= captured, pending money not counted, at every moment exactly when no event split the two |
| PaymentLimits.ConfirmationMayExceedCaptured | src/modules/commerce/webhook-payment-events.ts:385-406 | an instance: 150 confirmed on a payment of 100 |
| PaymentLimits.AccessReturnsExactly | src/modules/commerce/webhook-payment-events.ts:619-626 | a refunded order without access gets it exactly by a success for a payment of it that was absent, pending or failed, and only if it never had access |
| PaymentLimits.RefundedOrderAccessExactly | src/modules/commerce/webhook-payment-events.ts:734-738 | from the step that refunds an order on, however many payments it has, it is without access exactly as long as no such success arrives, and for ever if it had access |
| PaymentLimits.SecondPaymentReopensAccess | src/modules/commerce/webhook-payment-events.ts:619-626 | an instance: a second payment |
| PaymentGrowth.SucceededRefundChangesExactly | src/modules/commerce/webhook-payment-events.ts:709-732 | a succeeded refund changes exactly at a refund event without an id whose derived id is the row's, with something left and another amount to book, and then only its amount |
| PaymentLimits.SucceededRefundStaysExactly | src/modules/commerce/webhook-payment-events.ts:709-732 | over any history it stays the same exactly as long as no such event arrives |
| PaymentLimits.LookalikeRefundIsRewritten | src/modules/commerce/webhook-payment-events.ts:709-732 | an instance from empty books with distinct event ids: a provider's refund id that looks derived, rewritten beyond what its payment captured by an event that refunds another payment with nothing confirmed |
| PaymentDeliveries.DeliveriesSettle | src/modules/commerce/webhook-payment-events.ts:196-216 | unless the first delivery is a refund that does not name the order, the books depend only on which facts were delivered, whether something bound the payment to the order, and whether a success came in time |
| PaymentDeliveries.OrderOfDeliveryMattersExactly | src/modules/commerce/webhook-payment-events.ts:196-216 | for a pending one-time order, with or without access to grant, one success and any refunds, in any order and with any duplicates and rejections, when they conclude with the same payment, confirmed total min(T, sum), order status and access: an equivalence |
| PaymentDeliveries.OrderOfDeliveryDoesNotMatter | src/modules/commerce/webhook-payment-events.ts:196-216 | where every success names its order, they do so exactly when the first delivery that is not rejected names the order |
| PaymentDeliveries.GrantsNeedSuccessInTime | src/modules/commerce/webhook-payment-events.ts:510-536 | credits are granted exactly when the success came before the refunds had used up the amount |
| Inbox.Store.Process | src/modules/commerce/webhook.ts:91-301 | one delivery: insert, short-circuit, re-arm, dispatch with the stored payload and the occurrence time just delivered, mark; a throw leaves only the failure mark |
| Inbox.InboxTells | src/modules/commerce/webhook.ts:140-171 | the inbox computes what applying each id once computes: at its first attempt that does not throw, with its first payload, or the current one after a throw |
| Inbox.ExactlyOnce | src/modules/commerce/webhook.ts:31-46 | the business state is the applied events folded in order, no event id twice |
| Inbox.FailureTouchesOnlyItsRow | src/modules/commerce/webhook.ts:293-301 | a throwing or dying delivery changes nothing but its own inbox row |
| Inbox.SettledIsFinal | src/modules/commerce/webhook.ts:140-147 | processed and ignored rows never change again |
| PaymentInbox.InboxIsHistory | src/modules/commerce/webhook.ts:140-277 | the books behind the inbox are those of a history without repeated event ids, so every theorem on histories applies |
| PaymentInbox.InboxKeepsBooks | src/modules/commerce/webhook.ts:91-277 | whatever is delivered, refund rows stay valid and the books only move forward |
| PaymentInbox.NoticeGives | src/modules/commerce/webhook.ts:140-301 | one delivery of an id that is not done: the event is applied with the time just delivered; rejected leaves the id open, otherwise it is done as ignored or as processed |
| PaymentInbox.RejectedIsTriedAgain | src/modules/commerce/webhook.ts:148-171 | a rejected event is tried again with what is delivered next under its id |
| CatalogMapping.NoMismatchIsSameTerms | src/modules/providers/catalog-mapping.ts:82-147 | no mismatch means exactly: same terms as the price, expected environment, active, no stray interval |
| CatalogAnswers.SyncedExactly | src/modules/providers/catalog-provisioning.ts:512-725 | a row becomes synced exactly by its holder whose product was read back and matches, by a link where there is no row, or by an adoption for a row that is parked or failed |
| CatalogAnswers.FailedExactly | src/modules/providers/catalog-provisioning.ts:556-600 | failed exactly by an operator on a parked row or by its holder whose create was rejected |
| CatalogAnswers.CreatingExactly | src/modules/providers/catalog-provisioning.ts:448-474 | creating exactly by an attempt that owns a pending row, with a token nobody had |
| CatalogAnswers.PendingExactly | src/modules/providers/catalog-provisioning.ts:245-440 | pending exactly by the first attempt or by a retry with the same parameters of a failed row |
| CatalogAnswers.ParkedExactly | src/modules/providers/catalog-provisioning.ts:149-165 | parked exactly by a request that saw it in flight and untouched for more than five minutes and finds it so, or by its holder whose answer was lost or whose product cannot be verified |
| CatalogAnswers.VerifiedExactly | src/modules/providers/catalog-provisioning.ts:606-725 | a created product passes exactly if it was read back under its own id, on the price's terms, active and in the expected environment |
| CatalogAnswers.LinkedExactly | src/modules/providers/catalog-mapping.ts:237-300 | an operator's link is taken up exactly if the product fits the price |
| CatalogAnswers.ProductIsNamedExactly | src/modules/providers/catalog-provisioning.ts:596-610 | a row that keeps its state gets a product id exactly from its holder once the provider named it |
| CatalogAnswers.CallAnswers | src/modules/providers/catalog-provisioning.ts:30-44 | what each reply of the provider leaves: created under the id first made, rejected, to be called again, or uncertain |
| CatalogSafety.StepKeepsSafe | src/modules/providers/catalog-provisioning.ts:545-725 | every step of anybody keeps synced rows verified and attempts' tokens distinct, and only lets the row grow |
| CatalogSafety.SyncedIsFinalAndVerified | src/modules/providers/schema.ts:109-120 | in every interleaving a set product id is never lost, and a synced row stays synced with a product that matched the price; that product is what checkout resolves |
| CatalogSafety.SupersededNeverWrites | src/modules/providers/catalog-provisioning.ts:558-570 | once a newer attempt has claimed the row, no step of an older one changes the row, however late and whatever happened meanwhile |
| CatalogSafety.OnceSupersededAlways | src/modules/providers/catalog-provisioning.ts:464-474 | an older attempt stays superseded for good, and no two attempts share a token |
| CatalogSafety.OneOwner | src/modules/providers/catalog-provisioning.ts:461-474 | in every interleaving at most one attempt owns the row |
| CatalogCreates.CreatesAgree | src/modules/providers/catalog-provisioning.ts:166-182 | all create calls of a row carry the same parameters, so a provider that dedupes by key makes one product and answers every attempt with it |
| CatalogCalls.OwnedCallsAreSeparated | src/modules/providers/catalog-provisioning.ts:30-44 | in every run in which each caller finds its own token on the row, between any two consecutive create calls the first was rejected or an operator gave it up |
| CatalogCalls.BlindCallExactly | src/modules/providers/catalog-provisioning.ts:448-474 | after calls by owners only, whatever is unresolved is the call of the attempt whose token is on the row, and the owner's own call is never blind |
| CatalogCalls.EveryCallCanBeOvertaken | src/modules/providers/catalog-provisioning.ts:448-474 | from every reachable state with an unsynced row and an attempt about to call, both blind orders are reachable: late call after the new owner's, new owner's after the late one |
| CatalogCalls.UndisturbedAttemptSyncs | src/modules/providers/catalog-provisioning.ts:426-518 | from any state without a row or with a failed one, an attempt left alone ends synced with the product the provider made for it, after one call |
| Money.ProviderAmountIsExact | src/lib/money.ts:108-133 | for digit strings of any length: the exact value in minor units rounded half up in magnitude, or undefined exactly outside the safe range |
| Money.ProviderReads | src/lib/money.ts:108-133 | written out: with any sign or none, digits and maybe a dot and more digits read as their exact value rounded half up in magnitude |
| Money.DisplayAmountIsExact | src/lib/money.ts:59-96 | what users type: undefined unless an integer, grouped or not, with at most two decimals where the currency has them; then the exact value, or undefined exactly outside the safe range |
| Money.ProviderRoundTrip | src/lib/money.ts:144-161 | reading back what was printed gives the amount, for every safe integer and currency |
| Money.DisplayRoundTrip | src/lib/money.ts:76-96 | the same for what users type, for non-negative amounts |
| Money.GroupingIsIrrelevant | src/lib/money.ts:60-66 | grouped and ungrouped input parse alike |
| Money.GroupIsAccepted | src/lib/money.ts:60-61 | thousands grouping of any digit string is accepted and undone |
| EventIdentity.CanonicalIsInjective | src/server/control-plane/billing-events.ts:79-91 | different lists of arbitrary strings have different canonical strings |
| EventIdentity.SameIdIsSameFact | src/server/control-plane/billing-events.ts:101-143 | two events share a developer event id exactly when they are the same fact of the same family, or fall back on the same inbox row |
| EventIdentity.FactSaysWhat | src/server/control-plane/billing-events.ts:114-142 | field by field, what makes two events the same fact |

## Left out

- Balances are unbounded integers; the width of the database columns is not modelled.
- Metadata, version counters, timestamps of updates, and the normalization of names, credit types and customer references are not modelled; inputs are taken as normalized.
- Idempotency keys chosen by a caller cannot equal keys the ledger derives, because keys are a datatype here; in the database both are text.
- The entry of a grant keeps its expiry as a field; the source keeps it in metadata.
- `refundCredits`, the balance and bucket queries and `expiresAt` of reservations (never enforced) are not part of the model.
- New buckets and reservations get ids in the order of insertion; the source draws them at random, so a tie on expiry and creation time may break either way there.
- The transaction log is not part of an account's cell in the concurrent model: it is append-only and read by key, and key cells stand for it. Bucket row locks appear in the lock order only, because every bucket writer holds its account.
- In the concurrent model a capture or release looks at its reservation once it also holds the account; the source looks while holding the reservation row, which nobody changes without both.
- Deadlock freedom covers the operations as transactions of their own; grants of several credit types inside one webhook transaction follow an unordered query and are outside it.
- PaymentDeliveries.OrderOfDeliveryMattersExactly: the sale starts without refund rows, and all events carry the currency; a rejected refund counts once it is delivered again.
- PaymentRuns.TidyHistoryKeepsAll: derived refund ids must not collide with provider ids or repeat; the exact theorems of `PaymentLimits` say what happens without that.
- PaymentRuns.RefundedOrderGrantsNothingEver: assumes one payment per order; `PaymentLimits.RefundedOrderAccessExactly` says what happens without that.
- Products of an order are configured to grant access or not, and that configuration does not change; feature keys are granted and revoked together, so one row per order stands for them.
- Currencies are canonical upper case in the payment model. Checkout sessions, subscription events and outbound developer events are not modelled.
- An inbox delivery and its failure mark are one step; two workers on the same row, and a late failure mark over a processed row, are not modelled.
- The catalog model works on row values, because between two statements an attempt has nothing but the row it observed. The price is constant, a legacy metadata mapping is absent, and connection and ownership checks are taken as passed. The comparison of intents by their JSON text is equality of their fields.
- Strings are sequences of characters: lengths are not counted in UTF-16 units, case folding is ASCII, and negative zero is zero. Numbers passed to the provider parser in place of strings are not modelled.
- The digest behind developer event ids is a function assumed free of collisions.
- HTTP routes, the console, adapters, encryption, analytics, team membership and the outbound webhook sweeper would add nothing comparable.
