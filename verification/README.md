# Verified model of the brokerage back end

A Dafny 4.11 model of the money and share life-cycle of a brokerage order on a double-entry
ledger, with the payments, reconciliation, file, calendar, fee and audit code around it, and
proofs of what that code keeps true.

## What is modelled

- **Ledger** (`LedgerModel`, `LedgerService`, `ConcurrentLedger`): the append-only log, posting
  under idempotency keys, the non-negative rule on USER accounts, reversals, the invariant
  report; the service as a class over its tables; and standalone posts as interleaved small steps.
- **Brokerage** (the `Brokerage...` modules): orders, executions, positions and payment intents.
  Every service call is a function on the database value, and a class method that updates the
  tables in place, with its database transactions rolled back on a fault (`BrokerageService`).
  One invariant over the whole state is kept by every call.
- **Payments** (`BrokeragePayments`, `BrokerageIntents`, `PaymentsService`, `DepositRaces`) and
  **reconciliation** (`ReconciliationModel`, `ReconciliationService`) on the same ledger.
- **Around it**: order states and averages (`OrderState`), fees (`Fees`, `FeesJson`), the
  simulated connector (`SimulatedConnector`), the trading calendar (`TradingDays`), the CSV files
  (`Csv`, `SdbFiles`), the hash-chained audit log (`CanonicalJson`, `AuditChain`, `AuditHash`).

Money, quantities and prices are integers in units of 10^-4 (`Decimals`); a transaction's id is
its position in the log, a row's id its position in its table. Idempotency keys are a datatype
with one constructor per key prefix. `Order.released` is a history variable that no operation
reads: it records that `releaseRemaining` has run.

## How the proofs are organised

`BrokerageBooks` says what every balance and counter ought to be, as sums over the tables, and
how the sums move when one row changes. `BrokerageInvariant` states the whole-state invariant.
`BrokerageSteps`, `BrokerageFills`, `BrokerageDelivery` and `BrokeragePayments` show that each
call keeps it; `BrokerageTheorems`, `BrokerageLifecycle`, `BrokerageRuns`, `BrokerageAverages` and
`BrokerageIntents` draw the conclusions over whole runs, `BrokerageFiles` and `BrokerageJobs` over
files and jobs, and `BrokerageAcceptance` says exactly which calls are accepted. The class methods
are proved equal to the functions, and `BrokerageRequests` serves any sequence of requests with
them: the theorems are about the classes too.

## What the proofs found

- `failSettlement` writes ADJUSTED without releasing what an open order still reserves:
  `BrokerageRuns.FailureStrandsIff` and `BrokerageRuns.SaleFailureStrandsIff` say exactly when money
  or shares stay reserved, and `BrokerageExample.StrandedRun` gives runs on which they do.
- `processAck` judges every line against the orders as read before the first one: REJECTED then
  ACCEPTED reopens a released order (`BrokerageFiles.AckFileKeepsIff`), and the summary is true
  exactly when no order is both accepted and rejected (`BrokerageFiles.AckSummaryTrueIff`).
- `consumedReserve` rounds commissions as XAF in any currency
  (`SimulatedConnector.LeftOutCurrencyIff`); in a currency with decimals a release is then refused,
  or takes other orders' reserves (`SimulatedConnector.ReleaseAcceptedIff`).
- With partial fills switched on, the simulated connector can split an order whose second fill is
  then refused for good (`SimulatedConnector.SecondFillAcceptedIff`).
- A deposit can be credited while its intent ends EXPIRED, FAILED or PENDING: exactly which steps do
  it is `DepositRaces.LosesTrackIff`.
- `canonicalJson` loses members called `__proto__`, so the audit hash does not bind them
  (`CanonicalJson.SameTextIffSame`, `AuditHash.ProtoIsNotSealed`).
- A GTD order transmitted in a later session than it was placed for outlives its date
  (`TradingDays.GoodTillDateKeptIff`).
- `src/modules/ledger/ledger.types.ts:59` calls `reverse` idempotent; the code refuses a second reversal, and the
  model follows the code (`LedgerModel.RepeatedReverseWritesNothing`).

## Assumptions

The invariant and what follows from it hold in any currency (`GoodDraft`: a listed price and fee
lines not negative). RESERVED cash is accounted for in currencies without decimals, where
`consumedReserve` rounds as the order does. File amounts may be anything in the invariant and its
equalities; only the never-refused claims ask that proceeds and costs are not negative. References
in reconciliation are trimmed, as the parser leaves them, and name one intent at most. An order's
market is that of its instrument.

## Model

| member | source | states |
|---|---|---|
| `Decimals.RoundDivNearest` | src/common/money.ts:19-21 | Rounding gives the nearest multiple, at most half a unit away, a half going away from zero. |
| `Decimals.RoundDivUnique` | src/common/money.ts:19-21 | Any value strictly within half a unit is the rounded one: together with the previous row this fixes rounding without its formula. |
| `Decimals.RoundedIsMultiple` | src/common/money.ts:12-21 | An amount is accepted as rounded exactly when it is a multiple of the currency's minor unit. |
| `Decimals.RoundDivMonotone` | src/common/money.ts:19-21 | Rounding never reverses an order between amounts. |
| `LedgerModel.RunKeepsWellFormed` | src/modules/ledger/ledger.service.ts:93-190 | Over every sequence of posts and reversals with the default guard: each transaction sums to zero, keys are unique, reversals point back and undo their original, no USER account is negative, and the log only grows (a status only goes from POSTED to REVERSED). |
| `LedgerModel.RunsVerifyClean` | src/modules/ledger/ledger.service.ts:392-413 | The invariant report is clean after every such run from an empty ledger. |
| `LedgerModel.UnbalancedCurrencyHasUnbalancedTxn` | src/modules/ledger/ledger.service.ts:393-398 | On any log at all, an unbalanced currency comes from an unbalanced transaction in it: the second query is implied by the first. |
| `LedgerModel.ReversedIffOneReversal` | src/modules/ledger/ledger.service.ts:240-280 | A transaction is REVERSED if and only if a reversal refers to it; there is exactly one, it is never reversed itself, and the pair nets to zero on every account and on the mirror. |
| `LedgerModel.ReversalNormalises` | src/modules/ledger/ledger.service.ts:158-190 | The negated entries of any stored transaction pass validation. |
| `LedgerModel.RepeatedPostWritesNothing` | src/modules/ledger/ledger.service.ts:93-113 | A key accepted once returns the first transaction and writes nothing, whatever was posted or reversed in between and whatever the new entries. |
| `LedgerModel.RepeatedReverseWritesNothing` | src/modules/ledger/ledger.service.ts:247-252 | A second reversal of the same transaction is refused and writes nothing, whatever happened in between. |
| `LedgerModel.EntriesFine` | src/modules/ledger/ledger.service.ts:169-183 | Validation passes exactly when every entry is rounded and in the transaction's currency. |
| `LedgerService.Ledger.PostIn` | src/modules/ledger/ledger.service.ts:93-155 | The method with its account, delta and guard loops returns the outcome, and leaves the log, of one atomic post; a refused post leaves no account row behind. |
| `LedgerService.Ledger.Post` | src/modules/ledger/ledger.service.ts:66-90 | Validation first, then one atomic post: result and new log as specified. |
| `LedgerService.Ledger.Reverse` | src/modules/ledger/ledger.service.ts:240-297 | Result and new log of a reversal: REVERSAL appended and original marked together, or nothing. |
| `LedgerService.Ledger.NetMovements` | src/modules/ledger/ledger.service.ts:115-117 | The delta map holds exactly the accounts touched, each with its net movement. |
| `LedgerService.Ledger.CheckFunds` | src/modules/ledger/ledger.service.ts:119-130 | True exactly when every guarded account that is debited can afford it. |
| `LedgerService.Ledger.SumAccount` | src/modules/ledger/ledger.service.ts:208-211 | The loop over all entries computes the account's balance. |
| `ConcurrentLedger.Linearizable` | src/modules/ledger/ledger.service.ts:66-155 | Every interleaving of the steps of any number of standalone posts, stops included, commits the log the same posts give one after the other in commit order; at most one transaction per key; no USER account below zero; each finished call got the answer of an atomic post at some moment between its start and its end. |
| `ConcurrentLedger.NoDeadlock` | src/modules/ledger/ledger.service.ts:102-109 | Along any chain of callers waiting for one another the global lock level strictly grows, so the waits-for relation has no cycle. |
| `ConcurrentLedger.SomeoneMoves` | src/modules/ledger/ledger.service.ts:102-109 | As long as a call is unfinished, some unfinished call waits for nobody. |
| `ConcurrentLedger.UnblockedMoves` | src/modules/ledger/ledger.service.ts:93-155 | An unfinished caller takes a step unless it waits for another. |
| `ConcurrentLedger.FrozenBalance` | src/modules/ledger/ledger.service.ts:108-130 | While a caller holds its row locks, the balances it has read stay what they were at its second look-up. |
| `ConcurrentLedger.LockIdsSorted` | src/modules/ledger/ledger.service.ts:104-109 | The rows are locked in strictly ascending id and are exactly those of the accounts touched. |
| `OrderState.TransitionsDescend` | src/modules/brokerage/order-state.ts:16-56 | Every allowed transition lowers the rank of the status, but for one more partial fill; the statuses without a way out are exactly the final ones. |
| `OrderState.AverageInRange` | src/modules/brokerage/order-state.ts:82-97 | After any fills the stored average lies between the smallest and the largest fill price. |
| `OrderState.AverageDrift` | src/modules/brokerage/order-state.ts:82-97 | After n fills the stored average is within n * 0.00005 of the exact weighted average. |
| `OrderState.FilledIffWithin` | src/modules/brokerage/order-state.ts:82-97 | A list of fills is accepted exactly when every quantity is positive and they do not exceed the order; the filled quantity is then their sum. |
| `OrderState.AverageCostMixes` | src/modules/brokerage/order-state.ts:100-109 | A position's new average cost lies between the cost held and the price paid, and is the nearest to the exact weighted mean. |
| `Fees.ComputeOrderFees` | src/modules/fees/fees.service.ts:76-83 | The loop charges every code exactly once, by its active schedule, never a zero or negative line. |
| `Fees.Latest` | src/modules/fees/fees.service.ts:107-114 | The schedule found is in force and no other one in force took effect later; none is missed. |
| `Fees.FeeWithinBounds` | src/modules/fees/fees.service.ts:117-125 | An admissible schedule keeps the fee between its rounded floor and its rounded cap. |
| `Fees.PercentageNearest` | src/common/money.ts:31-43 | Between its bounds a percentage fee is the nearest minor unit to the exact percentage. |
| `Fees.MarketBeforeGlobal` | src/modules/fees/fees.service.ts:98-115 | A schedule is found exactly when one is in force, the market's own before the global one. |
| `Fees.TotalByCode` | src/modules/brokerage/fees-json.ts:33-42 | The total of the lines is what the three codes add up to. |
| `Fees.ProrationBound` | src/modules/brokerage/order-ledger.service.ts:89-93 | However a completed order is split into n fills, the rounded commissions add up to within n/2 minor units of the placement commission. |
| `Fees.WholeFillTakesAll` | src/modules/brokerage/order-ledger.service.ts:89-93 | One fill of the whole order takes exactly the placement commission. |
| `FeesJson.FeesSurviveStorage` | src/modules/brokerage/fees-json.ts:12-40 | Fees read back from the stored JSON are, code by code, the fees the order was placed with. |
| `FeesJson.ForeignItemsSkipped` | src/modules/brokerage/fees-json.ts:16-24 | Items that are no fee lines are skipped wherever they stand. |
| `BrokerageTheorems.RunKeeps` | src/modules/brokerage/order-ledger.service.ts:37-281 | One whole-state invariant tying ledger, orders, executions, positions and intents holds over every run of the service calls in any currency, whatever their order and whatever the SDB's files contain, delivery failures included. |
| `BrokerageTheorems.NextKeeps` | src/modules/brokerage/batches.service.ts:192-410 | Each single call, accepted or refused, keeps that invariant. |
| `BrokerageRuns.ReservesBackOpenOrders` | src/modules/brokerage/order-ledger.service.ts:37-128 | After any run in which delivery failures hit only final orders: the shares a position reserves are the unfilled open sales plus the awaited ones, and in a currency without decimals a client's RESERVED balance is exactly the sum over open BUY orders of maxAmount minus what `consumedReserve` finds. |
| `BrokerageTheorems.ReservedIsOpenReserve` | src/modules/brokerage/order-ledger.service.ts:37-128 | In every reachable state, delivery failures included, and every currency without decimals: RESERVED is the open reserves plus what failures stranded, and the second part is zero exactly when no stuck order has anything left. |
| `BrokerageRuns.FailureStrandsIff` | src/modules/brokerage/settlement.service.ts:112-120 | A failed delivery of a purchase, in a currency without decimals, leaves RESERVED equal to the open reserves if and only if its order was already final or its reserve fully consumed: ADJUSTED is written without a release. |
| `BrokerageRuns.SaleFailureStrandsIff` | src/modules/brokerage/settlement.service.ts:112-131 | A failed delivery of a sale leaves a position's reserved shares equal to the open and awaited ones if and only if its order was already final; otherwise exactly the unfilled shares of that order stay reserved. |
| `BrokerageExample.StrandedRun` | src/modules/brokerage/settlement.service.ts:101-131 | Every run that places, sends and partly executes an order, bought or sold, and fails that delivery ends with a final order, nothing open, and yet cash or shares reserved. |
| `BrokerageExample.StrandedInput` | src/modules/brokerage/settlement.service.ts:101-131 | A concrete input for that run on either side: two shares at 100 XAF, one of them executed. |
| `BrokerageInvariant.ReleaseKeeps` | src/modules/brokerage/order-ledger.service.ts:100-128 | An accepted release of an order not yet released keeps the invariant's core and changes no other row; on a sale, or in a currency without decimals, it is never refused. |
| `BrokerageTheorems.PositionsAreSums` | src/modules/brokerage/order-ledger.service.ts:61-74 | A position's pending shares are the awaited purchases; its reserved shares are the unfilled open sales, the awaited sales and what failures stranded; 0 <= reserved <= held. |
| `BrokerageTheorems.ClampsNeverBite` | src/modules/brokerage/order-ledger.service.ts:223-233 | None of the GREATEST(..., 0) clamps ever changes a result: every update subtracts at most what the column holds, and equals the plain subtraction. |
| `BrokerageTheorems.MirrorEquation` | src/modules/ledger/ledger.service.ts:415-423 | In every reachable state and every currency, what clients hold is paid deposits, minus withdrawals pending or paid, minus what standing purchases cost, plus what standing sales brought in. |
| `BrokerageRuns.SettlingIsAwaitedProceeds` | src/modules/brokerage/order-ledger.service.ts:178-199 | SETTLING is the net of the client's sales that are neither settled nor failed. |
| `BrokerageRuns.SettlementNeverRefused` | src/modules/brokerage/settlement.service.ts:47-66 | Settling any execution is never refused when proceeds are not negative. |
| `BrokerageRuns.FailureNeverRefused` | src/modules/brokerage/settlement.service.ts:91-106 | Reporting a delivery failure is refused only on settled executions, when file amounts are not negative. |
| `BrokerageRuns.DeliveryEndsOnce` | src/modules/brokerage/settlement.service.ts:47-105 | SETTLED stays SETTLED and FAILED stays FAILED over every run. |
| `BrokerageRuns.ProceedsPaidOnce` | src/modules/brokerage/order-ledger.service.ts:235-281 | At most one SETTLEMENT per execution, exactly one when a sale is SETTLED, none when it FAILED; its FILL is reversed exactly when it FAILED. |
| `BrokerageRuns.WithdrawableIsPending` | src/modules/payments/payments.service.ts:327-469 | WITHDRAWABLE is the sum of the client's pending withdrawals. |
| `BrokerageLifecycle.RowStep` | src/modules/brokerage/batches.service.ts:192-410 | Every status change any call makes is in the transition table and brings the order lexicographically closer to its end; final orders are released; an order joins a batch only by transmission; only a failed delivery steps outside, to ADJUSTED; the fill counters take one execution, are recounted by a failed delivery, or stay. |
| `BrokerageRuns.LifeIsFinite` | src/modules/brokerage/order-state.ts:31-97 | Without delivery failures the number of changes of an order over any run is bounded by a measure below 5 * (quantity + 1). |
| `BrokerageRuns.FinalIsForever` | src/modules/brokerage/order-state.ts:16-22 | Without delivery failures a final order's row never changes again. |
| `BrokerageRuns.FinalStaysFinal` | src/modules/brokerage/order-state.ts:16-22 | Even with them, a final order stays final on the same terms. |
| `BrokerageRuns.ExecutedIffFilled` | src/modules/brokerage/order-state.ts:82-97 | filledQuantity is the sum of the standing executions, at most the quantity, and a real order is EXECUTED exactly when fully filled. |
| `BrokerageAverages.StoredAverage` | src/modules/brokerage/order-state.ts:82-97 | After any run, delivery failures included, the average an order stores lies between the smallest and largest price of its standing fills, and within n * 0.00005 of their exact weighted average; n is the number of fills, or 1 once a failed delivery has recounted them. |
| `BrokerageAverages.CommissionOverFills` | src/modules/brokerage/order-ledger.service.ts:85-93 | In every reachable state the commissions of the n fills of an EXECUTED order add up to within n/2 minor units of the commission it was placed with. |
| `BrokerageAcceptance.PurchaseAcceptedIff` | src/modules/brokerage/orders.service.ts:148-215 | A purchase is accepted exactly when its quantity is positive, a partner exists and AVAILABLE covers the total with its fees. |
| `BrokerageAcceptance.SaleAcceptedIff` | src/modules/brokerage/order-ledger.service.ts:61-67 | A sale exactly when the client holds that many settled shares no other sale reserves. |
| `BrokerageAcceptance.ExecutionAcceptedIff` | src/modules/brokerage/batches.service.ts:290-352 | A new execution line with rounded amounts, on a sale or in a currency without decimals, exactly when its order is open at the SDB, it does not over-fill, and what `consumedReserve` leaves covers a purchase. |
| `BrokerageAcceptance.PurchaseSums` | src/modules/brokerage/order-ledger.service.ts:132-176 | What a purchase takes from the reserve is exactly what clearing, courtage, taxes and commission get. |
| `BrokerageAcceptance.WithdrawalPendingIff` | src/modules/payments/payments.service.ts:327-391 | A withdrawal waits for its payout exactly when AVAILABLE covered it; otherwise its intent is FAILED. |
| `BrokerageAcceptance.OnlyPaidCredits` | src/modules/payments/payments.service.ts:161-194 | A confirmation posts to the ledger only on a PAID answer for an open deposit, and then exactly its DEPOSIT. |
| `BrokerageRequests.Serve` | src/modules/brokerage/orders.service.ts:148-406 | Whatever requests the two services are given one after the other, their tables end where the run of the model ends, refusals leaving no trace, and the whole-state invariant holds: the run theorems are about the classes. |
| `BrokerageFiles.AckFileKeepsIff` | src/modules/brokerage/batches.service.ts:192-250 | An ACK file, as far as it is processed, keeps the invariant if and only if no order read as TRANSMITTED has REJECTED as its first line and a later ACCEPTED; such an order is ACKNOWLEDGED again though its reserve was handed back. |
| `BrokerageFiles.AckFileRows` | src/modules/brokerage/batches.service.ts:192-250 | An ACK file moves each order of its batch by its own lines only, as far as it is processed. |
| `BrokerageFiles.AckFileCompletes` | src/modules/brokerage/batches.service.ts:192-250 | It is processed whole unless the batch holds a purchase in a currency with decimals. |
| `BrokerageFiles.AckSummaryTrueIff` | src/modules/brokerage/batches.service.ts:197-229 | Every id listed as accepted ends ACKNOWLEDGED and every id listed as rejected ends REJECTED if and only if no order of the batch read as TRANSMITTED has both an ACCEPTED and a REJECTED line. |
| `BrokerageFiles.TransmittedEnds` | src/modules/brokerage/batches.service.ts:199-237 | A transmitted order ends ACKNOWLEDGED when any line accepts it, else REJECTED when any line names it; its reserve is released exactly when its first line rejects it. |
| `BrokerageFiles.OneLinePerOrderKeeps` | src/modules/brokerage/batches.service.ts:192-250 | A file with at most one line per order keeps the invariant. |
| `BrokerageFiles.LateRejectionIsReportedOnly` | src/modules/brokerage/batches.service.ts:219-229 | The input: a REJECTED line after an ACCEPTED one changes nothing, yet the summary lists the order as rejected. |
| `BrokerageFiles.LateAcceptanceReopens` | src/modules/brokerage/batches.service.ts:204-229 | The other input: ACCEPTED after REJECTED leaves the order ACKNOWLEDGED, released, in both lists, and the invariant broken. |
| `BrokerageExample.ReopenedRun` | src/modules/brokerage/batches.service.ts:204-229 | And a run that reaches it: place, send, then that file. |
| `BrokerageFiles.ExeFileKeeps` | src/modules/brokerage/batches.service.ts:254-283 | An EXE file keeps the invariant whatever it contains. |
| `BrokerageFiles.ReplayAfterRun` | src/modules/brokerage/batches.service.ts:254-283 | Lines of a processed EXE file replayed in any selection and order, after any later calls, change nothing and create no execution. |
| `BrokerageFiles.ReplayChangesNothing` | src/modules/brokerage/batches.service.ts:298-300 | Known lines report exactly the duplicates they are of, and leave the database as it was. |
| `BrokerageFiles.ResumesAtFaultyLine` | src/modules/brokerage/batches.service.ts:261-273 | A file that stopped at line k and is processed again, whatever happened in between, does exactly what its lines from k on would do alone. |
| `BrokerageJobs.BuildBatchSplits` | src/modules/brokerage/batches.service.ts:88-137 | `buildBatch` is refused midway only by the release of a purchase in a currency with decimals. Otherwise every pending order of the partner has been rejected with its reserve handed back, or is TRANSMITTED in the batch; no other order has moved; it only fails when nothing was left to send. |
| `BrokerageJobs.ExpireStaleCompletes` | src/modules/brokerage/batches.service.ts:381-410 | `expireStale` closes and releases exactly the orders stale on their own market; only a purchase in a currency with decimals can have it refused. |
| `BrokerageJobs.SettleDueCompletes` | src/modules/brokerage/settlement.service.ts:32-85 | `settleDue` delivers exactly the due executions and, proceeds not being negative, is never refused. |
| `BrokerageService.Brokerage.PlaceOrder` | src/modules/brokerage/orders.service.ts:148-215 | The transaction commits the new order with its cash or share reserve, or leaves no trace. |
| `BrokerageService.Brokerage.Cancel` | src/modules/brokerage/orders.service.ts:235-249 | Only a PENDING order of the user: cancelled and released in one transaction, or untouched. |
| `BrokerageService.Brokerage.Review` | src/modules/brokerage/orders.service.ts:323-385 | The correction goes through the state machine: manual execution, closing with release, or a plain move. |
| `BrokerageService.Brokerage.BuildBatch` | src/modules/brokerage/batches.service.ts:79-145 | The loops reject and transmit as specified; the transmission is one transaction. |
| `BrokerageService.Brokerage.ProcessAck` | src/modules/brokerage/batches.service.ts:192-237 | The loop over the snapshot computes the specified database and summary lists. |
| `BrokerageService.Brokerage.ApplyExecution` | src/modules/brokerage/batches.service.ts:290-352 | Execution, FILL, position, counters and final release commit together or not at all. |
| `BrokerageService.Brokerage.ProcessExecutions` | src/modules/brokerage/batches.service.ts:254-273 | The loop stops at the first refused line with the specified database and lists. |
| `BrokerageService.Brokerage.ExpireStale` | src/modules/brokerage/batches.service.ts:381-410 | The loop expires the stale orders in turn and reports them. |
| `BrokerageService.Brokerage.SettleDue` | src/modules/brokerage/settlement.service.ts:32-85 | The loop settles the due executions in turn and reports them. |
| `BrokerageService.Brokerage.FailSettlement` | src/modules/brokerage/settlement.service.ts:91-131 | Reversal, counters and position rewound in one transaction, or nothing. |
| `BrokerageService.Brokerage.ReleaseRemaining` | src/modules/brokerage/order-ledger.service.ts:100-128 | What is left of the reserve is recomputed by a loop and released as specified. |
| `BrokerageService.Brokerage.PostFill` | src/modules/brokerage/order-ledger.service.ts:132-202 | Refused above the remaining reserve; otherwise the FILL is posted and linked. |
| `BrokerageService.Brokerage.ReverseFill` | src/modules/brokerage/order-ledger.service.ts:258-281 | The reversal and, for a purchase, the release of what it restored. |
| `BrokerageService.Brokerage.ConsumedReserve` | src/modules/brokerage/order-ledger.service.ts:79-82 | The loop over the executions computes the consumed reserve. |
| `SimulatedConnector.WholeFillConsumesAll` | src/modules/brokerage/connectors/simulated.connector.ts:48-79 | One full simulated fill takes exactly what placement reserved, in any currency. |
| `SimulatedConnector.WholeFillLeavesNothing` | src/modules/brokerage/connectors/simulated.connector.ts:48-79 | When that fill is accepted the order is EXECUTED; the ledger gains the FILL and no RELEASE if and only if the commission is no more than its rounding to whole units, as it always is in a currency without decimals. |
| `SimulatedConnector.AtMostTwoFills` | src/modules/brokerage/connectors/simulated.connector.ts:57-64 | A partial simulated fill is whole shares, at most half the order, and the next fill is all the rest. |
| `SimulatedConnector.SecondFillAcceptedIff` | src/modules/brokerage/connectors/simulated.connector.ts:48-79 | An order the connector splits in two, in a currency without decimals: the second fill is accepted if and only if the two fills, each with its own rounding, take no more than was reserved. |
| `SimulatedConnector.TwoHalvesTake` | src/modules/brokerage/connectors/simulated.connector.ts:57-68 | Two equal halves at a price in whole minor units take the reserve plus one minor unit for every fee that is an odd number of them. |
| `SimulatedConnector.SecondHalfAcceptedIff` | src/modules/brokerage/connectors/simulated.connector.ts:48-79 | So the second half is accepted if and only if every fee is even; otherwise the order is never completed. |
| `SimulatedConnector.OddCommissionExample` | src/modules/brokerage/connectors/simulated.connector.ts:48-79 | Such an order: a hundred shares at 100 XAF with a commission of 1 XAF. |
| `SimulatedConnector.LeftOutCurrencyIff` | src/modules/brokerage/order-ledger.service.ts:79-93 | In a currency with decimals `consumedReserve`, which rounds as XAF, agrees with what the FILL took if and only if the commission's share rounded to a whole unit. |
| `SimulatedConnector.ReleaseAcceptedIff` | src/modules/brokerage/order-ledger.service.ts:100-128 | In any currency the release of a purchase asks for what the order still holds plus the drift of those roundings, and is accepted exactly when that is nothing or RESERVED covers it: otherwise it is refused, or takes other orders' reserves. |
| `SimulatedConnector.LeftOutCurrencyExample` | src/modules/brokerage/order-ledger.service.ts:79-93 | An input on which they differ. |
| `DepositRaces.AtMostOneDeposit` | src/modules/payments/payments.service.ts:95-264 | In every interleaving of creations, confirmations, forced completions and expiries, crashes included: at most one DEPOSIT per intent, for exactly its amount, and a deposit is PAID only when it points at that transaction. |
| `DepositRaces.ConfirmHeals` | src/modules/payments/payments.service.ts:222-256 | A crash between the ledger post and the update is healed by the next confirmation, without a second post. |
| `DepositRaces.LosesTrackIff` | src/modules/payments/payments.service.ts:117-313 | From a state in which a credited deposit is PAID or some caller is about to mark it, a step leaves it neither if and only if it is the crash of the last such caller, or an unguarded write of FAILED, PENDING or EXPIRED when no such caller is left. |
| `DepositRaces.PaidIffPosted` | src/modules/payments/payments.service.ts:95-313 | In an interleaving without such a step, once every call is over, a deposit is PAID if and only if its DEPOSIT is in the ledger. |
| `DepositRaces.CreditedYetExpired` | src/modules/payments/payments.service.ts:288-313 | An input: a forced completion that crashes between its commits, then the expiry job, leave the deposit credited and its intent EXPIRED. |
| `DepositRaces.CreditedYetFailed` | src/modules/payments/payments.service.ts:184-189 | An input without a crash: the provider's FAILED answer to one call is written after a forced completion credited the deposit. |
| `DepositRaces.CreditedYetPending` | src/modules/payments/payments.service.ts:127-150 | Another: PENDING from `createDeposit`'s own request is written over the PAID of a webhook that was faster. |
| `BrokerageIntents.DepositPaidIff` | src/modules/payments/payments.service.ts:161-313 | With atomic calls, after any run, a deposit is PAID if and only if its DEPOSIT is in the ledger. |
| `BrokerageIntents.RunGrows` | src/modules/ledger/ledger.service.ts:93-155 | Over any run of the brokerage and payments calls the ledger only grows; a stored transaction changes only from POSTED to REVERSED. |
| `BrokerageIntents.PendingSoundOverRuns` | src/modules/payments/payments.service.ts:327-391 | After any run every pending withdrawal has a positive amount the ledger took. |
| `PaymentsService.SweepClosesAll` | src/modules/payments/payments.service.ts:288-323 | The expiry job closes every open deposit it was given and counts each once, as expired or as settled. |
| `PaymentsService.Payments.CreateDeposit` | src/modules/payments/payments.service.ts:95-155 | The intent and the provider's answers lead to the specified state. |
| `PaymentsService.Payments.ConfirmDeposit` | src/modules/payments/payments.service.ts:161-194 | Only a PAID answer credits; closed intents are left alone. |
| `PaymentsService.Payments.CreditDeposit` | src/modules/payments/payments.service.ts:222-264 | The post and the PAID update, or nothing when the ledger refuses. |
| `PaymentsService.Payments.ExpireStaleIntents` | src/modules/payments/payments.service.ts:288-323 | The loop leaves the specified database and both counters. |
| `PaymentsService.Payments.RequestWithdrawal` | src/modules/payments/payments.service.ts:327-391 | The reserve decides between PENDING and FAILED. |
| `PaymentsService.Payments.MarkWithdrawalPaid` | src/modules/payments/payments.service.ts:394-434 | Only a pending withdrawal is paid, once. |
| `PaymentsService.Payments.FailWithdrawal` | src/modules/payments/payments.service.ts:437-469 | Only a pending withdrawal is failed, its reserve handed back. |
| `PaymentsService.Payments.ForceComplete` | src/modules/payments/payments.service.ts:200-213 | Credits a deposit or pays a pending withdrawal as specified. |
| `ReconciliationModel.RerunPostsNothing` | src/modules/reconciliation/reconciliation.service.ts:80-137 | When no reference matches two intents, the same statement again, even after others, posts no ledger transaction, changes no intent, creates no item, and gives every line the result it had, a payout having become a match. |
| `ReconciliationModel.PaidAtMostOnce` | src/modules/reconciliation/reconciliation.service.ts:124-134 | Over any list of statements no withdrawal appears twice among the payouts, and the ledger holds at most one WITHDRAWAL for it. |
| `ReconciliationModel.PayoutNeverRefused` | src/modules/payments/payments.service.ts:394-426 | The payout of a pending withdrawal is never refused and makes it PAID. |
| `ReconciliationModel.FoundIff` | src/modules/reconciliation/reconciliation.service.ts:143-151 | When references are unambiguous, finding an intent is matching it. |
| `ReconciliationService.Reconciliation.RunDaily` | src/modules/reconciliation/reconciliation.service.ts:80-137 | The loop files every line in exactly one of matched, paid and items, as specified line by line. |
| `ReconciliationService.ListsCount` | src/modules/reconciliation/reconciliation.service.ts:85-137 | The three lists together have one entry per line. |
| `Csv.CsvRoundTrip` | src/modules/brokerage/connectors/csv.ts:72-127 | Parsing undoes printing on every table of clean fields, also after a BOM and CRLF line ends. |
| `Csv.SplitJoin` | src/modules/brokerage/connectors/csv.ts:72-75 | Splitting undoes joining when no field holds the separator. |
| `Csv.JoinSplit` | src/modules/brokerage/connectors/csv.ts:111-125 | Joining always undoes splitting. |
| `Csv.SanitizeCleans` | src/modules/brokerage/connectors/csv.ts:50-52 | Sanitised text is always a clean field, and clean fields are left alone. |
| `Csv.CrlfSameLines` | src/modules/brokerage/connectors/csv.ts:111-115 | A text without CR has the same lines with LF or CRLF ends. |
| `SdbFiles.AckRoundTrip` | src/modules/brokerage/connectors/csv.ts:141-150 | Reading an ACK file gives back the clean lines it was written from. |
| `SdbFiles.ExeRoundTrip` | src/modules/brokerage/connectors/csv.ts:152-169 | Reading an EXE file gives back the clean lines it was written from. |
| `SdbFiles.CshRoundTrip` | src/modules/brokerage/connectors/csv.ts:171-179 | Reading a CSH file gives back the clean lines it was written from. |
| `SdbFiles.OrdOneRowPerOrder` | src/modules/brokerage/connectors/csv.ts:77-92 | Whatever the clients' text, an ORD file has one row per order with exactly eleven fields, of which quantity and amount read back. |
| `SdbFiles.QuantityRoundTrip` | src/modules/brokerage/connectors/csv.ts:55-62 | A printed quantity is a numeral the parser accepts and reads back to itself. |
| `SdbFiles.NumeralClean` | src/modules/brokerage/connectors/csv.ts:136-139 | An accepted numeral holds no separator, line break or space. |
| `TradingDays.CountingUndoesStepping` | src/modules/brokerage/trading-days.ts:107-126 | From a trading day, n trading days further, the closed interval counts n + 1. |
| `TradingDays.SteppingUndoesCounting` | src/modules/brokerage/trading-days.ts:107-126 | As many steps as were counted, less one, lead to the last trading day of the interval. |
| `TradingDays.CountIsFormula` | src/modules/brokerage/trading-days.ts:121-126 | Counting day by day gives what the five-a-week formula gives. |
| `TradingDays.ComputeNextTradingDay` | src/modules/brokerage/trading-days.ts:107-111 | The loop finds the first trading day after a day. |
| `TradingDays.ComputeAddTradingDays` | src/modules/brokerage/trading-days.ts:114-118 | The loop takes n such steps. |
| `TradingDays.TradingDaysInclusive` | src/modules/brokerage/trading-days.ts:121-126 | The loop counts the trading days of the closed interval. |
| `TradingDays.ExpiresAtClose` | src/modules/brokerage/trading-days.ts:144-158 | An order expires at the close of its last session, not a minute earlier or later. |
| `TradingDays.GoodTillDate` | src/modules/brokerage/trading-days.ts:144-170 | A GTD order transmitted k sessions late expires exactly k trading days after the last trading day on or before its date. |
| `TradingDays.GoodTillDateKeptIff` | src/modules/brokerage/trading-days.ts:144-170 | The date is kept if and only if the order goes out in the session it was placed for. |
| `TradingDays.StaleAtTransmissionIff` | src/modules/brokerage/trading-days.ts:144-158 | An order is stale at transmission exactly when it has one session and goes out between that day's close and a later cut-off. |
| `TradingDays.ExpiryIsStable` | src/modules/brokerage/trading-days.ts:144-158 | With a cut-off no later than the close no order is stale when it goes out, and once stale it stays so. |
| `CanonicalJson.SameTextIffSame` | src/common/services/audit.service.ts:62-78 | Two values have the same canonical text if and only if they are equal up to the order of their keys at every depth and to members called __proto__, which rebuilding an object by assignment loses. |
| `CanonicalJson.PlainTextIffSame` | src/common/services/audit.service.ts:62-78 | Without such members the text determines the value up to key order, both ways. |
| `CanonicalJson.ProtoIsLost` | src/common/services/audit.service.ts:66-76 | An input: an object whose only member is called __proto__ has the text of the empty object. |
| `CanonicalJson.Unambiguous` | src/common/services/audit.service.ts:62-64 | A JSON text can be read in one way only. |
| `AuditHash.SameLastHashSameHistory` | src/common/services/audit.service.ts:88-103 | With an injective hash, two verified logs that end on the same hash agree on every hashed column of every row, the JSON columns up to key order and __proto__ members. |
| `AuditHash.SealingBinds` | src/common/services/audit.service.ts:88-103 | A row's hash determines its content, up to the same, and the hash before it. |
| `AuditHash.ProtoIsNotSealed` | src/common/services/audit.service.ts:88-103 | Rows that differ only in a JSON member called __proto__ have the same hash, which does not bind that member. |
| `AuditChain.AppendKeepsVerified` | src/common/services/audit.service.ts:164-192 | After an append the log verifies exactly when it did before. |
| `AuditChain.VerifiedInTwoParts` | src/common/services/audit.service.ts:198-245 | A whole verification is a verification up to a row and one from that row on. |
| `AuditChain.AuditLog.Append` | src/common/services/audit.service.ts:164-192 | Appends one sealed row under the next sequence number and keeps the log verified. |
| `AuditChain.AuditLog.VerifyChain` | src/common/services/audit.service.ts:198-245 | Page after page, from any start row, the verdict, the count and the first broken row are those of one unpaged scan. |

## Left out

- Administrative ledger adjustments and reversals (LEDGER_ADJUST, LEDGER_REVERSAL) are not calls of the brokerage runs.
- Decimal's 20-digit precision: quotients are rounded once, from the exact rational.
- The rounding that database columns would apply to file amounts finer than 10^-4.
- Policy caps, `canTrade`, `canPlaceOrder`, KYC and approvals: a denied call is a call that is not made.
- Batch rows, their states and file names: an order only carries the number of its batch.
- The order in which queries return rows: rows are taken in table order; only the position of transactions in the log depends on it.
- Account creation inside concurrent posts: the interleaving model is over accounts that exist, the class creates missing rows; a retry after a race on account creation is not modelled.
- `reverse` in the interleaving model: posts only.
- ReservesBackOpenOrders: its cash half is for currencies without decimals, since in the others `consumedReserve` does not count what the fills took (`SimulatedConnector.LeftOutCurrencyIff`).
- SecondFillAcceptedIff: for currencies without decimals, for the same reason.
- Linearizable: standalone posts; a post inside a caller's own transaction locks rows for longer than the post.
- The order of object keys in JSON text beyond array indices first and the rest sorted: characters compare as Unicode scalars.
- WDR batches, `requestReview`, recurring plans, statements, balances by kind, user statements: they add no state to the properties above.
- `mirrorCheck` and the mirror item of a reconciliation run; item workflow by the compliance desk.
- `createDeposit` and `requestWithdrawal` in simulated mode pay at once: the same calls made one after the other.
- Provider, clock and identifier generation: answers, instants and ids are parameters.
- The `Date` parsing of validity strings and settlement dates: a GTD date is a day number.
- `create` and `deactivate` of fee schedules; labels, texts, metadata, notifications, events.
- JSON numbers are the text they print as; `undefined` members, which JSON columns cannot hold, do not occur.
- Time-zone data: the market's clock is a fixed offset from UTC.
