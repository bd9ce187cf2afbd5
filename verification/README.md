# Ledger, delivery and device proofs

A Dafny model of the parts of the loyalty platform that hold money, send messages and bind devices, with proofs about
every run of them. `dafny verify dfyconfig.toml` checks the whole project.

## What is modelled

**The credit-lot ledger.** `LedgerTables` holds the rows (lots, entries, allocations, restorations, expiries).
`LotAllocation` is `LotAllocationService`; `CreditExpiry` is the expiry sweep; `Reversal` plans and applies restorations;
`LedgerOperations` has the adjustments, the redemption policy and the settlement. These are functions from one ledger to the next.
`LedgerStore` has the same services as methods over mutable tables, with their loops and rollbacks, each proved to compute
the function. `LedgerMachine` runs any sequence of transactions against a clock that never goes backwards and proves
conservation, and `EntryAccounting` proves that every entry of such a run is accounted for by the rows that name it.
`LedgerLaws` and `ReversalOutcomes` say of each transaction when it goes through and exactly which rows it leaves. `ExpiryOptimality` compares the service with any other way of choosing lots. `Calendar` is the month arithmetic
behind expiry dates, on time values as in section 21.4.1 of ECMA-262.

**The outbox.** `SmsOutbox` models one SMS event: any number of job handlers, each a sequence of separate database
calls, interleaved with each other, with the recovery cycle and with delivery reports, and free to die between any two calls.
`OutboxProgress` shows what jobs that run one at a time achieve and `JobOutcomes` what each of them does in full;
`Reservations` is about jobs that come upon a submission in progress. `DeliveryReports` adds racing pollers and their leases to the
whole of that machine. `FraudEvents` models fraud evaluation, rule by rule, under redelivery.

**Devices and sessions.** `DeviceSessions` has pairing, reset, enrolment, revocation, update, logins and refresh, each one step
because each holds the device row; `SessionRules` says who gets a session; `DeviceStore` has the same transactions as methods that change rows one after another.

**Adjustments end to end.** `AdjustmentIdempotency` runs the browser's stored identity, the server's idempotency record and
the ledger's unique correlation id together, with any number of requests in progress, lost or retried.

**Two cursors.** `ReportSweep` is the report worker's round robin; `CardPagination` is the keyset listing of issued cards;
`Arithmetic` counts their rounds.

## Main results

- Spending the earliest-expiring lots first is optimal over whole runs: if any choice of lots serves every debit, the
  service does, and it can always spend at least as much at every later instant (`EarliestExpiryIsOptimal`).
- Every run conserves every lot and every account (`ConservationOverRuns`) and balances every single entry against its
  lots, allocations, restorations and expiries (`EntriesExplainedOverRuns`); a debit followed by its restoration is the
  identity on lots (`DebitThenRestore`); the lot walk agrees with the aggregate balance (`DebitAgreesWithBalance`).
- With a provider that reserves, no interleaving of handlers and crashes has two submissions in flight, sends again
  without a recorded failure, sends again after a handler died while submitting, or sends more than five times
  (`AtMostOneSubmission`, `EverySendFollowsFailures`, `NoSendAfterDeath`), and while jobs read a reservation within its window
  only its holder dead-letters the message (`OnlyHolderDeadLetters`).
- However often fraud events are redelivered, a flag counts each event that produced it once (`CountsDistinctEvents`).
- In every reachable device state the binding mode says exactly which credentials are active, WEBAUTHN is never left,
  and sessions never outlive their credential (`DevicesStayBound`, `WebAuthnIsForGood`, `SessionsStaySound`).
- Retries of one adjustment between clears have at most one effect (`OneEffectBetweenClears`).

## What does not hold, and exactly when

- **Clamped month addition is not monotone on instants.** 30 January at noon is before 31 January at midnight; a month later
  the order is reversed (`ClampedNotMonotone`). It is kept exactly unless both days are pulled onto the last day of the target
  month while the time of day runs backwards (`ClampedMonotoneExactly`); calendar days are always kept in order (`ClampedDayMonotone`).
- **Some credit adjustments are refused by the lot table.** Its trigger insists on the clamped twelve-month expiry, and the
  adjustment service computes the overflowing one with a configured number of months. The two agree exactly when that number
  is twelve and the adjustment is not effective on 29 February (`TriggerAccepts`); 29 February 2024 is refused at any time of
  day (`LeapDayRefused`).
- **Not every accepted message is polled for a delivery report.** No write clears a failure time (`TimesAreKept`), so a retry
  that is accepted after a recorded failure leaves a SENT message that no continuation ever polls (`SentAfterFailure`,
  `AcceptedButNeverPolled`). A due message that is SENT and not delivered is polled exactly when it has never failed
  (`PolledExactlyWhenNeverFailed`).
- **Without a reservation two handlers can submit the same message at once** (`WithoutReservationTwoSubmit`).
- **At most one effect per request hash does not depend on time.** The unique correlation id alone gives it; the seven days decide
  only whether a retry is answered with the recorded response. A conflicting request whose record is not visible is
  refused, not retried (src/modules/adjustments/adjustments.service.ts:623).

## Model

| member | source | states |
|---|---|---|
| LotAllocation.EligibleLots | src/common/balance/lot-allocation.service.ts:218-239 | the locked rows are exactly the account's lots that hold something, outlive now and are not excluded, and their sum is the aggregate balance |
| LotAllocation.PlanShape | src/common/balance/lot-allocation.service.ts:307-342 | a plan covers min(need, total), uses a prefix of the rows without skipping any, numbers it consecutively, and empties every used lot but the last |
| LotAllocation.DecrementEffect | src/common/balance/lot-allocation.service.ts:286-302 | a guarded decrement that hits lowers exactly one row that satisfied its guard |
| LotAllocation.PersistEffect | src/common/balance/lot-allocation.service.ts:265-305 | persisting any plan moves each lot by exactly what the plan takes from it and never below zero, in any order of items |
| LotAllocation.ServiceIsWalk | src/common/balance/lot-allocation.service.ts:218-342 | lock, plan and persist together equal one pass over the lot table, and every guarded decrement hits its row |
| LotAllocation.WalkBalance | src/common/balance/lot-allocation.service.ts:307-342 | after a debit the balance at each later instant is min(old balance then, old balance now less the amount) |
| LotAllocation.DebitAgreesWithBalance | src/common/balance/active-balance.service.ts:65-77 | a valid debit without exclusions succeeds iff the active balance covers it, lowers that balance by exactly the amount, touches no other account and never reports a conflict |
| LotAllocation.DebitSucceedsExactlyWhenCovered | src/common/balance/lot-allocation.service.ts:113-125 | with any exclusions, success iff the amount is positive, exactly one target is named and the non-excluded balance covers it; each failure has its own error |
| LedgerLaws.SoonerLotsFirst | src/common/balance/lot-allocation.service.ts:218-239 | a debit takes only from live, non-excluded lots of its account, and from none while one that expires sooner (then was earned sooner, then has the smaller id) still holds anything |
| LedgerLaws.DebitIsRecorded | src/common/balance/lot-allocation.service.ts:265-305 | one allocation row for each lot taken from, numbered from 1, all naming the debit entry and its one target, whose amounts are exactly what each lot lost |
| LedgerLaws.ExactDebitExactly | src/common/balance/lot-allocation.service.ts:127-139 | an exact-lot debit succeeds iff its target is valid and that very lot is the account's, live and large enough; then only that lot falls; each failure has its own error |
| ExpiryOptimality.EarliestExpiryIsOptimal | src/common/balance/lot-allocation.service.ts:218-342 | over any run of credits, debits, sweeps and clock advances that some choice of lots can serve, the service serves every debit and dominates that choice at every later instant after every request |
| ExpiryOptimality.StepKeepsDominance | src/common/balance/lot-allocation.service.ts:113-125 | one request of any kind keeps the service's balances at or above the alternative's, and never fails where the alternative succeeds |
| CreditExpiry.ExpireRowsEffect | src/modules/credit-expiry/credit-expiry.service.ts:56-137 | expiring locked due rows cannot conflict, empties exactly those rows, leaves every other row as it was and changes no balance from now on |
| CreditExpiry.SweepEffect | src/modules/credit-expiry/credit-expiry.service.ts:29-166 | a committed sweep examines and reports exactly the lots and the total the ledger was debited, and no account's balance at any instant from now on moves |
| CreditExpiry.SweepsDrain | src/modules/credit-expiry/credit-expiry.service.ts:153-166 | with nothing locked, k sweeps leave no due lot iff k is at least ceil(due / batch) |
| CreditExpiry.DueLotsFirst | src/modules/credit-expiry/credit-expiry.service.ts:153-166 | a sweep takes as many due, unlocked lots as its batch holds, and none it leaves behind comes before one it takes |
| CreditExpiry.ExpireRowsRecords | src/modules/credit-expiry/credit-expiry.service.ts:74-98 | for each lot, in order, one EXPIRY debit of what was left and one expiry row dated to the lot's own expiry |
| CreditExpiry.DrainedIsSpendable | src/modules/credit-expiry/credit-expiry.service.ts:29-166 | once drained, every account holds exactly what it can spend now and nothing past its time |
| CreditExpiry.ExpireDueCredit | src/common/balance/financial-transaction-retry.ts:13-48 | with up to five attempts, the first attempt that does not conflict commits and its report is what it debited; if all conflict nothing is debited |
| Reversal.ApplyEffect | src/modules/reversals/reversals.service.ts:493-519 | applying a restoration plan raises each lot by exactly what the plan gives it and changes nothing else but restoration rows |
| Reversal.ApplySucceeds | src/modules/reversals/reversals.service.ts:493-510 | the increments all hit when every planned lot belongs to the account |
| Reversal.DebitThenRestore | src/common/balance/lot-allocation.service.ts:141-193 | restoring a debit at the same instant gives back its amount, returns the lot table to exactly what it was, and any later plan for it is refused |
| LedgerOperations.CreditAdjustmentRaises | src/modules/adjustments/adjustments.service.ts:187-349 | a credit adjustment succeeds iff positive and raises its own account's balance by the amount exactly before its lot expires |
| LedgerOperations.DebitAdjustmentLowers | src/modules/adjustments/adjustments.service.ts:187-349 | a debit adjustment succeeds iff positive and covered, and costs each later instant only what sooner lots could not pay |
| LedgerLaws.CreditAdjustmentRows | src/modules/adjustments/adjustments.service.ts:187-349 | a credit adjustment adds exactly one ADJUSTMENT credit and one full lot it created, earned at its effective date |
| LedgerLaws.DebitAdjustmentRows | src/modules/adjustments/adjustments.service.ts:187-349 | a debit adjustment adds exactly one ADJUSTMENT debit and allocations against a fresh adjustment |
| LedgerOperations.EarnRoundsUp | src/common/balance/earn-policy.ts:15-24 | the earned amount is the least integer not below rate times paid over 10000 |
| LedgerOperations.EarnBounds | src/common/balance/earn-policy.ts:15-24 | earning is monotone, at most the amount paid for rates up to 100%, and zero iff nothing was paid or the rate is zero |
| LedgerOperations.CapWithinBasket | src/common/redemption-policy.service.ts:38-42 | the percentage cap lies between zero and the basket, above zero for positive baskets and below it for negative ones |
| LedgerOperations.PolicyImpliesSettlement | src/common/balance/redemption-settlement.ts:45-149 | any amount the policy allows settles without error, net paid plus redeemed is the basket, the credit earned is bounded by net paid and by the whole basket's, and the reported balance is old minus redeemed plus earned when live |
| LedgerOperations.SettlesExactlyWhenCovered | src/common/balance/redemption-settlement.ts:53-105 | a settlement goes through iff it redeems a positive amount that basket and balance cover, at a non-negative rate |
| LedgerOperations.SettlementRows | src/common/balance/redemption-settlement.ts:62-141 | it earns the rate on exactly the net paid, rounded up; adds one REDEEM entry and, iff something was earned, one EARN entry and one full lot, earned at the purchase and good for twelve clamped months |
| LedgerLaws.RedemptionRows | src/common/balance/redemption-settlement.ts:62-105 | the redeem half posts one REDEEM debit with allocations against its redemption alone |
| LedgerOperations.AllowedExactly | src/common/redemption-policy.service.ts:38-42 | a positive amount is within the policy's maximum iff it is within the balance and the percentage of the basket |
| LedgerOperations.TruncatedTowardZero | src/common/redemption-policy.service.ts:38-42 | the percentage drops its fraction toward zero, on either side of it |
| LedgerMachine.CreditKeeps | src/modules/adjustments/adjustments.service.ts:187-349 | a credit adjustment keeps every lot and account conserved |
| LedgerMachine.DebitAdjustmentKeeps | src/modules/adjustments/adjustments.service.ts:187-349 | a debit adjustment keeps every lot and account conserved |
| LedgerMachine.SettleKeeps | src/common/balance/redemption-settlement.ts:62-141 | a settlement keeps every lot and account conserved |
| LedgerMachine.ExpiriesKeep | src/modules/credit-expiry/credit-expiry.service.ts:56-137 | a sweep keeps every lot and account conserved and expires no lot twice |
| LedgerMachine.PlannedItemsBacked | src/common/balance/lot-allocation.service.ts:150-192 | each planned restoration gives back at most what its own live allocation still has outstanding, once |
| LedgerMachine.ReverseRedemptionKeeps | src/modules/reversals/reversals.service.ts:460-519 | reversing a redemption keeps every lot and account conserved and revives no expired lot |
| LedgerMachine.ReverseCreditKeeps | src/modules/reversals/reversals.service.ts:340-403 | reversing an untouched earn keeps every lot and account conserved |
| ReversalOutcomes.ReverseCreditExactly | src/modules/reversals/reversals.service.ts:339-403 | an earn is reversed iff it is an EARN credit whose own lot is live and untouched; then exactly that lot is emptied and its account's balance falls by exactly its amount |
| ReversalOutcomes.ReverseRedemptionExactly | src/modules/reversals/reversals.service.ts:460-519 | a redemption is reversed iff it is a REDEEM debit with something owed whose lots are there, live, not over-restored and, where owed, the account's; then each lot rises by exactly what was owed |
| LedgerMachine.LotWithinOriginal | src/common/balance/lot-allocation.service.ts:265-305 | in a conserved ledger each lot holds between zero and its original amount |
| LedgerMachine.StepKeepsSound | src/common/balance/redemption-settlement.ts:62-141 | each transaction, committed or rolled back, keeps conservation and single expiry |
| LedgerMachine.ConservationOverRuns | src/common/balance/lot-allocation.service.ts:113-342 | after any run from an empty ledger: original = remaining + unrestored allocations + expiries, 0 <= remaining <= original, restorations within allocations, holding = credits - debits, at most one expiry a lot |
| EntryAccounting.StepKeepsExplained | src/common/balance/redemption-settlement.ts:62-141 | each transaction accounts for the entries it posts and disturbs no earlier entry's account |
| EntryAccounting.EntriesExplainedOverRuns | src/common/balance/lot-allocation.service.ts:265-305 | after any run a credit entry is exactly the lots it created plus what it restored, and a debit entry exactly its allocations plus its expiries |
| LedgerStore.PlanAllocations | src/common/balance/lot-allocation.service.ts:307-342 | the loop computes the plan, and fails iff the rows do not cover the amount |
| LedgerStore.PlanRestorations | src/common/balance/lot-allocation.service.ts:141-193 | the pass over the allocation rows computes the restoration plan or its refusal |
| LedgerStore.Store.PersistAllocations | src/common/balance/lot-allocation.service.ts:265-305 | the loop of guarded decrements leaves the tables the persisted plan describes, or reports the conflict |
| LedgerStore.Store.AllocateDebit | src/common/balance/lot-allocation.service.ts:113-125 | the method leaves the ledger the debit theorems are about |
| LedgerStore.Store.AllocateDebitFromExactLot | src/common/balance/lot-allocation.service.ts:127-139 | the same for a debit of one named lot |
| LedgerStore.Store.ExecuteRedemptionSettlement | src/common/balance/redemption-settlement.ts:45-149 | the statements in order compute the settlement of `SettlementRows`; a failure leaves every table as it was |
| LedgerStore.Store.CreateCreditAdjustment | src/modules/adjustments/adjustments.service.ts:187-349 | entry and lot of a credit adjustment, with the overflowing expiry date |
| LedgerStore.Store.CreateDebitAdjustment | src/modules/adjustments/adjustments.service.ts:187-349 | entry and allocations of a debit adjustment; a failure leaves every table as it was |
| LedgerStore.Store.SweepDueLots | src/modules/credit-expiry/credit-expiry.service.ts:42-147 | the loop over due lots with its counters computes the sweep; a conflict leaves every table as it was |
| LedgerStore.Store.ReverseRedemption | src/modules/reversals/reversals.service.ts:460-519 | plan, entry and loop of increments compute the reversal; a failure leaves every table as it was |
| LedgerStore.Store.ReverseEarned | src/modules/reversals/reversals.service.ts:340-403 | checks, entry and exact-lot debit compute the reversal of `ReverseCreditExactly`; a failure leaves every table as it was |
| Calendar.ClampedMeaning | src/common/balance/earn-policy.ts:111-136 | the result is in the target month, at the same time of day, on the same date or the month's last |
| Calendar.ClampedIsLater | src/common/balance/earn-policy.ts:111-136 | a positive number of months moves strictly forward |
| Calendar.ClampedDayMonotone | src/common/balance/earn-policy.ts:111-136 | the calendar day of the result is monotone in the instant |
| Calendar.ClampedMonotoneExactly | src/common/balance/earn-policy.ts:111-136 | the order of two instants is kept iff clamping does not collapse their days with the time of day reversed |
| Calendar.ClampedNotMonotone | src/common/balance/earn-policy.ts:111-136 | two instants of January 2023 whose order is reversed |
| Calendar.ClampedComposes | src/common/balance/earn-policy.ts:111-136 | adding m then n months is at most adding m + n, and equal when the first step does not clamp |
| Calendar.ClampedAgainstOverflow | src/modules/adjustments/adjustments.service.ts:532-536 | the overflowing addition is zero to three days later, and equal iff the date fits the target month |
| Calendar.TriggerAccepts | prisma/migrations/20260725_sprint_2_financial_integrity_lifecycle_closure/migration.sql:1-26 | lots earned on a receipt always carry the expiry the table derives; adjustment lots with any configured number of months do iff that number is twelve and they are not effective on 29 February |
| Calendar.LeapDayRefused | src/modules/adjustments/adjustments.service.ts:532-536 | a twelve-month credit adjustment effective at any time of 29 February 2024 does not carry the expiry the table derives |
| SmsOutbox.ClaimKeepsInv | src/jobs/outbox-worker.runtime.ts:622-643 | the compare-and-set reservation succeeds iff the row is still as read and open; then nobody held a reservation, none was orphaned and every earlier send had failed; otherwise the handler ends and nothing else changes |
| SmsOutbox.RecordKeepsInv | src/jobs/outbox-worker.runtime.ts:655-717 | recording an answer, however late, settles its own send, gives the reservation back, and leaves the message open to another reservation iff it was a retryable failure within the budget |
| SmsOutbox.StepKeepsInv | src/jobs/outbox-worker.runtime.ts:494-798 | every call of every handler, every crash, report, recovery and publish step keeps the reservation invariant |
| SmsOutbox.AtMostOneSubmission | src/jobs/outbox-worker.runtime.ts:563-798 | in every reachable state at most one submission is in flight, all sends but the last have failed, and there are at most five |
| SmsOutbox.EverySendFollowsFailures | src/jobs/outbox-worker.runtime.ts:622-655 | a step that calls send finds a recorded failure for every earlier send |
| SmsOutbox.DeadHandlerIsFinal | src/jobs/outbox-worker.runtime.ts:563-587 | from an orphaned reservation no run sends again |
| SmsOutbox.NoSendAfterDeath | src/jobs/outbox-worker.runtime.ts:563-798 | once a handler dies with a submission in flight no later step of any run sends again |
| Reservations.FreshIsLeftAlone | src/jobs/outbox-worker.runtime.ts:563-578 | a job that reads a reservation younger than the window ends with event, message and sends unchanged |
| Reservations.StaleIsClosed | src/jobs/outbox-worker.runtime.ts:579-587 | a job that reads a stale reservation, or one without a time, dead-letters message and event without a send |
| Reservations.ExhaustedClosesEvent | src/jobs/outbox-worker.runtime.ts:589-600 | a job that reads a closed message or one with five attempts dead-letters the event and leaves the message alone |
| Reservations.ResolveReads | src/jobs/outbox-worker.runtime.ts:536-555 | a job that began without a message reads the one there is by now, or creates it |
| Reservations.LostWriteCloses | src/jobs/outbox-worker.runtime.ts:718-727 | an answer that cannot be recorded, or an event write that fails after a recorded failure, dead-letters message and event without another send |
| Reservations.SecondJob | src/jobs/outbox-worker.runtime.ts:563-587 | a second job of an event being submitted dead-letters the message iff the reservation is no longer fresh |
| Reservations.OnlyHolderDeadLetters | src/jobs/outbox-worker.runtime.ts:563-798 | over any run in which reservations are read within their window, payloads are valid and event writes succeed, only the holder of the reservation dead-letters the message |
| SmsOutbox.WithoutReservationTwoSubmit | src/jobs/outbox-worker.runtime.ts:620-655 | a run of a non-reserving provider with two submissions in flight |
| SmsOutbox.SentAfterFailure | src/jobs/outbox-worker.runtime.ts:657-717 | a run in which a retryable failure and an accepted retry leave the message SENT with its failure time still set |
| SmsOutbox.TimesAreKept | src/jobs/outbox-worker.runtime.ts:1462-1500 | no step of any handler, recovery cycle or report clears a failure or delivery time |
| SmsOutbox.ReportExactly | src/jobs/outbox-worker.runtime.ts:287-343 | a report changes exactly the messages that are SENT, open and without a delivery or failure time, to DELIVERED or FAILED as it says |
| OutboxProgress.JobProgress | src/jobs/outbox-worker.runtime.ts:494-766 | a whole job settles the event or spends exactly one attempt, and sends nothing when the message is finished |
| JobOutcomes.JobOutcome | src/jobs/outbox-worker.runtime.ts:494-766 | all a whole job does, in every case of payload, message and provider's answer: status, attempts, times and category of the message, state of the event, and whether it submits |
| OutboxProgress.SettledWithinFiveJobs | src/jobs/outbox-worker.runtime.ts:494-766 | five jobs, with any recovery between them, leave the event dead-lettered or its message sent, delivered or suppressed |
| OutboxProgress.FinishedNeverSends | src/jobs/outbox-worker.runtime.ts:553-561 | once the message is finished no sequence of jobs sends again |
| OutboxProgress.RecoveryCompletes | src/jobs/outbox-worker.runtime.ts:351-380 | the next recovery cycle completes the event of a finished message without a send |
| JobOutcomes.ClaimsExactlyUnsettled | src/jobs/outbox-worker.runtime.ts:385-440 | between jobs the recovery cycle, in time, claims exactly the events that are not settled |
| JobOutcomes.NotBeforeItsTime | src/jobs/outbox-worker.runtime.ts:393-400 | a retry that is not due and a publication that is not stale are left alone |
| JobOutcomes.PublishOutcome | src/jobs/outbox-worker.runtime.ts:447-490 | a claimed event is PUBLISHED when its job was queued and FAILED, to be claimed again, when not |
| OutboxProgress.ClosedIsNeverClaimed | src/jobs/outbox-worker.runtime.ts:385-423 | a processed or dead-lettered event with no job in progress stays closed over any run: no handler starts, nothing is sent and it is never claimed |
| OutboxProgress.ProcessedIsForGood | src/jobs/outbox-worker.runtime.ts:385-423 | a processed event stays processed and is never claimed again in any run, jobs still in progress included |
| DeliveryReports.LeasesFence | src/jobs/outbox-worker.runtime.ts:253-344 | over any run of racing pollers leases strictly increase, no lease is won twice, at most one report is written and the message bears the time the provider's answer called for from then on |
| DeliveryReports.OnlyNewestHolderWrites | src/jobs/outbox-worker.runtime.ts:310-344 | a report is written only by the holder of the newest lease while the message is still SENT, and makes it DELIVERED iff the provider said delivered and FAILED iff it said failed |
| DeliveryReports.AnswerDecides | src/jobs/outbox-worker.runtime.ts:305-343 | a lease holder's fetch and write conclude the message as the provider said; no answer, a foreign one or one still on its way changes nothing |
| DeliveryReports.GrantedExactly | src/jobs/outbox-worker.runtime.ts:285-303 | a lease is granted iff the message is still to be reported on, under the provider's id and the lease that were read |
| DeliveryReports.FailedOnceIsNeverPolled | src/jobs/outbox-worker.runtime.ts:253-290 | once a failure time is set, no run of handlers, recovery cycles and pollers ever grants a lease or writes a report |
| DeliveryReports.PolledExactlyWhenNeverFailed | src/jobs/outbox-worker.runtime.ts:256-303 | for a SENT, undelivered message with a provider id and a poll due, a poller that looks wins the lease iff no failure is recorded |
| DeliveryReports.AcceptedButNeverPolled | src/jobs/outbox-worker.runtime.ts:253-303 | a run from a fresh event to such a message, which no continuation ever polls |
| DeliveryReports.PollingIsOutbox | src/jobs/outbox-worker.runtime.ts:253-344 | every run with pollers is, for event and message, a run of the outbox machine |
| DeliveryReports.OneSubmissionUnderPolling | src/jobs/outbox-worker.runtime.ts:253-344 | with a reserving provider and racing pollers at most one submission is in flight and at most five are made |
| FraudEvents.RecordFindings | src/jobs/outbox-worker.runtime.ts:1220-1290 | the loop of upserts computes the recorded flags |
| FraudEvents.CountsDistinctEvents | src/jobs/outbox-worker.runtime.ts:875-916 | over any run of deliveries, redeliveries, failures and reviews a flag's count is the number of distinct processed events that produced its key |
| FraudEvents.FindingsDoNotRepeat | src/jobs/outbox-worker.runtime.ts:955-1218 | no evaluation yields a dedupe key twice, whatever its kind and whichever rules find something |
| FraudEvents.FindsExactly | src/jobs/outbox-worker.runtime.ts:955-1218 | an event's findings are exactly the subjects its rules find |
| FraudEvents.RedeliveryIsIdle | src/jobs/outbox-worker.runtime.ts:875-916 | once an event is processed, taking all its further deliveries out of a run changes nothing |
| FraudEvents.DetectionKeepsReview | src/jobs/outbox-worker.runtime.ts:1220-1290 | over any run without a review of the flag, its review status stays, however often it is detected |
| FraudEvents.UnreviewedIsOpen | src/jobs/outbox-worker.runtime.ts:1232-1285 | a flag nobody has reviewed is OPEN in every run |
| FraudEvents.ReviewExactly | src/modules/fraud/fraud-review.service.ts:222-232 | a review sets the status of its own flag and leaves counts, other flags and processed events alone |
| DeviceSessions.PairKeepsBound | src/modules/branches/branches.service.ts:218-310 | a pairing that is allowed leaves exactly the new token active on the device; in any case every device stays bound as its mode says |
| DeviceSessions.ResetKeepsBound | src/modules/branches/branches.service.ts:312-412 | resetting keeps every device bound as its mode says |
| DeviceSessions.EnrolKeepsBound | src/modules/branches/branches.service.ts:656-771 | an enrolment that is allowed leaves exactly the new credential active on the device; in any case every device stays bound as its mode says |
| DeviceSessions.RevokeKeepsBound | src/modules/branches/branches.service.ts:823-901 | revoking a credential keeps every device bound as its mode says |
| DeviceSessions.UpdateKeepsBound | src/modules/branches/branches.service.ts:967-1207 | updating keeps every device bound, and the token-reactivation branch is unreachable |
| DeviceSessions.DevicesStayBound | src/modules/branches/branches.service.ts:218-1207 | in every reachable state DEVICE_TOKEN iff exactly one active token (else none) and then ACTIVE; active WebAuthn credentials only in WEBAUTHN mode and at most one |
| DeviceSessions.WebAuthnIsForGood | src/modules/branches/branches.service.ts:656-1207 | no run leaves WEBAUTHN mode |
| DeviceSessions.EnrolKeepsSessions | src/modules/branches/branches.service.ts:734-745 | superseding credentials leaves no active session naming an inactive one |
| DeviceSessions.RevokeKeepsSessions | src/modules/branches/branches.service.ts:823-901 | revoking a credential leaves no active session naming it |
| DeviceSessions.RefreshKeepsSessions | src/modules/auth/auth.service.ts:730-795 | a refreshed session names a live credential of its own device and its lineage stays a simple path |
| DeviceSessions.RefreshHandsOn | src/modules/auth/auth.service.ts:730-795 | a refresh hands on exactly the old session's binding, ends that session alone, and cannot be repeated |
| DeviceSessions.SessionsStaySound | src/modules/auth/auth.service.ts:316-481 | in every reachable state active sessions name active credentials of their own device, each session is rotated at most once and lineages never repeat a session |
| SessionRules.LoginExactly | src/modules/auth/auth.service.ts:282-481 | a WebAuthn login issues one session, naming exactly its device and credential, iff the assertion was verified for an eligible cashier of the device's tenant and branch on an active WEBAUTHN device with a trusted platform credential of it; else nothing changes |
| SessionRules.TokenLoginExactly | src/modules/auth/auth.service.ts:868-982 | a token login issues one session iff the token is an active one of an active DEVICE_TOKEN device and the user an eligible cashier of its tenant and branch; else nothing changes |
| SessionRules.PlainLoginExactly | src/modules/auth/auth.service.ts:1068-1117 | a login that names no credential issues one session with the binding it was given |
| SessionRules.LogoutExactly | src/modules/auth/auth.service.ts:798-812 | a logout ends exactly its session |
| SessionRules.GuardExactly | src/common/auth/session.guard.ts:234-326 | the guard accepts exactly the sessions the rows still support and, where enabled, local test sessions |
| SessionRules.RefreshExactly | src/modules/auth/auth.service.ts:693-796 | a refresh goes through iff the session is an active, unexpired user session the rows still support; then it ends and one successor with its binding begins |
| SessionRules.LoginIsHonoured | src/common/auth/session.guard.ts:289-309 | the guard accepts every WebAuthn login's session and a refresh of it goes through |
| SessionRules.TokenLoginIsHonoured | src/common/auth/session.guard.ts:311-318 | the same for token logins |
| SessionRules.EnrolThenLogin | src/modules/branches/branches.service.ts:694-745 | after an enrolment a verified login of the device's cashier with the new credential goes through |
| SessionRules.PairThenLogin | src/modules/branches/branches.service.ts:250-412 | after a pairing a login with the new token goes through, and after a reset none does with any token |
| SessionRules.DeactivatedIsClosed | src/modules/branches/branches.service.ts:967-1207 | after a deactivation no login on the device goes through |
| SessionRules.CreatedDevice | src/modules/branches/branches.service.ts:454-485 | a new device is active, unpaired and of its creator's tenant and branch |
| DeviceStore.Store.PairDeviceToken | src/modules/branches/branches.service.ts:250-310 | on success iff the device is active and unpaired or token-bound: exactly one active token, a fresh one, exactly the device's sessions ended, every other device untouched and all rows sound; on refusal nothing changes |
| DeviceStore.Store.ResetDeviceToken | src/modules/branches/branches.service.ts:335-412 | on success iff the device is active in DEVICE_TOKEN mode: no active token, the device unpaired, exactly its sessions ended, every other device untouched and all rows sound; on refusal nothing changes |
| DeviceStore.Store.CompleteDeviceEnrollment | src/modules/branches/branches.service.ts:656-771 | on success iff the device is active and a repair meets WEBAUTHN and a pairing neither WEBAUTHN nor a token: exactly one active credential, a fresh trusted one, the old one superseded, exactly the device's sessions ended, every other device untouched and all rows sound; on refusal nothing changes |
| DeviceStore.Store.RevokeCredential | src/modules/branches/branches.service.ts:823-901 | on success iff the credential is active on the device: it is revoked, no active one is left, exactly the sessions naming it end, every other row untouched and all rows sound; on refusal nothing changes |
| DeviceStore.Store.UpdateDeviceRow | src/modules/branches/branches.service.ts:967-1207 | on success iff the row is as read, only a legacy device rotates and an activated one has what its binding needs: the status asked for, UNPAIRED exactly for a deactivated token binding, sessions ended exactly on rotation or deactivation, every other device untouched and all rows sound; on refusal nothing changes |
| DeviceStore.Store.IssueSession | src/modules/auth/auth.service.ts:1068-1117 | a fresh active session with all others as they were; the rows stay sound iff the credential it names is an active one of its device |
| DeviceStore.Store.RefreshUserSession | src/modules/auth/auth.service.ts:730-795 | revoking first, checking afterwards and rolling back ends exactly the refreshed session, issues one fresh successor with its binding and keeps all rows sound, or changes nothing |
| AdjustmentIdempotency.Client.Find | apps/web/lib/adjustment-operation.ts:101-122 | the search finds the stored operation of a payload iff there is one |
| AdjustmentIdempotency.Client.Get | apps/web/lib/adjustment-operation.ts:124-160 | the stored identity inside seven days, a fresh stored one, or a refusal |
| AdjustmentIdempotency.Client.Clear | apps/web/lib/adjustment-operation.ts:162-192 | drops exactly the operation with that payload and key, or refuses and changes nothing when the stored list cannot be read |
| AdjustmentIdempotency.AtMostOneEffect | src/modules/adjustments/adjustments.service.ts:100-164 | in any run each request hash has at most one ledger effect and all its successes carry that effect's response |
| AdjustmentIdempotency.RequestOutcome | src/modules/adjustments/adjustments.service.ts:100-164 | all an undisturbed request does: a remembered key replays or refuses, an unknown one posts one effect remembered for seven days unless the ledger has its hash, and every other case is an error that posts nothing |
| AdjustmentIdempotency.CommitOutcome | src/modules/adjustments/adjustments.service.ts:430-458 | from the commit on, races included: a rejected attempt is an error; one that loses to another request posts nothing and replays the record of the same request |
| AdjustmentIdempotency.OneEffectBetweenClears | apps/web/lib/adjustment-operation.ts:124-160 | from any reachable state with a stored identity, until a clear, any number of retries add at most one ledger effect and every success carries the same response; other effects of the payload belong to requests already in progress |
| AdjustmentIdempotency.RetriesShareIdentity | apps/web/lib/adjustment-operation.ts:124-160 | no step but a clear changes a payload's stored identity, and every new request for it carries that identity |
| AdjustmentIdempotency.RunSharesIdentity | apps/web/lib/adjustment-operation.ts:124-160 | the same over whole runs without a clear |
| AdjustmentIdempotency.ClientRefusesFirst | apps/web/lib/adjustment-operation.ts:101-122 | the client reuses a key only while the server's record of it cannot have expired |
| AdjustmentIdempotency.RecordOutlivesIdentity | src/modules/adjustments/adjustments.service.ts:562-602 | inside the identity's seven days no step removes or changes its record |
| AdjustmentIdempotency.RetryIsReplayed | src/modules/adjustments/adjustments.service.ts:100-150 | a request that finds its record gets the recorded response and posts nothing |
| ReportSweep.CycleMoves | src/jobs/report-materialization.worker.ts:156-197 | a cycle rebuilds the next batch after the cursor, or the first batch from the end, and leaves the cursor on its last tenant |
| ReportSweep.NoTenants | src/jobs/report-materialization.worker.ts:156-184 | without tenants nothing is rebuilt and the next cycle starts from the beginning |
| ReportSweep.FullPass | src/jobs/report-materialization.worker.ts:131-197 | ceil(n / batch) cycles from the start rebuild each tenant once, in id order |
| ReportSweep.EveryTenantIsRebuilt | src/jobs/report-materialization.worker.ts:131-197 | from any cursor every tenant is rebuilt within ceil(n / batch) + 1 cycles |
| ReportSweep.Worker.ExecuteCycle | src/jobs/report-materialization.worker.ts:131-179 | the cycle's loop rebuilds the selected tenants in order and advances the cursor field |
| CardPagination.BeyondRow | src/modules/cards/cards.service.ts:155-170 | past the k-th row the keyset condition leaves exactly the rows after it |
| CardPagination.PageFrom | src/modules/cards/cards.service.ts:171-196 | a page is the next `limit` matching rows, and there is a cursor, standing after them, iff more rows follow |
| CardPagination.PaginationIsComplete | src/modules/cards/cards.service.ts:114-196 | following the cursor returns exactly the matching cards, once each in listing order, and ends with a null cursor after ceil(n / limit) pages |

## Left out

- HTTP, NestJS wiring, DTOs and the user interface.
- SMS providers, Redis, BullMQ and WebAuthn verification: their answers are arbitrary parameters of the steps.
- Cryptography: hashes and digests are taken as injective, and row ids as fresh numbers from one counter.
- Time zones and branch days, worker timers, approval expiry, the configuration cache, message templates and the thresholds of fraud rules.
- The audit, notification and outbox rows that ledger transactions also write, and the lookup of the system actor.
- The reversal of a paired settlement, which combines the two reversals modelled here in one transaction.
- `getActiveBalancesKobo`, which groups the aggregate of `getActiveBalanceKobo` by customer.
- Database triggers other than the one on a lot's expiry date.
- The range limit on time values, and the years 0 to 99, which Date.UTC rewrites; the month laws exclude those target years.
- Encoding of cursors and of the browser's stored list; the model holds their decoded values.
- Tables are held in the order their queries ask for, so sorting itself is not modelled; the orders are total, so there is one such listing.
- SmsOutbox.StepKeepsInv: `handleJob` is a set of steps that interleave, not one method, because its calls are not in a transaction.
- SessionRules.LoginExactly: login nonces, signature counters and session expiry times are parameters; logins that name no WebAuthn credential may bind any device.
- CreditExpiry.ExpireDueCredit: the wait between attempts is not modelled.
- ReportSweep.EveryTenantIsRebuilt: assumes a fixed set of tenants and rebuilds that succeed; a failing rebuild leaves the cursor where it was.
- CardPagination.PaginationIsComplete: assumes the table does not change between pages.
- Other cursor listings, which rest on the database client's own cursor semantics.
