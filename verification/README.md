# Verification of the money-and-record core

Maschina runs trading machines for their owners. Everything a machine is (its budget, its profit, its float) is
recomputed from an append-only record of events. This project models the code that reads and writes that record, the
lease protocol that decides who may write, the scheduler, and a few self-contained algorithms around them, and proves
what the code and its comments promise of them.

| Files | What they model |
|---|---|
| `Results`, `Arithmetic`, `Record`, `Stamps` | results and error codes; facts about quotients; the events of the record; records read back by stamp |
| `Budget`, `MachineBudget`, `BudgetLaws` | the budget's operations, the fold from events to a budget, and its laws |
| `Ledger`, `LedgerProtocol`, `LedgerSteps` | reserving, submitting, settling and releasing on one machine's row and record; every interleaving of those transactions; the row's methods as runs of that protocol |
| `LedgerRaces`, `LedgerOvertaking` | races for one budget; two runs in which an accepted reservation is lost |
| `RunQueue`, `LeaseProtocol`, `LeaseTerms`, `LeaseReading`, `LeaseSteps` | the run queue and the fenced record as mutable tables; every interleaving of their statements; what each statement asks of a row and how long a lease lasts; the record they leave, as it is read back; the tables' methods as steps of that protocol |
| `MachinePnl`, `PnlLaws`, `MachineFloat` | realised profit and averaged cost; what each trade does to them; the float, the sweep and the vault |
| `Calendar`, `Zones`, `Schedules`, `ScheduleDays`, `Scheduling` | civil dates; wall clocks over an arbitrary zone; the next occurrence of a schedule; on which days it has a slot; which occurrences are queued |
| `Json`, `Content` | JSON text with a reader for it; content text with sorted keys |
| `Confirm`, `ConfirmAnswers` | the confirmation poller; each of its answers, told by what the chain showed it |
| `Base58`, `RateLimit`, `Effects`, `Quote`, `PriceTrigger` | one module each for the algorithm of that name |

Code that works by changing things is a method or a class here, proved against a specification function; what is
promised is then proved of the specification. Amounts are unbounded integers, as `bigint` is. Moments are whole
milliseconds and durations whole seconds. In `RateLimit` the token counts are reals, where the code has
floating-point numbers.

## The record's order

The column `occurred_at` defaults to the database's `now()` (packages/db/src/schema/events.ts:33), which is the
moment the writing *transaction began*, and the record is read back by that column and then by id
(packages/db/src/read-events.ts:35-38). A reservation that waited for the machine's lock is therefore read back
*before* an outcome that was written while it waited, although it was judged after it. `Ledger` keeps the record in
replay order and inserts each event at the place of its stamp. `InsertAtEnd` shows that this is a plain append when
nothing was stamped later, which is the ordering the comments of packages/db/src/ledger.ts assume. Two events stamped
in the same moment are read in the order they were inserted, which stands for the order of their ids.

`LeaseProtocol` keeps every insert with its stamp and with whether its transaction has committed. A report is three
statements of one transaction, which has the run's row locked from the first to the commit. A claim passes such a row
over, and a renewal, finishing or another report waits for it. The fence of an append reads the row without a lock
(packages/db/src/record.ts:74-80), so an append can come between any two of them. `LeaseReading` proves of the
committed events what holds in the order they are read.

## Where the code and its documentation disagree

Each of these keeps the code as it is, with a lemma giving a concrete input and a lemma giving the exact condition.

- **An overtaken reservation is lost.** packages/db/src/ledger.ts:1-16 promises that two trades can never spend the same
  money. With the ordering above, an accepted reservation may hold nothing on replay. It can be overtaken itself
  (`LedgerOvertaking.AnOvertakenReservationIsLost`: 120 accepted out of a grant of 100, with no outcome for either
  trade), and it can be read last, held, and lost afterwards, when a transaction that began before it is written before
  it (`LedgerOvertaking.AHeldReservationIsLostLater`). In every run, an accepted reservation whose trade no other event
  names is held exactly when it fits what is free at the place where it stands
  (`LedgerProtocol.HeldExactlyWhenItFitsInEveryRun`, `Ledger.HeldExactlyWhenItFits`); one that fits stays held until its
  own outcome as long as no transaction that began before it is written after it
  (`LedgerProtocol.StaysHeldUnlessOvertaken`, `LedgerProtocol.AcceptedIsHeldUnlessOvertaken`); and when no transaction
  at all is overtaken, every one fits (`LedgerProtocol.AcceptedReservationsAreHeld`).
- **Reserving again understates what is left.** packages/db/src/ledger.ts:44-46 says the answer holds what the machine
  may still spend after the reservation. A trade that is already open and reserves again holds no more, but is told as if
  it did (`Ledger.ReservingAgainUnderstatesWhatIsLeft`). The answer is what the replay has left exactly when the trade
  was not open or costs nothing (`Ledger.AnswerTellsWhatIsLeftExactlyWhen`).
- **A repeated intent reserves again.** packages/runtime/src/machine-budget.ts:21-22 says a repeated event changes
  nothing. An intent read again after its trade's outcome spends again (`BudgetLaws.RepeatedIntentSpendsAgain`). Read
  again at any later point of a record, an outcome changes nothing exactly when no intent of its trade has opened it
  since, and an intent exactly when its trade is open there or does not fit there
  (`BudgetLaws.RepeatIsIgnoredExactlyWhen`).
- **Something is read after the end.** packages/db/src/runs.ts:177-187 ends a run with its final report, in one
  transaction, and packages/db/src/read-events.ts:4-6 takes the order of reading for the order in which the record
  accepted the events. But a report is stamped with the moment its transaction began, and an append of the same lease
  passes the fence until that transaction has committed. So a refusal can be read after the final report of its run:
  written while the report commits (`LeaseReading.AnAppendIsReadAfterTheFinalReport`, and from any state with an open
  final report `LeaseReading.AnyOpenReportCanBeOvertaken`), or before it, by a report that began early
  (`LeaseReading.AnEarlierAppendIsReadAfterTheFinalReport`). The final report is read last exactly when no fenced event
  of the run is stamped after the report's transaction began (`LeaseReading.FinalIsReadLastExactlyWhen`); it stays last
  in every continuation exactly when that is so of the inserts not yet committed too
  (`LeaseReading.ReadLastForGoodExactlyWhen`). Epochs *are* read in order (`LeaseReading.EpochsAreReadInOrder`).
- **A long outage hides the latest occurrence.** packages/runtime/src/scheduling.ts:73-74 says that all missed
  occurrences are read and only the most recent is queued. The loop stops at 500: a daily machine unchecked for 501 days
  has its latest occurrence neither reported nor queued (`Scheduling.AfterFiveHundredAndOneDaysTheLatestIsMissed`). The
  plan reports everything, and judges the latest, exactly when no more than 500 occurrences came due
  (`Scheduling.EverythingIsReportedExactlyUpToTheLimit`, `Scheduling.LatestIsJudgedExactlyUpToTheLimit`).
- **Local times in zones ahead of UTC.** packages/rules/src/schedule.ts:122-128 promises the first of two repeated
  moments and the first moment after a jump. The first guess reads the offset on the wrong side of the change: Berlin's
  02:30 slot runs at 03:31 in March and at the second 02:30 in October (`Zones.BerlinOvershootsTheJump`,
  `Zones.BerlinTakesTheLaterRepeat`). A jump of more than three hours is not walked to its end.
  `Zones.UtcForIsFirstExactlyWhen` gives the exact condition for a reading, and `Zones.PromiseKeptExactlyWhenNeverAhead`
  for a zone, whose clocks may change any number of times.
- **A landed transaction called expired.** packages/solana/src/confirm.ts:45-52 makes the blockhash the last word, and
  146-149 counts on it against an understated height. A transaction that lands between the search of the history and that
  question is declared expired all the same (`Confirm.UnderstatedHeightDeclaresALandedTransactionDead`, for every
  understated height, with and without a blockhash). The answer can be relied on exactly when the height handed in is not
  below the true expiry (`Confirm.ExpiredIsRightExactlyWhen`).
- **A landing less settled than asked for.** A status found by searching the history is answered whatever its
  commitment (packages/solana/src/confirm.ts:134-145), so `wait` binds every answer only when it asks for the least
  (`Confirm.HistoryAnswersBeforeItIsSettled`, `Confirm.SettledAsAskedExactlyWhen`).
- **Profit read twice.** packages/runtime/src/machine-pnl.ts:17-18 says the record may be read again and gives the same
  answer. An outcome written before its intent counts only the second time
  (`MachinePnls.OutcomeBeforeItsIntentCountsTheSecondTime`); the answer is the same exactly when each trade that was both
  intended and finished has an outcome after its intent (`MachinePnls.ReadingTwiceIsReadingOnce`).
- **A sweep that takes principal.** After a buy that delivered nothing a machine counts as flat while a basis remains,
  and the sweep moves more than profit (`MachineFloats.EmptyBuySweepsPrincipal`). It does so exactly when some buy on the
  record paid, delivered nothing, and has been followed by no position since
  (`MachinePnls.BasisIsLeftExactlyWhenStranded`, `MachineFloats.SweepTakesPrincipalExactlyWhenStranded`).

## Model

| member | source | states |
|---|---|---|
| `Budgets.ReserveReleaseRoundTrip` | packages/rules/src/budget.ts:25-75 | within the grant, an amount is refused exactly when it does not fit, and releasing what was reserved restores the budget |
| `Budgets.AvailableIsWhatIsLeft` | packages/rules/src/budget.ts:25-27 | what is available is what the grant exceeds the other two by, and there is such an amount exactly within the grant |
| `Budgets.SettlingFreesTheRest` | packages/rules/src/budget.ts:44-58 | a cost within a reservation that is held is settled and the rest of it freed; each refusal names its reason |
| `Budgets.CreditingFreesWhatWasSpent` | packages/rules/src/budget.ts:60-69 | what came home is taken off what was spent, never below zero, and widens nothing |
| `Budgets.HoldingAndLettingGoRefuse` | packages/rules/src/budget.ts:30-83 | too little left is a limit, more than is held is a conflict, and letting go lowers the reservation alone |
| `MachineBudgets.FoldOne` | packages/runtime/src/machine-budget.ts:65-133 | one turn of the loop, with the budget and the map reassigned, is the step of the specification, refusals of the budget operations included |
| `MachineBudgets.FoldBudget` | packages/runtime/src/machine-budget.ts:57-136 | on any record the loop returns the replayed books and never fails, so no call to reserve, settle, release or available is ever refused |
| `MachineBudgets.StepKeepsBalance` | packages/runtime/src/machine-budget.ts:65-133 | after any event `reserved` is what the open trades hold together and reserved + settled is within the grant, a lowered grant included |
| `BudgetLaws.SettledMoves` | packages/runtime/src/machine-budget.ts:92-121 | an event moves `settled` by its capped cost less what it brought home, and not below zero |
| `BudgetLaws.SpendingWithinGrant` | packages/runtime/src/machine-budget.ts:57-136 | over any record the capped costs together are at most the final grant plus everything credited back |
| `BudgetLaws.GrantTakesEffect` | packages/runtime/src/machine-budget.ts:67-74 | after a grant event, read anywhere, the grant is the larger of its amount and what was spent and held before it; nothing else moves |
| `BudgetLaws.OthersKeepTheGrant` | packages/runtime/src/machine-budget.ts:65-133 | no other event changes the grant |
| `BudgetLaws.NothingIsGrantedUnasked` | packages/runtime/src/machine-budget.ts:62 | a record without a grant event replays to a grant of nothing |
| `BudgetLaws.GrantIsTheLastOne` | packages/runtime/src/machine-budget.ts:65-74 | the replayed grant is that of the last grant event, or what was spent and held when it was read, if that was more |
| `BudgetLaws.IntentHoldsTheMostItCosts` | packages/runtime/src/machine-budget.ts:75-89 | an intent of a trade not open holds its amount and fee when it spends the budget's currency and nothing when it sells, if that fits, and remembers both mints; otherwise it changes nothing |
| `BudgetLaws.SecondOutcomeChangesNothing` | packages/runtime/src/machine-budget.ts:92-129 | a second outcome of a trade without a new intent in between changes nothing, wherever it stands in the record |
| `BudgetLaws.OpenExactlyWhenHeld` | packages/runtime/src/machine-budget.ts:65-133 | a trade is held on replay exactly when an intent of it that fitted where it stands has had no outcome since |
| `BudgetLaws.RepeatIsIgnoredExactlyWhen` | packages/runtime/src/machine-budget.ts:21-22 | an event of a trade read again at any later point changes no replay, whatever follows, exactly when it is an outcome and no intent has opened the trade since, or an intent whose trade is open there or does not fit there |
| `BudgetLaws.RepeatedIntentSpendsAgain` | packages/runtime/src/machine-budget.ts:21-22 | a record whose last trade is read again settles its cost twice, against the comment |
| `BudgetLaws.LockFreeOnlyFrees` | packages/runtime/src/machine-budget.ts:92-131 | an event written without the lock never lowers what is available, keeps the grant and opens nothing |
| `BudgetLaws.StaleSnapshotIsALowerBound` | packages/db/src/ledger.ts:67-94 | what was available in a snapshot is still available after any number of lock-free events |
| `BudgetLaws.HeldUntilItsOutcome` | packages/runtime/src/machine-budget.ts:75-129 | an open trade keeps its amount until one of its own outcomes is read |
| `BudgetLaws.ClosedStaysClosed` | packages/runtime/src/machine-budget.ts:75-129 | a trade that is not open stays so until an intent of its own is read |
| `Ledger.MachineRows.ReserveForTrade` | packages/db/src/ledger.ts:56-120 | the answer and the whole new record, for every refusal and for whatever others write between the read and the append |
| `Ledger.MachineRows.RecordSubmission` | packages/db/src/ledger.ts:265-304 | succeeds exactly when the lease is held and the record read held no submission of the trade; then that one event is added |
| `Ledger.MachineRows.SettleTrade` | packages/db/src/ledger.ts:142-161 | writes the outcome without lock or fence, at the place of its stamp |
| `Ledger.MachineRows.ReleaseTrade` | packages/db/src/ledger.ts:181-198 | writes the failure without lock or fence, at the place of its stamp |
| `Ledger.SubmissionOf` | packages/db/src/ledger.ts:315-329 | the scan finds the first submission of the trade, or there is none |
| `Stamps.InsertKeepsOrder` | packages/db/src/read-events.ts:24-50 | placing an event by its stamp keeps the record in replay order |
| `Stamps.InsertAtEnd` | packages/db/src/read-events.ts:24-50 | an event that nothing was stamped after is read last |
| `Stamps.IsReadAtItsPlace` | packages/db/src/read-events.ts:24-50 | every committed event is read, at its place |
| `Stamps.ReadInOrder` | packages/db/src/read-events.ts:4-6 | what is read in two places of the record are two committed events, and the first is stamped earlier, or in the same moment and inserted earlier |
| `Ledger.AcceptedAtTheEndIsHeld` | packages/db/src/ledger.ts:77-118 | an intent accepted from a snapshot that has since grown by lock-free events still fits, and read last it is held for exactly the amount answered |
| `Ledger.ScreenedExactlyWhen` | packages/db/src/ledger.ts:60-65 | a trade is refused outright exactly when it spends nothing or its fee allowance is negative |
| `Ledger.JudgedExactlyAs` | packages/db/src/ledger.ts:77-118 | which answer a reservation gets: too much is refused as such, a lost lease as a conflict, and what is held is amount and fee, or nothing for a sale |
| `Ledger.AnswerTellsWhatIsLeftExactlyWhen` | packages/db/src/ledger.ts:41-47 | the answer's remaining amount is what the snapshot's replay has free after the intent exactly when the trade was not open or costs nothing |
| `Ledger.ReservingAgainUnderstatesWhatIsLeft` | packages/db/src/ledger.ts:44-46 | a trade holding 40 of 100 that reserves again is told 20 are left, where 60 are |
| `Ledger.HeldExactlyWhenItFits` | packages/db/src/ledger.ts:67-119 | wherever an intent stands in a record, its trade not open before it and named by nothing after it, it is held on replay exactly when it fits what is free there, and for its whole cost |
| `Ledger.HeldExactlyWhenItFitsAtItsPlace` | packages/db/src/ledger.ts:67-119 | at the moment of insertion: a fresh intent is held on replay exactly when it fits what is free at the place of its stamp |
| `LedgerProtocol.EveryRunIsSafe` | packages/db/src/ledger.ts:56-304 | in every reachable state at most one transaction is past the lock, its snapshot is the record but for lock-free events, no trade has two submissions, and the replayed budget is within its grant |
| `LedgerProtocol.WriteKeepsOnePerTrade` | packages/db/src/ledger.ts:265-304 | no write adds a second submission for a trade: what the snapshot lacks, the record still lacks |
| `LedgerProtocol.AcceptancesFitInEveryRun` | packages/db/src/ledger.ts:56-120 | when no transaction is overtaken, every accepted intent stands in the record where it fits what is free |
| `LedgerProtocol.AcceptedReservationsAreHeld` | packages/db/src/ledger.ts:56-120 | then every accepted reservation of a trade not already open is held for exactly what was answered until its own outcome |
| `LedgerProtocol.HeldExactlyWhenItFitsInEveryRun` | packages/db/src/ledger.ts:56-120 | in every run, overtaken or not, an accepted reservation stands in the record and, if no other event names its trade, is held exactly when it fits where it stands |
| `LedgerProtocol.StaysHeldUnlessOvertaken` | packages/db/src/ledger.ts:56-120 | in every run a reservation that fits where it stands stays held until its own outcome, as long as no transaction that began before it is written after it |
| `LedgerProtocol.AcceptedIsHeldUnlessOvertaken` | packages/db/src/ledger.ts:56-120 | among transactions overtaken at will, one accepted reservation whose own write lands last is held for its cost until its own outcome, as long as no transaction that began before it is written after it |
| `LedgerSteps.TransactionRuns` | packages/db/src/ledger.ts:67-119 | taking the lock, reading, others writing without it, writing and committing is a run that leaves the record as the method's contract says |
| `LedgerSteps.ReserveSteps` | packages/db/src/ledger.ts:56-120 | reserving on the rows is such a run, and the answer is the one the run gives |
| `LedgerSteps.SubmitSteps` | packages/db/src/ledger.ts:265-304 | recording a submission on the rows is such a run, and the answer is the one the run gives |
| `LedgerSteps.SettleSteps` | packages/db/src/ledger.ts:142-161 | settling on the rows is one unlocked step of the protocol |
| `LedgerSteps.ReleaseSteps` | packages/db/src/ledger.ts:181-198 | releasing on the rows is one unlocked step of the protocol |
| `LedgerSteps.RecordKeepsTheProtocol` | packages/db/src/ledger.ts:56-304 | a record reached through the methods is in order, has one submission a trade, and replays within its grant |
| `LedgerRaces.RacersShareTheBudget` | packages/db/src/ledger.ts:67-119 | racing reservations of one cost c admit exactly min(answered, available / c) under every interleaving |
| `LedgerOvertaking.ServedAlone` | packages/db/src/ledger.ts:67-119 | a transaction nobody interleaves with is judged by the record as it stands, and its event is placed by the moment it began |
| `LedgerOvertaking.AnOvertakenReservationIsLost` | packages/db/src/ledger.ts:4-11 | a run in which accepted reservations exceed the grant while one of them holds nothing on replay |
| `LedgerOvertaking.AHeldReservationIsLostLater` | packages/db/src/ledger.ts:4-11 | a run in which a reservation read last and held is no longer held after a transaction that began before it is written |
| `RunQueue.Tables.QueueRun` | packages/db/src/runs.ts:54-93 | one row per occurrence: a new row, or the row that exists, or a refusal of a blank key |
| `RunQueue.Tables.ClaimDueRun` | packages/db/src/runs.ts:102-136 | claims an earliest due run that is free and not locked by another claim, under the next epoch, or finds none |
| `RunQueue.Tables.RenewLease` | packages/db/src/runs.ts:139-159 | succeeds exactly for the holder at the current epoch of a leased row that nobody has locked, and moves the expiry alone |
| `RunQueue.Tables.FinishRun` | packages/db/src/runs.ts:162-175 | succeeds exactly for the holder at the current epoch of a row that nobody has locked, and closes the row |
| `RunQueue.Tables.AppendEvent` | packages/db/src/record.ts:44-96 | the event is inserted, with its transaction's stamp, exactly when machine, epoch and expiry all hold at that moment; the row is not locked |
| `RunQueue.Tables.AppendOwnerEvent` | packages/db/src/record.ts:111-142 | the event is inserted without a fence, under the newest epoch among the machine's committed events |
| `RunQueue.Tables.TakeRow` | packages/db/src/runs.ts:198-215 | a report's first statement: the lease holds and the row is locked, or a conflict |
| `RunQueue.Tables.InsertReport` | packages/db/src/runs.ts:216-223 | its second: the event is inserted under the fence, or the transaction is undone |
| `RunQueue.Tables.CommitReport` | packages/db/src/runs.ts:225-231 | its last: a final report closes the run, the event joins the record and the row is free, all at once |
| `RunQueue.Tables.ReportRun` | packages/db/src/runs.ts:190-232 | the three with nothing in between: written, and closed behind a final one, exactly when the lease holds; otherwise nothing changes |
| `RunQueue.NewestEpoch` | packages/db/src/record.ts:129-130 | the largest epoch among the machine's committed events, or zero |
| `LeaseProtocol.EveryInterleaving` | packages/db/src/runs.ts:54-232 | under all interleavings of the statements, all commit orders and all clock readings: complete rows, one run per occurrence, grants in epoch order, fenced events inserted in epoch order and stamped no later than the next grant, reports under the lease they were checked for, at most one final report in the record with its run closed |
| `LeaseProtocol.OneNodePerEpoch` | packages/db/src/runs.ts:110-124 | each epoch of a run is granted once |
| `LeaseProtocol.OnlyTheGranteeActs` | packages/db/src/runs.ts:139-232 | only the node an epoch was granted to holds the row under it |
| `LeaseProtocol.FencedEventsNameAGrant` | packages/db/src/record.ts:57-81 | every fenced event was written under an epoch that was granted |
| `LeaseProtocol.OneFinalReport` | packages/db/src/runs.ts:180-231 | a run has at most one final report in the record |
| `LeaseProtocol.ReportLandsUnderItsLease` | packages/db/src/runs.ts:183-187 | when a report commits, its node holds the run under the lease it reports with and nobody was granted the run since |
| `LeaseProtocol.ClosedExactlyWhenReportedOrFinished` | packages/db/src/runs.ts:183-187 | in every run, a run is closed exactly when its final report is in the record or its node finished it |
| `LeaseProtocol.ClosedForever` | packages/db/src/runs.ts:102-232 | no statement about a closed run ever succeeds again, its row stays as it is, and no fenced event of it is inserted |
| `LeaseProtocol.FinalReportSealsTheRun` | packages/db/src/runs.ts:177-231 | after a final report is in the record no statement about the run succeeds in any continuation and no fenced event of it is inserted; one inserted before may still be committed |
| `LeaseProtocol.StaleLeaseIsRefusedForever` | packages/db/src/record.ts:8-11 | a node whose run was claimed again is refused everything under its old epoch, for good |
| `LeaseTerms.ClaimSucceedsExactlyWhen` | packages/db/src/runs.ts:117-123 | a claim succeeds exactly on an unlocked row that is due and queued, or due and leased with an expiry at or before the claimant's now |
| `LeaseTerms.ClaimTakesTheRow` | packages/db/src/runs.ts:111-115 | a claimed row is leased to the node until the moment asked for, under the next epoch, with all else as it was |
| `LeaseTerms.HolderSucceedsExactlyWhen` | packages/db/src/runs.ts:139-206 | renewing and finishing succeed exactly for the node on a leased, unlocked row under its epoch; reporting asks besides that the expiry lies ahead |
| `LeaseTerms.AppendSucceedsExactlyWhen` | packages/db/src/record.ts:70-81 | a fenced append succeeds exactly when the run is the machine's, leased under that epoch, and its expiry lies after the transaction's begin |
| `LeaseTerms.ReportIsInsertedExactlyWhen` | packages/db/src/runs.ts:216-223 | an open report is refused at its insert exactly when the lease had run out as its transaction began |
| `LeaseTerms.LeaseStays` | packages/db/src/runs.ts:102-232 | over any statements, node, epoch and expiry on a row stay until a claim or a renewal of it succeeds or it is closed |
| `LeaseTerms.ClaimedAgainExactlyWhenRunOut` | packages/db/src/runs.ts:94-101 | in every run, after a claim or renewal until some moment and no later one, the next claim succeeds exactly when that moment has come on its clock and the run is due, still leased and unlocked |
| `LeaseTerms.ReportClosesExactlyWhen` | packages/db/src/runs.ts:180-181 | a committed report closes its run exactly when it says the run was skipped or finished |
| `LeaseTerms.BlankExactlyWhenTrimmedAway` | packages/db/src/runs.ts:58-60 | an occurrence key is blank exactly when trimming it leaves nothing |
| `LeaseReading.EpochsAreReadInOrder` | packages/db/src/record.ts:8-11 | however late transactions commit, a run's fenced events are read in the order of their epochs, where an epoch is used by transactions begun after its grant |
| `LeaseReading.FinalIsReadLastExactlyWhen` | packages/db/src/runs.ts:177-231 | in every run, a run's final report is the last of its fenced events to be read exactly when none in the record is stamped after the report's transaction began |
| `LeaseReading.ReadLastForGoodExactlyWhen` | packages/db/src/runs.ts:177-231 | it is read last in every continuation exactly when no fenced event already inserted, committed or not, is stamped after the report's transaction began |
| `LeaseReading.UninterruptedIsReadLastExactlyWhen` | packages/db/src/runs.ts:190-232 | a final report that nothing interrupts is read last exactly when nothing fenced of its run in the record is stamped after it began |
| `LeaseReading.AnyOpenReportCanBeOvertaken` | packages/db/src/record.ts:70-81 | from every reachable state with a final report inserted and not committed, an append that begins while the lease lasts passes the fence and is read after the report |
| `LeaseReading.AnAppendIsReadAfterTheFinalReport` | packages/db/src/runs.ts:216-231 | a run in which a refusal written while the report commits is read after it |
| `LeaseReading.AnEarlierAppendIsReadAfterTheFinalReport` | packages/db/src/runs.ts:196-231 | a run in which a refusal inserted and committed before an uninterrupted report is read after it |
| `LeaseSteps.QueueSteps` | packages/db/src/runs.ts:54-93 | queueing on the tables is the protocol's step, and a row is made exactly when the step succeeds |
| `LeaseSteps.ClaimSteps` | packages/db/src/runs.ts:102-136 | a claim that finds a run is the protocol's step and grants the returned epoch to the node; one that finds none is no step |
| `LeaseSteps.RenewSteps` | packages/db/src/runs.ts:139-159 | renewing on the tables is the protocol's step, and succeeds exactly when it does |
| `LeaseSteps.FinishSteps` | packages/db/src/runs.ts:162-175 | finishing on the tables is the protocol's step, and succeeds exactly when it does |
| `LeaseSteps.AppendSteps` | packages/db/src/record.ts:44-96 | a fenced append to the tables is the protocol's step, and succeeds exactly when it does |
| `LeaseSteps.OwnerSteps` | packages/db/src/record.ts:111-142 | an unfenced append to the tables is the protocol's step |
| `LeaseSteps.TakeRowSteps` | packages/db/src/runs.ts:198-215 | locking the row is the protocol's step, and succeeds exactly when it does |
| `LeaseSteps.InsertReportSteps` | packages/db/src/runs.ts:216-223 | inserting the report is the protocol's step exactly when it succeeds, and otherwise undoing it is |
| `LeaseSteps.CommitReportSteps` | packages/db/src/runs.ts:225-231 | closing and committing is the protocol's step |
| `LeaseSteps.ReportSteps` | packages/db/src/runs.ts:190-232 | a report that nothing interrupts is its three steps, or leaves rows and record as they were |
| `LeaseSteps.TablesKeepTheProtocol` | packages/db/src/runs.ts:54-232 | tables reached through the methods have complete rows, one run per occurrence, at most one final report per run in the record with the run closed, and that report read last exactly when nothing fenced of the run is stamped after it began |
| `MachinePnls.CountTrade` | packages/runtime/src/machine-pnl.ts:100-123 | one counted trade updates the totals as the specification of a buy, a sale or neither says |
| `MachinePnls.FoldPnl` | packages/runtime/src/machine-pnl.ts:56-129 | the loop computes the specified fold, and nothing without a currency |
| `MachinePnls.SaleCarriesItsShare` | packages/runtime/src/machine-pnl.ts:112-119 | a sale carries away a share of the basis: never more than there is, and all of it when it closes the position |
| `PnlLaws.CountsExactlyAt` | packages/runtime/src/machine-pnl.ts:63-98 | an outcome counts exactly when its trade was intended before it and no earlier outcome of it came after an intent |
| `PnlLaws.RunsAsItsFirstIntent` | packages/runtime/src/machine-pnl.ts:68-110 | a counted trade buys or sells as the first intent of it in the record says |
| `PnlLaws.BuyMoves` | packages/runtime/src/machine-pnl.ts:104-109 | a buy adds what it paid to the basis and what it brought to the position, and realises nothing |
| `PnlLaws.SaleMoves` | packages/runtime/src/machine-pnl.ts:111-122 | a sale sells what it spent up to the position; its cost is the whole number with cost * position <= basis * sold < (cost + 1) * position; proceeds less cost are realised, and win or lose accordingly |
| `PnlLaws.OtherEventsMoveNothing` | packages/runtime/src/machine-pnl.ts:124-126 | no other event moves money or position |
| `PnlLaws.TradeIsNoted` | packages/runtime/src/machine-pnl.ts:97-102 | every counted trade adds one trade and its fee, none on paper, and nothing else adds any |
| `PnlLaws.TradesAreCounted` | packages/runtime/src/machine-pnl.ts:97-122 | over a record, trades, round trips, wins and losses are how many outcomes counted, sold, brought more than they cost and less |
| `PnlLaws.SimulatedExactlyWhen` | packages/runtime/src/machine-pnl.ts:102 | the numbers are called simulated exactly when some counted trade was on paper |
| `PnlLaws.HalfAPositionCostsHalf` | packages/runtime/src/machine-pnl.ts:9-12 | half of a position bought for 100 and sold for 60 wins 10 and leaves a basis of 50 |
| `MachinePnls.CashIsConserved` | packages/runtime/src/machine-pnl.ts:104-123 | sale proceeds less buy costs equal realised profit less basis, and neither basis nor position is ever negative |
| `MachinePnls.FlatMeansNoBasis` | packages/runtime/src/machine-pnl.ts:104-123 | when every counted buy delivered something, a flat machine has no basis |
| `MachinePnls.EmptyBuyLeavesBasis` | packages/runtime/src/machine-pnl.ts:104-109 | a buy that delivered nothing leaves a basis without a position |
| `MachinePnls.BasisIsLeftExactlyWhenStranded` | packages/runtime/src/machine-pnl.ts:104-123 | a machine that holds nothing has a basis left exactly when some counted buy paid and delivered nothing and no position has followed it since |
| `MachinePnls.DeliveringBuysStrandNothing` | packages/runtime/src/machine-pnl.ts:104-109 | where every counted buy delivers something, no basis is ever stranded |
| `MachinePnls.ReadingTwiceIsReadingOnce` | packages/runtime/src/machine-pnl.ts:63-98 | the record read twice gives the same profit exactly when every trade intended and finished has an outcome after its intent |
| `MachinePnls.OutcomeBeforeItsIntentCountsTheSecondTime` | packages/runtime/src/machine-pnl.ts:17-18 | a record that shows profit only when it is read twice, against the comment |
| `MachineFloats.ThresholdIsAFloor` | packages/rules/src/float.ts:54-59 | an owner's threshold raises what a sweep must clear and never lowers it |
| `MachineFloats.ThresholdIsItsShare` | packages/rules/src/float.ts:54-59 | the threshold is the owner's share of the float, or two in a hundred if that is more, rounded down; none without a float |
| `MachineFloats.FloatTells` | packages/runtime/src/machine-float.ts:79-102 | the line is the grant, the value what the account holds and the position cost; surplus and deficit are how far above and below; flat means no position and no open trade |
| `MachineFloats.SweptExactlyWhen` | packages/rules/src/float.ts:62-86 | a sweep is due exactly when there is a float, no position, no trade in flight on the record, and a surplus that reaches the threshold; it takes the whole surplus |
| `MachineFloats.NoCurrencyNoSweep` | packages/runtime/src/machine-float.ts:72-74 | without a currency there is no float and nothing is swept |
| `MachineFloats.BankedFrom` | packages/runtime/src/machine-float.ts:105-118 | the loop adds each sweep id once |
| `MachineFloats.VaultIsTheFirstLandings` | packages/runtime/src/machine-float.ts:104-118 | over any record the vault is the sum, over the ids of the sweeps that landed, of the amount each landed with first |
| `MachineFloats.VaultReadsTheSameTwice` | packages/runtime/src/machine-float.ts:111-112 | the vault read from a record repeated whole is the same |
| `MachineFloats.FloatFrom` | packages/runtime/src/machine-float.ts:70-102 | the float is built from both folds and the vault as specified |
| `MachineFloats.SweepTakesOnlyProfit` | packages/rules/src/float.ts:62-86 | when no basis is stranded, a due sweep is what the account holds above the float, at least the threshold; once landed the account is on its line, none is due, and account and vault together are unchanged |
| `MachineFloats.SweepTakesPrincipalExactlyWhenStranded` | packages/runtime/src/machine-float.ts:85-99 | a due sweep leaves the account on its line exactly when no buy on the record stranded its cost, and below it exactly when one did |
| `MachineFloats.EmptyBuySweepsPrincipal` | packages/runtime/src/machine-float.ts:23-26 | a record on which the sweep takes the account below its float |
| `Calendar.NumberOfDateOf` | packages/rules/src/schedule.ts:168-171 | every day number is the number of one date the calendar has |
| `Calendar.NextPageIsNextNumber` | packages/rules/src/schedule.ts:167-171 | turning the calendar's page adds one to the day number |
| `Calendar.DateOrderIsNumberOrder` | packages/rules/src/schedule.ts:162-171 | dates are ordered as their numbers are, and a date comes back from its number |
| `Calendar.DaysInMonthIsItsLength` | packages/rules/src/schedule.ts:162-163 | day 0 of the next month is the last day of the month, leap years included |
| `Calendar.DayAfterIsTheNextPage` | packages/rules/src/schedule.ts:167-171 | the carried date is the next page of the calendar, over month and year ends |
| `Calendar.DayZero` | packages/rules/src/schedule.ts:174-194 | days are counted from 1 January 1970 |
| `Calendar.WeekGoesOn` | packages/rules/src/schedule.ts:184-186 | day zero is a Thursday and each day's weekday follows the one before |
| `Zones.LocalTimeAt` | packages/rules/src/schedule.ts:90-106 | the fields are the one proper local time that stands for the minute the zone's clock shows |
| `Zones.OffsetAt` | packages/rules/src/schedule.ts:109-120 | reading the fields back as UTC measures the zone's offset |
| `Zones.FieldsCompareAsMoments` | packages/rules/src/schedule.ts:148-156 | the comparison field by field is the comparison of the moments the fields stand for |
| `Zones.UtcFor` | packages/rules/src/schedule.ts:129-160 | two guesses and the walk compute the specified moment |
| `Zones.MomentStaysClose` | packages/rules/src/schedule.ts:129-160 | in any zone the answer lies at the second guess or within three hours after it |
| `Zones.SearchAnswers` | packages/rules/src/schedule.ts:129-160 | around one clock change, the answer in every case |
| `Zones.EarliestIsFirst` | packages/rules/src/schedule.ts:122-128 | where the first moment lies that reads the wanted time or later |
| `Zones.UtcForIsFirstExactlyWhen` | packages/rules/src/schedule.ts:122-160 | around a change of whatever size the answer is that first moment exactly when the change leaves the reading alone, or the reading, taken as UTC, comes before the change and a jump lands within the three hours walked |
| `Zones.AheadOfUtcMissesOne` | packages/rules/src/schedule.ts:122-160 | a change from or to an offset ahead of UTC has a reading whose answer is not the first moment |
| `Zones.LongJumpMissesOne` | packages/rules/src/schedule.ts:143-159 | a jump of more than three hours has a reading whose answer is not the first moment |
| `Zones.PromiseKeptExactlyWhenNeverAhead` | packages/rules/src/schedule.ts:122-160 | in a zone whose clocks change any number of times, every reading is answered with its first moment exactly when no change is from or to an offset ahead of UTC and none jumps by more than three hours |
| `Zones.BerlinOvershootsTheJump` | packages/rules/src/schedule.ts:125-126 | a skipped slot that is not answered with the first moment after the jump |
| `Zones.BerlinTakesTheLaterRepeat` | packages/rules/src/schedule.ts:126-127 | a repeated slot that is answered with the later moment |
| `Schedules.AssertSchedule` | packages/rules/src/schedule.ts:43-64 | every schedule the source refuses is refused as invalid input, and no other |
| `ScheduleDays.AcceptableExactlyWhen` | packages/rules/src/schedule.ts:43-64 | a schedule is taken exactly when its zone is known, every date has its time of day, and some month has its day |
| `ScheduleDays.WhichDaysHaveASlot` | packages/rules/src/schedule.ts:174-194 | every day has a slot, or exactly those of the weekday, or exactly the day asked for or the month's last |
| `ScheduleDays.SlotIsAtItsTime` | packages/rules/src/schedule.ts:174-194 | a slot is at the schedule's hour and minute of its day |
| `ScheduleDays.WeeklySlotsAreSevenDaysApart` | packages/rules/src/schedule.ts:184-187 | after a weekly slot the next is seven days on, with none between |
| `ScheduleDays.OneSlotAMonth` | packages/rules/src/schedule.ts:32-33 | every month has exactly one slot of a monthly schedule, on its last day where it is too short |
| `ScheduleDays.SlotOfAFixedZone` | packages/rules/src/schedule.ts:129-160 | where clocks never change, a slot comes at its time of day less the offset |
| `ScheduleDays.WeekToTheMillisecond` | packages/rules/src/schedule.ts:200-217 | there the next weekly occurrence is a week later to the millisecond |
| `ScheduleDays.TheFirstMondayAtNine` | packages/rules/src/schedule.ts:184-187 | every Monday at nine in UTC, asked at the epoch, is next due on 5 January 1970 |
| `Schedules.SomeDayIsScheduled` | packages/rules/src/schedule.ts:174-194 | of any 31 days in a row one has a slot, for day, week and month schedules with month days clamped |
| `Schedules.DaysKeepTheirOrder` | packages/rules/src/schedule.ts:10-12 | where the offset varies by less than 21 hours, slots of different days come at different moments in the order of their days |
| `Schedules.ScanNeverRunsDry` | packages/rules/src/schedule.ts:203-216 | the scan of 71 days always finds a slot after the given moment, so its error is unreachable, in every zone within a day of UTC |
| `Schedules.Scan` | packages/rules/src/schedule.ts:208-213 | the loop stops at the first scheduled day whose moment is after the given one |
| `Schedules.FoundIsNext` | packages/rules/src/schedule.ts:200-217 | of the slots of all days there are, none lies between the given moment and the one found |
| `Schedules.NextOccurrence` | packages/rules/src/schedule.ts:200-217 | answers with a slot strictly after the given moment; where the zone is steady around it, with the least one |
| `Schedules.OccurrencesBetween` | packages/rules/src/schedule.ts:220-230 | occurrences in the window, oldest first, in any zone; where the zone is steady exactly all of them, or the first thousand |
| `Scheduling.PlanMachine` | packages/runtime/src/scheduling.ts:68-110 | the loops read what came due and plan it as specified for the machine's state, in any zone; where the zone is steady nothing due is missed |
| `Scheduling.EveryRunIsDescribed` | packages/runtime/src/scheduling.ts:87-105 | every planned run names its machine, its minute and its lateness in whole seconds; a running machine's skips are missed windows, a resting one's carry its state |
| `Scheduling.LatestIsQueuedExactlyInGrace` | packages/runtime/src/scheduling.ts:70-106 | a running machine's latest moment is queued exactly within its grace in seconds, an hour by default, and skipped otherwise |
| `Scheduling.EveryOccurrenceReportedOnce` | packages/runtime/src/scheduling.ts:68-110 | with no more than 500 due, a running machine's plan reports exactly the occurrences since the last check, each once and in order, and queues at most one |
| `Scheduling.TheFirstAreReported` | packages/runtime/src/scheduling.ts:71-80 | whatever the number due, a plan reports the occurrences since the last check up to the 500th, in order, and nothing else |
| `Scheduling.EverythingIsReportedExactlyUpToTheLimit` | packages/runtime/src/scheduling.ts:73-74 | every occurrence since the last check is reported exactly when no more than 500 came due |
| `Scheduling.LatestIsQueuedExactlyWithinGrace` | packages/runtime/src/scheduling.ts:98-106 | with no more than 500 due, a run is queued exactly when the latest occurrence is within its grace, and it is that one |
| `Scheduling.LatestIsJudgedExactlyUpToTheLimit` | packages/runtime/src/scheduling.ts:73-85 | the occurrence queued or skipped as the latest is the latest exactly when no more than 500 came due; past that it is the 500th |
| `Scheduling.AfterFiveHundredAndOneDaysTheLatestIsMissed` | packages/runtime/src/scheduling.ts:73-80 | a daily machine unchecked for 501 days, whose latest occurrence no plan reports |
| `Scheduling.OtherStatesQueueNothing` | packages/runtime/src/scheduling.ts:92-97 | a paused or stopped machine has none queued and all reported with its reason, every occurrence exactly when no more than 500 came due; one not started, none at all |
| `Scheduling.KeyNamesOneOccurrence` | packages/runtime/src/scheduling.ts:51-52 | where offsets are whole minutes, two occurrences share a key only if they are one moment |
| `Scheduling.ChecksJoin` | packages/runtime/src/scheduling.ts:72-81 | what comes due in two windows that meet, each short of the limit, is what comes due in both together, or continues it where one check would have stopped: none lost, none doubled |
| `Scheduling.TwoChecksReportAsOne` | packages/runtime/src/scheduling.ts:68-110 | two checks in a row report what one check at the later moment would, and more where that one would have stopped at the limit |
| `Scheduling.TwoChecksReportEverythingExactlyWhen` | packages/runtime/src/scheduling.ts:68-110 | two checks in a row report every occurrence of both windows exactly when neither window holds more than 500 |
| `Scheduling.PlanRuns` | packages/runtime/src/scheduling.ts:113-121 | the plans of many machines one after another; one schedule that is refused refuses them all |
| `Json.PrintReads` | packages/core/src/content.ts:18-50 | a printed value is read back from the front of any text that does not lengthen a number, exactly as far as it goes |
| `Json.QuotedReads` | packages/core/src/content.ts:28-29 | every string of UTF-16 units, lone surrogates included, is read back from its escaped form |
| `Json.PrintIsUniquelyDecodable` | packages/core/src/content.ts:17-50 | no two values of JSON print the same text |
| `Json.EscapedExactlyWhen` | packages/core/src/content.ts:28-29 | which units of a string stand for themselves, which seven have a short form, and that all others take four lower-case hexadecimal digits |
| `Json.WordsAreSpelled` | packages/core/src/content.ts:19-22 | null, true and false, letter by letter |
| `Content.AcceptedExactlyWhenStorable` | packages/core/src/content.ts:18-50 | exactly the storable values are accepted, and each prints as the JSON it stands for; all others are invalid input |
| `Content.PrintThenSort` | packages/core/src/content.ts:43-46 | sorting the entries before or after printing them is the same |
| `Content.SortSorts` | packages/core/src/content.ts:43 | sorting keeps the entries and puts their keys in the order of UTF-16 units |
| `Content.KeyLessExactlyWhen` | packages/core/src/content.ts:43 | one key comes before another exactly when, where they first differ, it ends or has the smaller unit |
| `Content.OrderIsUnique` | packages/core/src/content.ts:43 | entries can be put in order in only one way |
| `Content.SameTextExactlyWhenSameContent` | packages/core/src/content.ts:1-10 | two accepted values print the same text exactly when they are equal up to the order of members and undefined members |
| `Content.InsertionOrderDoesNotShow` | packages/core/src/content.ts:8-9 | the same members in any order print the same text, or are refused the same |
| `Content.TextReadsBack` | packages/core/src/content.ts:17-50 | an accepted value's text is read back, to its end, as the JSON the value stands for |
| `Content.ObjectPrints` | packages/core/src/content.ts:37-48 | the text of one object, unit by unit: its keys sorted, no space, a list inside |
| `Base58.RebaseRoundTrip` | packages/auth/src/base58.ts:12-55 | rewriting digits in another base and back is the identity, leading zeros included |
| `Base58.RebaseKeepsTheNumber` | packages/auth/src/base58.ts:12-55 | rewriting digits in another base keeps the number they stand for and how many zeros they begin with |
| `Base58.FirstDigitWeighsMost` | packages/auth/src/base58.ts:15-40 | digits are read most significant first: the first weighs the base as often as digits follow |
| `Base58.AlphabetIsInOrder` | packages/auth/src/base58.ts:8-9 | the alphabet is every digit and letter but 0, I, O and l, each once, in the order of their codes |
| `Base58.DecodeEncoded` | packages/auth/src/base58.ts:12-55 | every byte string comes back from its text |
| `Base58.EncodeDecoded` | packages/auth/src/base58.ts:12-55 | every text over the alphabet comes back from its bytes, and any other text is refused |
| `Base58.EncodeBase58` | packages/auth/src/base58.ts:12-30 | the three loops compute the specified text |
| `Base58.DecodeBase58` | packages/auth/src/base58.ts:33-55 | the three loops compute the specified bytes or the refusal |
| `RateLimit.Limiter.Handle` | packages/service/src/rate-limit.ts:27-52 | one request: the answer with its header, and the whole new state of the buckets |
| `RateLimit.WaitingRestores` | packages/service/src/rate-limit.ts:35-39 | a bucket gains the rate for every second since it was touched, up to its capacity, and a client never seen has it full |
| `RateLimit.AdmissionTakesOneToken` | packages/service/src/rate-limit.ts:41-49 | a request is admitted exactly when there is a whole token, and then takes one; refused it takes none |
| `RateLimit.EvictionIsInvisible` | packages/service/src/rate-limit.ts:30-36 | when the idle time fills a bucket and the clock does not run back, forgetting changes no answer |
| `RateLimit.EvictionIsInvisibleExactlyWhen` | packages/service/src/rate-limit.ts:30-36 | for a whole capacity, forgetting is invisible under every timing exactly when the idle time fills a bucket |
| `RateLimit.AdmissionsAreBounded` | packages/service/src/rate-limit.ts:35-50 | in any interval a client is admitted at most its capacity plus what the interval restores |
| `RateLimit.RetryAfterIsEnough` | packages/service/src/rate-limit.ts:42-46 | a refused client that waits the seconds it was told has a token again, exactly when the capacity is at least one |
| `RateLimit.RetryAfterIsLeast` | packages/service/src/rate-limit.ts:43 | a second less than it was told and it would be refused again |
| `Confirm.ConfirmSignature` | packages/solana/src/confirm.ts:100-179 | the polling loop answers what the first round to stop answers, on any chain and clock on which some round answers or uses up the time |
| `ConfirmAnswers.AnsweredExactlyWhen` | packages/solana/src/confirm.ts:118-178 | the call answers exactly what the first round with something to say makes of the status, height, history and blockhash it was shown, or unknown when the time is used up first |
| `ConfirmAnswers.RecentLandingIsSettled` | packages/solana/src/confirm.ts:125-127 | a landing answered from a recent status is at least as settled as asked |
| `ConfirmAnswers.UnsettledLandingIsFromTheHistory` | packages/solana/src/confirm.ts:129-145 | one less settled than asked comes only when the recent status was absent and the height past the limit, from the history |
| `ConfirmAnswers.UnsettledRoundIsNoAnswer` | packages/solana/src/confirm.ts:121-175 | a round that sees an error-free status not settled enough ends the call only by timeout, as unknown |
| `ConfirmAnswers.SettledIsAnsweredAtOnce` | packages/solana/src/confirm.ts:121-127 | a status with an error, or settled enough, is answered in the round that sees it, with its own slot |
| `Confirm.ExpiredMeansNever` | packages/solana/src/confirm.ts:129-165 | with a height at or past the true expiry, a transaction called expired has not landed and never will, whatever the chain does between questions |
| `Confirm.ExpiredIsRightExactlyWhen` | packages/solana/src/confirm.ts:129-165 | "expired" is said only of what never lands, on every lawful chain, exactly when the height handed in is not below the true expiry, with or without a blockhash |
| `Confirm.ExpiredByBlockhashIsRightExactlyWhen` | packages/solana/src/confirm.ts:146-158 | of one call with a blockhash, "expired" was right exactly when nothing landed between the search of the history and the question about the blockhash |
| `Confirm.UnderstatedHeightDeclaresALandedTransactionDead` | packages/solana/src/confirm.ts:146-158 | for every request with an understated height, a lawful chain on which a landed transaction is called expired |
| `Confirm.AnswersAreTrue` | packages/solana/src/confirm.ts:119-145 | "landed" and "failed" are said only of a transaction that is there, with its own slot and error, from then on |
| `Confirm.SettledAsAskedExactlyWhen` | packages/solana/src/confirm.ts:83-84 | every answer is as settled as asked for, on every chain, exactly when the least was asked for |
| `Confirm.HistoryAnswersBeforeItIsSettled` | packages/solana/src/confirm.ts:134-145 | a lawful chain on which a processed transaction is answered as landed whatever was asked for |
| `Confirm.RoundsAreBounded` | packages/solana/src/confirm.ts:169-177 | when each sleep lasts at least the interval, the loop ends and its rounds are bounded by the timeout over the interval |
| `Effects.Totals` | packages/solana/src/derive-effects.ts:56-62 | the map holds each mint once, in the order first seen, with the sum of its accounts |
| `Effects.MovedListsEachChangeOnce` | packages/solana/src/derive-effects.ts:71-83 | the list names exactly the mints that changed, each once, with the whole change |
| `Effects.EffectsFrom` | packages/solana/src/derive-effects.ts:71-83 | the loops compute the specified effects |
| `Effects.EffectsAccountForEverything` | packages/solana/src/derive-effects.ts:64-83 | applied to the totals before, the listed changes give the totals after, for every mint and for SOL |
| `Effects.GainIsMeasured` | packages/solana/src/derive-effects.ts:98-101 | the gain is what the wallet holds more of the token, wrapped and native SOL counted as one |
| `Effects.AcceptedExactlyWhen` | packages/solana/src/derive-effects.ts:125-179 | a swap is accepted exactly when the wallet itself shows the claimed spending, the minimum received, no third token fallen and SOL within its allowance |
| `Effects.RefusedForTheFirstThatIsSo` | packages/solana/src/derive-effects.ts:139-176 | which refusal a swap gets, told by what the wallet itself spent, received and lost |
| `Quote.FloorFallsWithSlippage` | packages/rules/src/quote.ts:69-71 | more slippage never raises the floor, past 10 000 basis points too |
| `Quote.FloorIsWhatSlippageLeaves` | packages/rules/src/quote.ts:69-71 | the floor is the quoted amount less the slippage in basis points, rounded towards zero, negative past 10 000 |
| `Quote.RefusedByTheFirstRuleItBreaks` | packages/rules/src/quote.ts:73-118 | a quote is refused by the first of cap, floor and price impact that it breaks, and allowed exactly when it breaks none |
| `Quote.SignedTradeKeepsTheOwnersTerms` | packages/rules/src/quote.ts:73-118 | an allowed quote and an accepted swap together: the claimed input left, at least the floor at the owner's own cap arrived, no third token fell and SOL paid no more than allowed |
| `PriceTrigger.StateRemembers` | packages/runtime/src/price-trigger.ts:59-94 | after any prices the state says exactly whether one was seen, whether the level is armed, and when it last fired |
| `PriceTrigger.FiresExactlyWhen` | packages/runtime/src/price-trigger.ts:59-94 | a price fires exactly when it is past the level, something armed it since the last firing, and the gap has passed |
| `PriceTrigger.SidesOfTheLevel` | packages/runtime/src/price-trigger.ts:46-54 | a level is reached at it or past it in its direction; clear means on the far side by more than the hysteresis' share of the level |
| `PriceTrigger.WatchedExactlyWhen` | packages/runtime/src/price-trigger.ts:60-67 | a level is watched exactly when it is above zero and neither hysteresis nor gap is below; anything else is invalid input |
| `PriceTrigger.FiresByThePricesExactlyWhen` | packages/runtime/src/price-trigger.ts:59-94 | the same condition told by the prices, the level and the gap alone |
| `PriceTrigger.FiringIsACrossing` | packages/runtime/src/price-trigger.ts:7-8 | a firing is never on the first price and follows one on the far side |
| `PriceTrigger.ClearBetweenFirings` | packages/runtime/src/price-trigger.ts:9-10 | between two firings some price was clear of the level by the margin |
| `PriceTrigger.GapBetweenFirings` | packages/runtime/src/price-trigger.ts:11 | any two firings are at least the minimum gap apart |

## Left out

- LedgerProtocol.AcceptedReservationsAreHeld: holds under the condition that no transaction is overtaken by a later stamp; without it the promise is false, and the exact condition for one reservation in any run is `LedgerProtocol.HeldExactlyWhenItFitsInEveryRun`.
- LedgerProtocol.AcceptancesFitInEveryRun: asks for the same; `LedgerProtocol.StaysHeldUnlessOvertaken` asks it only of transactions that began before the one in question.
- Ledger.HeldExactlyWhenItFitsAtItsPlace: speaks of the record as it is at the insertion; `Ledger.HeldExactlyWhenItFits` and `LedgerProtocol.HeldExactlyWhenItFitsInEveryRun` speak of what it becomes.
- Schedules.NextOccurrence: the answer is proved least only where the zone's offset varies by less than 21 hours from six days before to forty days after; a zone that crosses the date line inside that window is not covered.
- Schedules.FoundIsNext: asks for that steadiness.
- Schedules.OccurrencesBetween: without that steadiness over the window, that none is missed is not promised; the same of `Scheduling.PlanMachine` and `Scheduling.PlanRuns`.
- Zones.UtcForIsFirstExactlyWhen: one change, in whole minutes, within two days of the reading; older offsets with seconds are not covered, nor two changes within four days.
- Zones.PromiseKeptExactlyWhenNeverAhead: asks that of the zone's changes.
- Scheduling.TwoChecksReportAsOne: each check stays below the limit of 500; what happens at it is `Scheduling.TwoChecksReportEverythingExactlyWhen`.
- Scheduling.KeyNamesOneOccurrence: the key is the minute as a number; the text of the ISO form is not spelled out.
- Effects.MovedListsEachChangeOnce: the order of the list is the order of insertion, which is how a map is walked.
- Content.SameTextExactlyWhenSameContent: a number is its printed text, so that distinct numbers print distinct texts is taken from the language.
- Content.AcceptedExactlyWhenStorable: sparse arrays and cyclic values are not modelled, and the path in the error's message is not.
- Confirm.RoundsAreBounded: each sleep is taken to last at least as long as it was asked to; a clock that stands still can keep the loop from ending.
- RateLimit.RetryAfterIsEnough: the client makes no request in between, and no sweep falls in between.
- LedgerProtocol.EveryRunIsSafe: an outcome is stamped, inserted and visible in one instant. An outcome's statement that begins before a reservation reads the record and commits after the reservation's write has no run here; the event is then read at an earlier place than this protocol gives it.
- LedgerProtocol.HeldExactlyWhenItFitsInEveryRun: speaks of runs with such instantaneous outcomes; `Ledger.HeldExactlyWhenItFits` is about any record, however it came about.
- Confirm.ExpiredByBlockhashIsRightExactlyWhen: speaks of one call with a blockhash and of an instant inside it; the condition a caller can check is `Confirm.ExpiredIsRightExactlyWhen`.
- LeaseReading.EpochsAreReadInOrder: takes it that no transaction uses an epoch before it was granted, which no node can know; the database does not check it.
- RunQueue.Tables.RenewLease: called once no report has the row locked, as the statement waits until then; the same of `RunQueue.Tables.FinishRun`, `RunQueue.Tables.TakeRow` and `RunQueue.Tables.ReportRun`.
- RunQueue.Tables.ReportRun: as one method it is a report that nothing interrupts; its statements interleaved with others are `TakeRow`, `InsertReport` and `CommitReport`.
- The database: SQL text, isolation levels and deadlocks; each statement is atomic and reads what has committed, and a row lock excludes until its transaction ends. A connection may fail: a transaction of the lease protocol may be undone at any step or never commit.
- Event payload checks and the parsing of amounts; events enter the model with their amounts already whole numbers.
- The time-zone database and the formatter's output; a zone is any function from moments to offsets within a day of UTC.
- Years 0 to 99, which `Date.UTC` moves to the twentieth century, and moments beyond the range of `Date`.
- Paper machines write intents without the row lock; the ledger's interleavings are those of a live machine.
- `didItLand`, which reads the status before the height and has no second look.
- A chain that forks: a transaction that has landed stays, and a node's history lacks nothing that has landed.
- The daily cap, the lifecycle's transition table, retirement, token screening and the other single-branch rules of packages/rules.
- The reasons a quote or a swap is refused with, beyond which rule refused it, and whether the refusal pauses the machine.
- Floating-point rounding in the rate limiter, and the response headers beyond their values.
- The SHA-256 of a content id; the model stops at the canonical text.
- The user interfaces, web routes, price and router clients, mail, sign-in and cryptography.
