# A Dafny model of VeloceSport's billing and live-match logic

The project models the parts of the VeloceSport backend in which many calls have to keep one promise
together, and proves those promises over every input and every run.

- **Billing calendar** (`Calendar`, `DateText`, `BillingPeriod`, `AnnualCharge`). Each academy has a billing
  day from 1 to 31, clamped in short months. The calendar follows the day arithmetic of section 21.4.1 of
  ECMA-262; dates are compared as printed text, as the code does (RFC 3339, sections 5.1 and 5.6). The
  anchored periods tile time, do not drift, and carry one annual charge a year.
- **Invoice generation** (`InvoiceGeneration`, `InvoiceRuns`). Check-then-create over an invoice table, and
  what any sequence of requests leaves in it.
- **Dunning** (`Dunning`, `DunningRuns`, `DunningRules`, `DunningInterleaving`, `DunningRefinement`). The
  overdue-invoice job as loops over the two tables it updates, as one step among payments, cancellations,
  reactivations and the manual action, and statement by statement with several replicas at once and with
  runs that fail at any statement. `DunningRules` says in instants and statuses when an invoice is warned and
  an academy suspended; `DunningRefinement` proves that the statements, uninterrupted, are the one step.
- **Match clock and correction window** (`MatchClock`, `MatchCorrection`). A clock rebuilt from a stored
  start instant, with a bound on its error over whole runs.
- **Live match** (`LiveMatch`, `LiveMatchService`, `LiveMatchRuns`, `LiveMatchActions`,
  `LiveMatchAttendance`, `LiveMatchClockRuns`, `LiveMatchClosed`, `LiveMatchRules`). Match status,
  attendance, actions, notifications and clock in one set of tables. `LiveMatch` says what each service call
  does to them, `LiveMatchService` proves the services against it, `LiveMatchRules` says column by column
  when a call is accepted and what it stores, the other modules prove what holds over runs of calls.
- **Algorithms** (`VoiceCapture`, `Password`, `BulkCreate`, `CoachAnalysis`). Numbers in a spoken phrase,
  the temporary-password shuffle, bulk creation, and the totals of a player's analysis.

`Results` and `Basics` hold what the modules share. `dafny verify dfyconfig.toml` checks everything.

## How the source is read

- A table is a map or a sequence of rows and one SQL statement is one atomic step. Tables that a service
  updates are fields of a class, and its methods are proved against a function of the old tables. Where a
  SELECT orders its rows, the model leaves the order open: the results hold for every order.
- The database is MySQL 8.0 (`docker-compose.yml`). By its reference manual a single-table UPDATE carries out
  its assignments from left to right, and an expression reads the values already assigned.
- The keys assumed of the database are those of its migrations: the unique keys of attendance
  (migration 013), of client action ids (015) and of recipient and action (018), and the foreign key of
  notifications that is set to NULL when an action is deleted (018). The runs start from empty tables, so
  for the live match the uniqueness is also proved of the services themselves.
- Answers of code outside the model (catalogue, settings, category rules, schema validation, roles) are
  arguments of the calls, and so are the clock and random bytes.
- Money is counted in whole cents, and ratios are exact rationals.

## Results that contradict an expectation

Each has a concrete witness and the exact condition under which the promise holds.

- A schedule is meant to be used up by the suspension it causes. After a suspension, the live schedules of
  the academy keep coming from later warnings exactly when the manual action revives none that is older
  (`DunningRuns.SchedulesStayNewIff`). Otherwise one warning can suspend twice
  (`StaleScheduleSuspendsAgain`). Across replicas this also needs the named lock
  (`DunningInterleaving.SchedulesStayNewIff`, `ReplicasWithoutLockSuspendTwice`).
- A payment made while the suspension loop is at work does not stop it: `SuspendedWhileOwingIff` says
  exactly when the suspended academy still owes something, and `PaymentTooLate` is a run in which it does not.
- A run that fails between using up a schedule and suspending is not made good by the next one
  (`UsedUpIsSuspendedIff`, `FailedRunIsNotRepeated`, `FailureLosesSuspension`).
- An invoice whose payment is withdrawn after its warning is out of the job's reach; only the manual action
  makes it overdue again (`OverdueAgainIff`, `WithdrawnPaymentIsNotChased`).
- An immediate undo is meant to void the notifications of the action. It deletes the action first, and the
  foreign key clears the reference that the voiding looks for (`UndoKeepsLinksIff`, `UndoLeavesNotification`).
  It also frees the client action id (`RetryAfterUndoRegistersAgain`).
- Jersey numbers of present players stay distinct as long as nobody with saved attendance changes category:
  a player who has left is not on the checked list (`SaveKeepsNumbersDistinct`, `MovedPlayerKeepsNumber`).
- Finishing a match is meant to stop its clock as a pause does. The UPDATE resets the running flag before its
  CASE reads it, so the running stretch is not added: the stored clock is that of a pause if and only if
  there is no full second to add (`FinishIsPauseIff`, `FinishLosesHalf`).
- A cancelled match keeps its clock running if and only if it ran before (`CancelledClockRunsIff`,
  `CancelledWhileRunning`).
- "twenty five" is heard as two numbers, as are all English compounds (`CompoundsAreNotRead`).
- The word "constructor" is heard as a number that is none, because the tables are plain objects
  (`SpansAreNumbersIff`). Said before every number it is taken for the jersey (`InheritedNameHidesJersey`).

## Model

| member | source | states |
|---|---|---|
| Calendar.LastDayIsMonthLength | apps/backend/src/services/billing-period.service.ts:25-27 | day 0 of the next month, by the day arithmetic of ECMA-262, is the last day of the month |
| Calendar.MonthLengths | apps/backend/src/services/billing-period.service.ts:25-27 | the computed length is 31 in months 1, 3, 5, 7, 8, 10, 12, is 30 in 4, 6, 9, 11, and 28 or 29 in February by the leap rule |
| Calendar.FirstOfMonth | apps/backend/src/services/billing-period.service.ts:29-33 | the first of each month lies 0, 31, 59, 90, ... days after 1 January, and one more after February in a leap year |
| Calendar.FirstOfYear | apps/backend/src/services/billing-period.service.ts:29-33 | years of 365 or 366 days follow each other, with day 0 on 1 January 1970 |
| Calendar.DayNumberOfFromDayNumber | apps/backend/src/services/billing-period.service.ts:29-33 | every day number names a real date, and that date has that day number |
| Calendar.FromDayNumberOfDayNumber | apps/backend/src/services/billing-period.service.ts:29-33 | the way back: a date is recovered from its day number |
| Calendar.DayNumberOrder | apps/backend/src/services/billing-period.service.ts:29-33 | earlier in the calendar if and only if the day number is smaller |
| DateText.ParseOfFormat | apps/backend/src/services/billing-period.service.ts:35-42 | reading a printed date gives the date back |
| DateText.YearOfFormat | packages/shared/src/plan-pricing.ts:75-77 | the first four characters of a printed date with a four-digit year are its year |
| DateText.TextOrderIsTimeOrder | apps/backend/src/services/billing-period.service.ts:111-118 | for four-digit years the order of two printed dates is their order in time |
| DateText.TextLessIsTotal | apps/backend/src/services/billing-period.service.ts:111-118 | comparing texts is a strict total order, a prefix before what goes on from it |
| DateText.UnpaddedYearBreaksOrder | apps/backend/src/services/billing-period.service.ts:40-42 | years are printed unpadded, which bounds the previous row: the pair 0999 and 1000 is printed in the wrong order |
| BillingPeriod.ClampedAnchor | apps/backend/src/services/billing-period.service.ts:54-66 | the anchor of a month in numbers: unclamped up to 28, and otherwise 30 or the length of February |
| BillingPeriod.AnchorDaysAccepted | apps/backend/src/services/billing-period.service.ts:44-52 | both routes accept exactly the days 1 to 31 and refuse any other by name |
| BillingPeriod.AprilPeriods | apps/backend/src/services/billing-period.service.ts:128-138 | billing day 31 in 2025: 31 March to 30 April, 30 April to 31 May |
| BillingPeriod.NeighbouringAnchors | apps/backend/src/services/billing-period.service.ts:69-92 | next and previous land on the clamped anchors of the neighbouring months, also across a year end |
| BillingPeriod.NoDrift | apps/backend/src/services/billing-period.service.ts:54-79 | after any number of steps the anchor is clamped only by the month reached, never by a short month on the way |
| BillingPeriod.PreviousInvertsNext | apps/backend/src/services/billing-period.service.ts:68-92 | on anchored dates previous and next undo each other |
| BillingPeriod.PeriodLength | apps/backend/src/services/billing-period.service.ts:128-138 | every period lasts 28 to 31 days |
| BillingPeriod.AnchorsIncrease | apps/backend/src/services/billing-period.service.ts:68-79 | later anchors are later days: consecutive periods do not overlap |
| BillingPeriod.OnePeriodPerDay | apps/backend/src/services/billing-period.service.ts:96-126 | no day lies in two anchored periods |
| BillingPeriod.CurrentPeriodHoldsReference | apps/backend/src/services/billing-period.service.ts:96-126 | every day lies in the period chosen for it: no gap |
| BillingPeriod.ResolveIsCurrentPeriod | apps/backend/src/services/billing-period.service.ts:100-126 | the text comparison picks the current anchored period, and the offset `next` the one right after it |
| BillingPeriod.CurrentPeriodIsTheOnlyOne | apps/backend/src/services/billing-period.service.ts:100-126 | a period is the result if and only if it is an anchored period with start <= date < end |
| BillingPeriod.PeriodForMonthIsAnchored | apps/backend/src/services/billing-period.service.ts:128-138 | a manual (year, month) names the anchored period that opens in that month |
| BillingPeriod.ReferenceDueDate | apps/backend/src/services/billing-period.service.ts:140-150 | the due date lies exactly the given number of days after the end of the period |
| BillingPeriod.MonthDueDate | apps/backend/src/services/billing-period.service.ts:152-162 | the same for the route by year and month |
| AnnualCharge.IsAnnualChargeDueInBillingPeriod | packages/shared/src/plan-pricing.ts:83-104 | the year loop answers true if and only if an anchor of the anniversary month, of whatever year, falls in the period; both error cases |
| AnnualCharge.YearTestIsDayTest | packages/shared/src/plan-pricing.ts:98-101 | the two text comparisons of one year are a test of day numbers |
| AnnualCharge.NoAnniversary | packages/shared/src/plan-pricing.ts:94-103 | looking only at the years of the two ends misses no anniversary |
| AnnualCharge.ChargedInAnniversaryMonth | packages/shared/src/plan-pricing.ts:79-104 | an anchored period is charged if and only if it opens in the anniversary month |
| AnnualCharge.OneChargePerYear | packages/shared/src/plan-pricing.ts:79-104 | any 12 n consecutive periods carry exactly n annual charges |
| InvoiceGeneration.ResolvedPeriodIsAnchored | apps/backend/src/services/invoice-generation.service.ts:146-156 | both ways of naming a period lead to the same family of anchored periods |
| InvoiceGeneration.PeriodAskedFor | apps/backend/src/services/invoice-generation.service.ts:146-156 | a missing or zero year or month leaves the choice to the reference date, which lies in the period; otherwise the period opens in that year and month |
| InvoiceGeneration.InvoiceTable.FindByTenantPeriodAndType | apps/backend/src/repositories/invoice.repository.ts:171-188 | finds a row with the key, or there is none |
| InvoiceGeneration.InvoiceTable.Create | apps/backend/src/repositories/invoice.repository.ts:190-228 | appends one row and returns its id |
| InvoiceGeneration.InvoiceTable.EnsureInvoice | apps/backend/src/services/invoice-generation.service.ts:158-216 | a row with the key exists afterwards; it is created if and only if it was missing; a failing amount leaves the table as it was |
| InvoiceGeneration.InvoiceTable.GeneratePeriodInvoices | apps/backend/src/services/invoice-generation.service.ts:69-144 | the table after the call, every column of each new invoice, when each error is raised, and which invoices are reported as created and as skipped |
| InvoiceGeneration.NewRowsAreBilled | packages/shared/src/plan-pricing.ts:20-40 | every row a request adds has the price times the head count, or the annual fee, with both factors; is due 7 days after its period; and is issued on the first day of a period named by month, else on the reference date |
| InvoiceGeneration.SucceedsIff | apps/backend/src/services/invoice-generation.service.ts:72-142 | a request succeeds if and only if academy, plan and billing day are in order and no negative number is billed for an invoice still missing |
| InvoiceRuns.RequestAddsWantedKeys | apps/backend/src/services/invoice-generation.service.ts:69-144 | a request touches no stored row, keeps the key unique and adds exactly the invoices of its period, or fewer when it fails half way |
| InvoiceRuns.RepetitionCreatesNothing | apps/backend/src/services/invoice-generation.service.ts:64-68 | serving the period again creates nothing, whatever changed in prices or head count |
| InvoiceRuns.RoutesAgree | apps/backend/src/services/invoice-generation.service.ts:146-156 | the two routes want the same invoices if and only if the date lies in the period of that month |
| InvoiceRuns.RunKeys | apps/backend/src/services/invoice-generation.service.ts:69-144 | after any sequence of requests the keys are those that were there and those asked for, once each |
| InvoiceRuns.RunKeepsUniqueKeys | apps/backend/src/services/invoice-generation.service.ts:69-144 | any sequence, failures included, leaves at most one invoice per tenant, period and type |
| InvoiceRuns.RunBills | apps/backend/src/services/invoice-generation.service.ts:64-68 | over every run each invoice keeps the columns it had, and each new one shows what the request that created it billed, whatever later requests say |
| InvoiceRuns.YearsOfInvoices | apps/backend/src/services/invoice-generation.service.ts:69-144 | 12 n consecutive periods, asked for in any order and any number of times, give 12 n monthly and n annual invoices |
| Dunning.BillingTables.Run | apps/backend/src/services/billing-dunning.service.ts:86-90 | the tables after a run, the warned invoices and the suspended academies, in one formula over the tables before |
| Dunning.BillingTables.WarnNewlyOverdue | apps/backend/src/services/billing-dunning.service.ts:92-112 | the warning loop claims exactly the pending, past due, unwarned invoices |
| Dunning.BillingTables.SuspendAfterGrace | apps/backend/src/services/billing-dunning.service.ts:114-136 | the suspension loop uses up the schedules of every due tenant and suspends those still active, once each |
| Dunning.BillingTables.FindPendingPastDue | apps/backend/src/repositories/invoice.repository.ts:305-317 | lists exactly the pending invoices past due |
| Dunning.BillingTables.FindDueForSuspension | apps/backend/src/repositories/invoice.repository.ts:276-290 | lists exactly the overdue invoices whose schedule has arrived |
| Dunning.BillingTables.MarkOverdueWithWarning | apps/backend/src/repositories/invoice.repository.ts:257-274 | claims a row only while it is pending and unwarned, and says whether it did |
| Dunning.BillingTables.ClearSuspensionSchedule | apps/backend/src/repositories/invoice.repository.ts:292-303 | clears the schedules of the overdue invoices of one tenant |
| Dunning.BillingTables.ProcessOverdueInvoices | apps/backend/src/services/invoice.service.ts:166-206 | the manual action marks all past due invoices and suspends at once, with no warning and no schedule |
| Dunning.BillingTables.UpdatePayment | apps/backend/src/services/invoice.service.ts:97-142 | payment changes, and the refusal for cancelled invoices |
| Dunning.BillingTables.Cancel | apps/backend/src/services/invoice.service.ts:144-164 | cancellation, and the refusal for paid invoices |
| Dunning.BillingTables.ChangeAcademyStatus | apps/backend/src/services/academy.service.ts:233-267 | status changes with their reason; a suspended academy cannot be activated this way |
| Dunning.BillingTables.ReactivateAcademy | apps/backend/src/services/academy.service.ts:269-310 | reactivation with the acknowledgement of debts, and each of its three refusals |
| Dunning.RunLeavesNothingToDo | apps/backend/src/services/billing-dunning.service.ts:86-136 | after a run nothing is left to warn or to suspend at that instant |
| Dunning.RunTwiceIsRunOnce | apps/backend/src/services/billing-dunning.service.ts:86-136 | a second run at the same instant changes nothing |
| DunningRules.WarnedIffDayIsOver | apps/backend/src/repositories/invoice.repository.ts:305-317 | over every history a run warns an invoice if and only if it is pending, never warned, and now >= (due day + 1) * 86 400 000 |
| DunningRules.MarkedIffDayIsOver | apps/backend/src/services/invoice.service.ts:166-206 | the manual action marks it if and only if it is pending and now >= (due day + 1) * 86 400 000 |
| DunningRules.FirstRunWarns | apps/backend/src/services/billing-dunning.service.ts:92-100 | the first run after the due day warns it, and no earlier one, unless it was paid, cancelled or marked by then |
| DunningRules.NoWarningBeforeDue | apps/backend/src/services/billing-dunning.service.ts:92-100 | in every history no warning stamp lies before the end of the due day, and each schedule is its warning plus the grace days |
| DunningRules.WarningAfter | apps/backend/src/repositories/invoice.repository.ts:261-274 | a warning leaves the invoice overdue with the instant of the run and the end of the grace period, used up only by a suspension in the same run |
| DunningRules.StatusAfter | apps/backend/src/services/invoice.service.ts:97-206 | the status of an invoice after any call: payment, withdrawal, cancellation, chasing, and nothing else |
| DunningRules.StampsAfter | apps/backend/src/repositories/invoice.repository.ts:257-303 | its two stamps after any call |
| DunningRules.CancelledForGood | apps/backend/src/services/invoice.service.ts:97-164 | a cancelled invoice stays cancelled over every history |
| DunningRules.PaidUntilWithdrawn | apps/backend/src/services/invoice.service.ts:97-142 | a paid invoice stays paid until its payment is withdrawn |
| DunningRules.SuspendsIff | apps/backend/src/services/billing-dunning.service.ts:77-136 | a run suspends an academy if and only if it is active and has an overdue invoice whose day of suspension has come, or one that it warns now without a grace period: paying in time prevents it |
| DunningRules.AcademyAfter | apps/backend/src/services/academy.service.ts:233-310 | status and reason of an academy after any call |
| DunningRules.SuspendedUntilEnded | apps/backend/src/services/academy.service.ts:233-310 | a suspension lasts until a reactivation, an approval or a change to inactive |
| DunningRuns.ScheduleComesFromWarning | apps/backend/src/services/billing-dunning.service.ts:92-100 | in every history a schedule was set by a warning, exactly one grace period later |
| DunningRuns.SuspensionFollowsWarning | apps/backend/src/services/billing-dunning.service.ts:77-84 | whenever the job suspends, an invoice of the academy is overdue and was warned at least the grace period before |
| DunningRuns.LiveScheduleIsNewer | apps/backend/src/repositories/invoice.repository.ts:292-303 | after a suspension a live schedule of the tenant has its warning after it, if the manual action has revived no older schedule of that tenant since |
| DunningRuns.SchedulesStayNewIff | apps/backend/src/services/invoice.service.ts:166-206 | after a suspension all live schedules of the tenant keep coming from later warnings if and only if every manual action meets a past due pending invoice of the tenant with a schedule only when that invoice was warned since the suspension |
| DunningRuns.SecondSuspensionNeedsNewWarning | apps/backend/src/repositories/invoice.repository.ts:292-303 | under that condition on the events between two suspensions of an academy, one of its invoices is warned between them |
| DunningRuns.WithoutManualActionNothingIsRevived | apps/backend/src/services/invoice.service.ts:166-206 | the condition holds in every history without the manual action |
| DunningRuns.StaleScheduleSuspendsAgain | apps/backend/src/services/invoice.service.ts:166-206 | a history of eight calls that breaks the condition and suspends twice for one warning |
| DunningRuns.OverdueAgainIff | apps/backend/src/repositories/invoice.repository.ts:257-274 | over every history a warned invoice that is not overdue is never warned again, and becomes overdue again if and only if the manual action meets it pending and past due |
| DunningRuns.WithdrawnPaymentIsNotChased | apps/backend/src/services/invoice.service.ts:97-142 | a history in which a payment is entered and withdrawn: the invoice stays pending for years and no run reacts |
| DunningInterleaving.WarnedAtMostOnce | apps/backend/src/repositories/invoice.repository.ts:257-274 | under every interleaving of SQL statements each invoice is claimed at most once, while pending, and the warning is never overwritten |
| DunningInterleaving.SelectedByInstant | apps/backend/src/repositories/invoice.repository.ts:276-317 | what the two SELECTs return, in instants and columns |
| DunningInterleaving.ClaimWrites | apps/backend/src/repositories/invoice.repository.ts:261-274 | the row before and after a successful claim |
| DunningInterleaving.NoClaimBeforeDue | apps/backend/src/repositories/invoice.repository.ts:305-317 | under every interleaving no invoice is warned on or before its due day |
| DunningInterleaving.NoWarningIsLost | apps/backend/src/services/billing-dunning.service.ts:97-100 | when a warning loop has passed an invoice of its snapshot, the invoice has been warned by someone or was paid, cancelled or marked in between |
| DunningInterleaving.SuspensionNeedsNewClaim | apps/backend/src/jobs/scheduler.ts:6-27 | with the named lock and administrative calls between any two statements: each suspension has a claim after the previous one of that academy, if no older schedule was revived before it |
| DunningInterleaving.SchedulesStayNewIff | apps/backend/src/services/invoice.service.ts:166-206 | with the lock, live schedules always stem from claims after the last suspension of their tenant if and only if every manual mark meets only such schedules and no suspension is written over a live one |
| DunningInterleaving.NothingRevived | apps/backend/src/jobs/scheduler.ts:6-27 | with the lock and without the manual action the condition of the two rows above holds at every statement |
| DunningInterleaving.OverdueIffSince | apps/backend/src/repositories/invoice.repository.ts:257-303 | an invoice is overdue if and only if it was at an earlier statement and nobody has written its status since, or it became overdue later and nobody has since |
| DunningInterleaving.SuspendedWhileOwingIff | apps/backend/src/services/billing-dunning.service.ts:114-136 | the loop does not read an invoice again: when it suspends, the invoice it works on was overdue when selected and still is if and only if nobody has written its status since, or it became overdue again; the academy owes an overdue invoice if and only if this holds of one of its invoices |
| DunningInterleaving.PaymentTooLate | apps/backend/src/services/billing-dunning.service.ts:114-136 | seven statements in which the only invoice is paid between its selection and the suspension, and the academy is suspended owing nothing |
| DunningInterleaving.UsedUpIsSuspendedIff | apps/backend/src/services/billing-dunning.service.ts:118-129 | when a run has used up the schedules of an academy it found active, its next statement suspends that academy if and only if it does not fail |
| DunningInterleaving.LiveOnlyByClaimIff | apps/backend/src/repositories/invoice.repository.ts:292-303 | once the schedules of a tenant are used up, live ones come only from later claims if and only if the manual action revives none that was not claimed since; with or without the lock |
| DunningInterleaving.FailedRunIsNotRepeated | apps/backend/src/jobs/scheduler.ts:18-22 | with the lock, after a run that failed the tenant whose schedules it used up is suspended only for an invoice claimed since, unless an older schedule was revived |
| DunningInterleaving.FailureLosesSuspension | apps/backend/src/jobs/scheduler.ts:18-22 | nine statements: a run fails before the suspension, and the next one leaves the academy active with its overdue invoice |
| DunningInterleaving.ReplicasWithoutLockSuspendTwice | apps/backend/src/jobs/overdue-invoices.job.ts:11-20 | without the lock two replicas and one reactivation suspend twice for one warning: twelve statements |
| DunningRefinement.AloneIsOneRun | apps/backend/src/services/billing-dunning.service.ts:77-136 | the statements of an instance that nothing interrupts, whatever order its SELECTs list, leave exactly the tables of one run of the job and suspend exactly the academies a run suspends |
| DunningRefinement.StatementsComeNearer | apps/backend/src/services/billing-dunning.service.ts:90-136 | each statement of an instance reaches a later phase or leaves less to do, and no other statement touches it: none works forever |
| DunningRefinement.NeverStuck | apps/backend/src/services/billing-dunning.service.ts:90-136 | under every interleaving an instance at work can execute its next statement |
| DunningRefinement.LockIffOneAtATime | apps/backend/src/jobs/scheduler.ts:6-27 | a run keeps the named lock if and only if at no time two instances are at work |
| DunningRefinement.StatementsOfCalls | apps/backend/src/services/invoice.service.ts:97-164 | the statements of payments, cancellations, new invoices and changes of academies do what those calls do |
| DunningRefinement.MarkOfManualAction | apps/backend/src/services/invoice.service.ts:166-206 | the mark of the manual action leaves a past-due row as that action does |
| MatchClock.DifferenceIsCutOff | apps/backend/src/repositories/match.repository.ts:294-294 | the seconds between two instants are cut off towards zero, whichever comes first |
| MatchClock.SqlFinishIsPauseIff | apps/backend/src/repositories/match.repository.ts:286-303 | the finishing UPDATE, its assignments carried out from left to right, leaves the clock as a pause would if and only if the clock is stopped or has run for less than a second since its start instant |
| MatchClock.FinishDropsStretch | apps/backend/src/repositories/match.repository.ts:291-296 | otherwise the display loses exactly the whole seconds of the running stretch, for good |
| MatchClock.CaseFirstIsPause | apps/backend/src/repositories/match.repository.ts:291-296 | with the CASE before the reset of the running flag the same statement is a pause, for every running clock and every stopped one without a start instant |
| MatchClock.StepIsApplyCommand | apps/backend/src/services/match-clock.service.ts:91-117 | the step relation of the runs below is the command switch of the service, however the start instant is stored |
| MatchClock.DisplayedMinute | packages/shared/src/match-clock.ts:47-70 | the minute is the whole minutes displayed, up to 120 |
| MatchClock.AdjustedDisplay | packages/shared/src/match-clock.ts:123-137 | an adjustment shows the minute asked for, clamped to 0..120, and 60 times as many seconds; period and running flag stay, and a running clock counts on from there |
| MatchClock.PauseIsStored | apps/backend/src/services/match-clock.service.ts:86-124 | the pause stored after a command is now if the clock stands, and none if it runs |
| MatchClock.RunKeepsClockSound | packages/shared/src/match-clock.ts:82-137 | any commands keep "running if and only if a start instant is stored" and the period within 1..count |
| MatchClock.MatchClockIsSound | packages/shared/src/match-clock.ts:73-137 | the same from the start of a match on |
| MatchClock.DisplayNeverGoesBack | packages/shared/src/match-clock.ts:47-121 | without a manual adjustment the displayed period, and within it the seconds and minutes, never decrease |
| MatchClock.ShownIsNearReal | packages/shared/src/match-clock.ts:47-137 | the bound of the next row from any setting of a running or stopped clock, manual adjustments included |
| MatchClock.DisplayedTimeIsAccurate | packages/shared/src/match-clock.ts:47-105 | in every period the displayed seconds never exceed the real running time and fall short by less than a second per running stretch; with stored instants up to `slack` off, by that much more on each side |
| MatchCorrection.DaysRemainingIsExact | packages/shared/src/match-correction.ts:17-56 | the days shown are the exact ceiling, positive if and only if corrections are accepted |
| LiveMatchService.ValidateJerseyCollisions | apps/backend/src/services/match-attendance.service.ts:175-209 | the grouping by number refuses if and only if two present entries share a number |
| LiveMatchService.MatchTables.FindByClientActionId | apps/backend/src/repositories/game-action.repository.ts:81-94 | finds a row with the client id, or there is none |
| LiveMatchService.MatchTables.CreateIfNotExists | apps/backend/src/repositories/notification.repository.ts:40-66 | inserts unless the recipient already has a notification of the action |
| LiveMatchService.MatchTables.OnNotifiableActionRegistered | apps/backend/src/services/game-action-notification.service.ts:38-120 | one notification for each parent who takes in-app messages, in order, and the count of them |
| LiveMatchService.MatchTables.RegisterAction | apps/backend/src/services/game-action.service.ts:216-298 | the tables after a capture and its answer, for every error and for a retry |
| LiveMatchService.MatchTables.ImmediateUndo | apps/backend/src/services/game-action.service.ts:300-354 | the tables after an undo, with the foreign key that clears the reference first, and each refusal in its order |
| LiveMatchService.NothingLeftToVoid | apps/backend/src/services/game-action.service.ts:336-339 | voiding by action id after the deletion reaches no notification |
| LiveMatchService.MatchTables.VoidAction | apps/backend/src/services/game-action.service.ts:356-404 | the tables after a void, and each refusal |
| LiveMatchService.MatchTables.UpdateMatch | apps/backend/src/services/match.service.ts:260-314 | the edited row, and the category lock |
| LiveMatchService.MatchTables.UpdateMatchStatus | apps/backend/src/services/match.service.ts:316-355 | status, the clock as each UPDATE leaves it, and what a cancellation voids |
| LiveMatchService.MatchTables.ApplyClockCommand | apps/backend/src/services/match-clock.service.ts:78-140 | the clock columns after a command, and each refusal |
| LiveMatchService.MatchTables.SaveAttendance | apps/backend/src/services/match-attendance.service.ts:211-324 | the attendance after a save, and each refusal in its order |
| LiveMatchRules.WriteModeIff | apps/backend/src/services/game-action.service.ts:123-169 | who may capture and who may correct, until exactly the configured number of days after the finish |
| LiveMatchRules.CaptureAcceptedIff | apps/backend/src/services/game-action.service.ts:216-249 | a capture is stored if and only if its author may write now, the client id is new, the code is active and the player is present with a number |
| LiveMatchRules.CaptureIsStored | apps/backend/src/services/game-action.service.ts:244-258 | the one new row shows player, code, minute, period, client id, author and instant of the capture; no other row changes |
| LiveMatchRules.CaptureIsKept | apps/backend/src/services/game-action.service.ts:244-258 | after any later run it still shows all of this and is the only one with its client id, unless it is undone |
| LiveMatchRules.NotificationIsStored | apps/backend/src/repositories/notification.repository.ts:40-66 | a new notification shows its recipient, player, match and action, and is valid |
| LiveMatchRules.UndoAcceptedIff | apps/backend/src/services/game-action.service.ts:300-333 | only the author undoes a counted capture, live and within the window |
| LiveMatchRules.VoidAcceptedIff | apps/backend/src/services/game-action.service.ts:356-373 | whoever may write may void a counted action of the match |
| LiveMatchRules.VoidIsStored | apps/backend/src/repositories/game-action.repository.ts:143-158 | a void leaves its author and reason on the row and changes no other |
| LiveMatchRules.CancelIsStored | apps/backend/src/repositories/game-action.repository.ts:160-176 | a cancellation voids exactly the counted actions of the match, in the name of the canceller |
| LiveMatchRules.StatusAcceptedIff | packages/shared/src/match.ts:23-28 | the four transitions, for those who may access the match |
| LiveMatchRules.StatusIsStored | apps/backend/src/repositories/match.repository.ts:283-324 | every column of the match after a change of status |
| LiveMatchRules.ReopeningIsStored | apps/backend/src/services/match.service.ts:361-384 | a development reopening takes exactly a finished match back to play, and touches neither clock nor actions |
| LiveMatchRules.FinishedWasPlayed | packages/shared/src/match.ts:23-28 | over every run a match under way or finished has been kicked off |
| LiveMatchRules.EditAcceptedIff | apps/backend/src/services/match.service.ts:260-292 | only scheduled matches without attendance change category; finished and cancelled ones are not edited |
| LiveMatchRules.EditIsStored | apps/backend/src/repositories/match.repository.ts:230-281 | each field of the request is stored, and one left out keeps its value |
| LiveMatchRules.ClockAcceptedIff | apps/backend/src/services/match-clock.service.ts:45-124 | coaches of the category command the clock of a match under way; the last period has no next one |
| LiveMatchRules.ClockIsStored | apps/backend/src/services/match-clock.service.ts:78-140 | what each accepted command leaves, in displayed minutes and seconds |
| LiveMatchRules.SaveAcceptedIff | apps/backend/src/services/match-attendance.service.ts:211-303 | when a save is accepted, told from the request and the tables |
| LiveMatchRuns.RunKeepsSound | apps/backend/src/services/game-action.service.ts:216-404 | the invariant below is kept by every run of calls, by any users at any instants, from any state that has it |
| LiveMatchRuns.EveryReachableState | apps/backend/src/services/game-action.service.ts:182-298 | in every reachable state: counted actions belong to players marked present in a match started and not cancelled; a client id has at most one action; valid notifications refer to counted live actions or to none; one notification per parent and action; clocks run only in matches under way or cancelled |
| LiveMatchRuns.RunKeepsTrail | apps/backend/src/repositories/game-action.repository.ts:143-176 | over every run a voided action stays with its author and reason; an active one keeps all that was captured |
| LiveMatchActions.CaptureIsRecordedOnce | apps/backend/src/services/game-action.service.ts:239-258 | an accepted capture leaves exactly one action with its client id, with the number worn that day |
| LiveMatchActions.RetryChangesNothing | apps/backend/src/services/game-action.service.ts:225-237 | a retry after any further run, by anyone and for any match, changes nothing unless the action was undone |
| LiveMatchActions.RetryAfterUndoRegistersAgain | apps/backend/src/services/game-action.service.ts:336-337 | after an undo the same client id is accepted again |
| LiveMatchActions.CaptureNotifiesParents | apps/backend/src/services/game-action-notification.service.ts:38-120 | a capture notifies exactly the parents who take in-app messages, and nobody when the code is not notifiable, the academy has notifications off or the match is over |
| LiveMatchActions.UndoKeepsLinksIff | apps/backend/src/services/game-action.service.ts:336-339 | after an undo every valid notification still refers to a counted action if and only if nobody had a valid notification of the undone one |
| LiveMatchActions.UndoLeavesNotification | apps/backend/src/services/game-action.service.ts:336-339 | a run of six calls after which a parent keeps a valid notification of no action |
| LiveMatchActions.RunKeepsLinks | apps/backend/src/repositories/notification.repository.ts:160-180 | over every run that undoes no notified action, valid notifications refer to counted actions |
| LiveMatchActions.VoidTakesBackNotifications | apps/backend/src/repositories/notification.repository.ts:160-169 | a void takes back exactly the notifications of its action |
| LiveMatchActions.CancelTakesBackEverything | apps/backend/src/services/match.service.ts:332-343 | a cancellation takes back every notification of the match, voids its counted actions and touches no other match |
| LiveMatchAttendance.SavedListIsReloaded | apps/backend/src/services/match-attendance.service.ts:258-323 | the list checked for collisions is the list read back after the save |
| LiveMatchAttendance.SavedRowFollowsRequest | apps/backend/src/services/match-attendance.service.ts:258-303 | what is stored for the last entry of each player, and exactly when a present player has no number |
| LiveMatchAttendance.SaveKeepsNumbersDistinct | apps/backend/src/services/match-attendance.service.ts:258-303 | a save keeps the numbers of a match distinct if and only if no player of the request takes the number of a present player who has left the category |
| LiveMatchAttendance.NumbersStayDistinct | apps/backend/src/services/match-attendance.service.ts:175-303 | over every run that moves no player with saved attendance, present players of a match wear different numbers |
| LiveMatchAttendance.MovedPlayerKeepsNumber | apps/backend/src/services/match-attendance.service.ts:141-160 | when such a player is moved, two players can end with the same number: a run of six calls from empty tables |
| LiveMatchClockRuns.ClockIsPureRun | apps/backend/src/services/match-clock.service.ts:78-140 | while a match is played its stored clock is the pure clock run over the accepted commands, whatever calls come in between |
| LiveMatchClockRuns.LiveDisplayNeverGoesBack | packages/shared/src/match-clock.ts:47-121 | in whole runs the period of a match under way stays within 1..count, and without a manual adjustment its display never goes back |
| LiveMatchClockRuns.WholeMatch | apps/backend/src/repositories/match.repository.ts:286-318 | from kick-off to finish, through any calls: the period stays within 1..count, and after the finish the display stands still; the finish takes the display back if and only if the clock has run for a second or more since its start instant |
| LiveMatchClockRuns.LiveClockIsAccurate | packages/shared/src/match-clock.ts:47-105 | from a kick-off, an accepted next period or an adjustment (from 60 000 times its minute), through any calls but a further one of these, with start instants stored up to `slack` off: ahead of the real running time by at most `slack` per stretch, not at all with exact storage, and short by less than a second and `slack` per stretch |
| LiveMatchClockRuns.FinishIsPauseIff | apps/backend/src/repositories/match.repository.ts:286-303 | in every reachable state, finishing leaves the clock as a pause at that instant would if and only if the clock is stopped or has run for less than a second since its start instant |
| LiveMatchClockRuns.FinishLosesHalf | apps/backend/src/repositories/match.repository.ts:286-303 | a run from empty tables: 2700 seconds are displayed at the whistle, and 0 after the finish |
| LiveMatchClockRuns.CancelledClockRunsIff | apps/backend/src/repositories/match.repository.ts:319-323 | cancelling leaves the clock as it is: it runs afterwards, through every later run, if and only if it ran before |
| LiveMatchClockRuns.CancelledWhileRunning | apps/backend/src/repositories/match.repository.ts:319-323 | a run from empty tables that ends with a cancelled match whose clock runs |
| LiveMatchClosed.ClosedMatchIsFrozen | apps/backend/src/services/game-action.service.ts:109-169 | once a match is cancelled, or finished with the window closed, no later run changes its fields, clock, attendance, actions or notifications |
| LiveMatchClosed.ActionsChangeOnlyByRight | apps/backend/src/services/game-action.service.ts:123-169 | whatever call changes the actions of a match comes from someone entitled to it at that moment; an undo only from the author, within the undo window |
| LiveMatchClosed.FinishOpensWindow | packages/shared/src/match-correction.ts:16-28 | a match is closed if and only if the configured number of days has passed since its finish, through every later run |
| LiveMatchClosed.CorrectionsWhileOpen | apps/backend/src/services/game-action.service.ts:139-168 | the coach of a finished match can void a counted action if and only if the match is not closed |
| VoiceCapture.WordsOfJoin | packages/shared/src/voice-capture-interpreter.ts:302-308 | joining words by spaces and splitting again gives the words back |
| VoiceCapture.CollapseJoinsWords | packages/shared/src/voice-capture-interpreter.ts:228-229 | collapsing and trimming gives the words joined by single spaces, which is what the parser asks of its input |
| VoiceCapture.ParseNumberTokens | packages/shared/src/voice-capture-interpreter.ts:242-283 | for every single-spaced phrase the search by cursor reports each word that the lookup answers at its own place, and nothing else |
| VoiceCapture.SpansHoldNumberWords | packages/shared/src/voice-capture-interpreter.ts:248-263 | every reported span holds exactly one such word with its value |
| VoiceCapture.NumberWordsAreReported | packages/shared/src/voice-capture-interpreter.ts:248-263 | every such word is reported |
| VoiceCapture.DigitsSayTheirNumber | packages/shared/src/voice-capture-interpreter.ts:254-257 | one or two digits say the number they write |
| VoiceCapture.WordsSayTheirNumber | packages/shared/src/voice-capture-interpreter.ts:107-165 | the thirty Spanish and the twenty English number words say their number |
| VoiceCapture.SpansAreNumbersIff | packages/shared/src/voice-capture-interpreter.ts:259-263 | all reported values are numbers if and only if the phrase does not say "constructor", which every object answers |
| VoiceCapture.JerseyIsFirstHeard | packages/shared/src/voice-capture-interpreter.ts:285-291 | the jersey is what the first reported word says; there is none if and only if no word is reported |
| VoiceCapture.InheritedNameHidesJersey | packages/shared/src/voice-capture-interpreter.ts:425-445 | said first, "constructor" is taken for the jersey whatever numbers follow |
| VoiceCapture.SpansAreApart | packages/shared/src/voice-capture-interpreter.ts:248-263 | the spans are inside the phrase, increasing and at least a space apart |
| VoiceCapture.CompoundsAreNotRead | packages/shared/src/voice-capture-interpreter.ts:265-279 | an English compound is heard as its two words: the branch for compounds is never reached |
| VoiceCapture.StripNumberTokens | packages/shared/src/voice-capture-interpreter.ts:293-300 | for any list of spans, the loop of cuts over the sorted list |
| VoiceCapture.LastFirstIsSorted | packages/shared/src/voice-capture-interpreter.ts:296-296 | the sort keeps all spans and puts none before one that starts later |
| VoiceCapture.LastFirstIsStable | packages/shared/src/voice-capture-interpreter.ts:296-296 | tokens that start at the same place keep their order |
| VoiceCapture.CutAllDropsNumbers | packages/shared/src/voice-capture-interpreter.ts:296-298 | each cut leaves the earlier spans in place, so exactly the reported words disappear |
| VoiceCapture.StrippedPhrase | packages/shared/src/voice-capture-interpreter.ts:293-300 | the stripped phrase is the words that are not reported, single-spaced and in order |
| VoiceCapture.NumbersAreRemoved | packages/shared/src/voice-capture-interpreter.ts:293-300 | exactly the words that say nothing stay, in order |
| VoiceCapture.FillersAreRemoved | packages/shared/src/voice-capture-interpreter.ts:302-308 | exactly the words that are no fillers stay, in order |
| VoiceCapture.FillersOfLanguages | packages/shared/src/voice-capture-interpreter.ts:49-105 | each language has its own fillers; only two words are one in both |
| VoiceCapture.RemainderOfPhrase | packages/shared/src/voice-capture-interpreter.ts:447-450 | the words used for matching are those that are neither reported nor fillers |
| Password.GenerateReadableTemporaryPassword | packages/shared/src/password.ts:38-68 | the array loops compute the picks and their shuffle; shorter than 8 is refused |
| Password.PickCharacters | packages/shared/src/password.ts:46-58 | one character of each class first, then any safe one, byte by byte |
| Password.AlphabetsAre | packages/shared/src/password.ts:12-24 | the characters of each class: none of i, l, o, I, L, O, 0, 1 |
| Password.PicksAreEven | packages/shared/src/password.ts:26-36 | over the 256 byte values each character of an alphabet is picked equally often, up to one |
| Password.Shuffle | packages/shared/src/password.ts:60-65 | the swaps in place are the shuffle |
| Password.ShuffleIsPermutation | packages/shared/src/password.ts:60-65 | for every source of bytes the shuffle is a permutation |
| Password.ShuffleReachesAll | packages/shared/src/password.ts:54-62 | every rearrangement of up to 256 characters is reached by some bytes |
| Password.PasswordIsReadableAndStrong | packages/shared/src/password.ts:34-76 | for every source of bytes: a lower-case and an upper-case letter, a digit and a symbol survive, nothing ambiguous occurs, the password is strong, and it passes the shape check if and only if it has 12 characters |
| Password.StrongIffMatched | packages/shared/src/password.ts:7-12 | a password is strong if and only if the expression matches it from left to right, look-aheads first |
| Password.ShapeMeetsClasses | packages/shared/src/password.ts:70-76 | twelve characters that meet each of the four classes and none of the five confusable characters |
| BulkCreate.DuplicatesInBatch | apps/backend/src/services/bulk-create.service.ts:54-78 | the loop with the map reports each repeated key with the first row that had it |
| BulkCreate.FlaggedIffRepeated | apps/backend/src/services/bulk-create.service.ts:54-78 | a row is flagged if and only if an earlier row has its key |
| BulkCreate.UnflaggedKeysDiffer | apps/backend/src/services/bulk-create.service.ts:54-78 | unflagged rows have pairwise different keys |
| BulkCreate.OverPlanLimit | apps/backend/src/services/bulk-create.service.ts:80-93 | exactly the rows beyond the free places are flagged |
| BulkCreate.DedupeErrors | apps/backend/src/services/bulk-create.service.ts:95-105 | the first error of each row and field, sorted by row |
| BulkCreate.FirstErrorsKeepKeys | apps/backend/src/services/bulk-create.service.ts:96-103 | no row and field with an error loses all of its errors |
| BulkCreate.FirstErrorsDistinct | apps/backend/src/services/bulk-create.service.ts:96-103 | no row and field keeps two |
| BulkCreate.SortIsStable | apps/backend/src/services/bulk-create.service.ts:104-104 | the errors are ordered by row, and those of one row keep their order |
| BulkCreate.CreateRows | apps/backend/src/services/bulk-create.service.ts:139-156 | every row is passed on, in order, also after a failure |
| BulkCreate.CreatedAndFailedPartition | apps/backend/src/services/bulk-create.service.ts:139-163 | created and failed rows split the rows according to the answers |
| BulkCreate.ReportedIff | apps/backend/src/services/bulk-create.service.ts:107-135 | an item is reported if and only if it does not parse, has a bad reference, repeats an earlier key, has an existing key, or comes after the last free place |
| BulkCreate.ReportedIsExplained | apps/backend/src/services/bulk-create.service.ts:55-135 | each reported error names its cause: code, field, and the first row that a duplicate repeats |
| BulkCreate.FailureIsReported | apps/backend/src/services/bulk-create.service.ts:139-156 | a row that cannot be created is reported with its own code |
| BulkCreate.RunBulk | apps/backend/src/services/bulk-create.service.ts:107-164 | nothing is created on a dry run or on any validation error; otherwise every item is, or is reported, exactly once |
| BulkCreate.ValidBatchFits | apps/backend/src/services/bulk-create.service.ts:184-336 | a batch that passes has pairwise different new keys; where there is a plan limit, the count after it is within it |
| CoachAnalysis.KeysAddUp | apps/backend/src/services/coach-analysis.service.ts:326-369 | different keys that cover all counts add up to the total, whatever the key |
| CoachAnalysis.MergeActionsByCode | apps/backend/src/services/coach-analysis.service.ts:72-93 | one entry per code with its whole count and the name of its first row, in order, adding up to all actions |
| CoachAnalysis.MatchLines | apps/backend/src/services/coach-analysis.service.ts:297-324 | the lines of the attended matches add up to all actions |
| CoachAnalysis.EvolutionByMonth | apps/backend/src/services/coach-analysis.service.ts:346-377 | the months add up to all actions and to all matches |
| CoachAnalysis.ResolveActionDimension | packages/shared/src/performance-dimensions.ts:74-101 | the first rule naming the code, else the first with most keywords, else recovery |
| CoachAnalysis.ScoreCounts | packages/shared/src/performance-dimensions.ts:86-95 | the score of a rule is the number of its keywords in the text |
| CoachAnalysis.IncludesIff | packages/shared/src/performance-dimensions.ts:83-92 | a keyword counts if and only if the text is the keyword with something before and after it |
| CoachAnalysis.StandardCodes | packages/shared/src/performance-dimensions.ts:20-72 | the dimension of each of the fifteen standard codes |
| CoachAnalysis.BuildDimensionCounts | packages/shared/src/performance-dimensions.ts:124-144 | each dimension has the whole count of its codes; together they have the count of all codes |
| CoachAnalysis.RadarScoresFollowCounts | packages/shared/src/performance-dimensions.ts:108-122 | scores lie in 0..100, follow the counts, and the largest count scores 100 |
| CoachAnalysis.RadarScoresAreNearest | packages/shared/src/performance-dimensions.ts:108-122 | each score is the whole number nearest to the percentage of the largest count, halves up |
| CoachAnalysis.RadarShowsData | packages/shared/src/performance-dimensions.ts:108-122 | exactly the dimensions with data are shown |
| CoachAnalysis.PlayerDetail | apps/backend/src/services/coach-analysis.service.ts:297-377 | one total by code, by match, by month and over the radar; the matches of the months are all matches |

## Left out

- Years outside 1000 to 9999: requests are validated to 2020..2100 and the reference is the current date. Printed years are not padded, so the comparisons of printed dates are only meaningful within these bounds (`UnpaddedYearBreaksOrder`).
- Floating point: `roundMoney` and `Math.round((d.count / max) * 100)` on doubles are modelled exactly, so a last-digit rounding of a double is not.
- Emails, audit rows, session revocation, logging, PDF and CSV, and the messages shown to users: they change none of the modelled tables.
- Rows deleted by hand or by cascade (a deleted player, tenant or match), and the seed script.
- Two live-match calls interleaved with each other: registration checks and then writes, so its invariants are claimed for whole calls as steps. The dunning job is the part that is modelled statement by statement.
- TIMESTAMP columns of whole seconds: only the start instant of the match clock accounts for them (`stored`, `slack`); `finished_at`, `created_at` and `clock_paused_at` are exact.
- Dev reopening takes no argument for the environment: it is an ordinary step of the runs, and excluded by name where a result needs it.
- Attendance summary, statistics per action code, minutes played, the sorting of matches by date and of months by name, and the other easy reductions over rows.
- `mergeActionRankings`, `scoreActionMatch` and the thresholds of `interpretVoiceCapture`: heuristics without a promise to prove; undo and correction phrases.
- Unicode folding in `normalizeVoiceText`: the text is taken as folded already, so only the collapsing of spaces is modelled.
- A password length that is not a whole number, and characters outside the basic plane in the strength check.
- The reading of a bulk file, the lookups behind `refs` and `existing`, and the message texts: the rules over the batch are modelled, their inputs are arguments.
- CoachAnalysis.PlayerDetail: asks for what the two queries return (one attendance row a match, actions only of attended matches and dated like them), because the joins are not part of this model.
