/** What holds over every history of the billing tables: job runs mixed with payments, cancellations,
    reactivations, new invoices and the manual overdue action. */
module DunningRuns {
  import opened Results
  import opened Dunning

  datatype Event =
    | JobRun(now: int)
    | NewInvoice(id: int, tenantId: int, dueDay: int)
    | Payment(id: int, paid: bool)
    | Cancellation(id: int)
    | ManualOverdue(now: int)
    | StatusChange(tenantId: int, status: AcademyStatus)
    | Reactivation(tenantId: int, acknowledged: bool)
    | Approval(tenantId: int)

  /** A new invoice is pending and unwarned; an approved academy becomes active and keeps its reason. */
  ghost function Step(db: Db, e: Event, graceDays: nat): Db {
    match e
    case JobRun(now) => AfterRun(db, now, graceDays)
    case NewInvoice(id, t, dueDay) =>
      if id in db.invoices then db else db.(invoices := db.invoices[id := Invoice(t, dueDay, Pending, None, None)])
    case Payment(id, paid) => AfterPayment(db, id, paid)
    case Cancellation(id) => AfterCancel(db, id)
    case ManualOverdue(now) => AfterProcessOverdue(db, now)
    case StatusChange(t, status) => AfterStatusChange(db, t, status)
    case Reactivation(t, acknowledged) => AfterReactivation(db, t, acknowledged)
    case Approval(t) =>
      if t in db.academies then db.(academies := db.academies[t := db.academies[t].(status := Active)]) else db
  }

  /** The tables after the first n events. */
  ghost function At(start: Db, events: seq<Event>, n: nat, graceDays: nat): Db
    requires n <= |events|
  {
    if n == 0 then start else Step(At(start, events, n - 1, graceDays), events[n - 1], graceDays)
  }

  /** No suspension is scheduled yet; anything else may already be in the tables. */
  ghost predicate Fresh(db: Db) {
    forall id :: id in db.invoices ==> db.invoices[id].scheduledFor == None
  }

  ghost predicate WarnsAt(start: Db, events: seq<Event>, n: nat, graceDays: nat, id: int)
    requires n < |events|
  {
    && events[n].JobRun?
    && id in At(start, events, n, graceDays).invoices
    && Warned(At(start, events, n, graceDays).invoices[id], events[n].now)
  }

  ghost predicate SuspendsAt(start: Db, events: seq<Event>, n: nat, graceDays: nat, t: int)
    requires n < |events|
  {
    events[n].JobRun? && SuspendedByRun(At(start, events, n, graceDays), events[n].now, graceDays, t)
  }

  /** One event, one invoice row: the only source of a schedule is a warning, a schedule is never
      moved, and a row becomes overdue only by a warning or by the manual action. */
  lemma RowStep(db: Db, e: Event, graceDays: nat, id: int)
    requires id in Step(db, e, graceDays).invoices
    ensures var after := Step(db, e, graceDays).invoices[id];
      if id !in db.invoices then
        after.scheduledFor == None && after.status == Pending
      else
        var before := db.invoices[id];
        && after.tenantId == before.tenantId
        && (after.scheduledFor == None || after.scheduledFor == before.scheduledFor
            || (e.JobRun? && Warned(before, e.now) && after.scheduledFor == Some(e.now + graceDays * DAY_MS)))
        && (before.warnedAt.Some? ==> after.warnedAt == before.warnedAt)
        && (after.scheduledFor.Some? && before.scheduledFor == None ==> after.warnedAt.Some?)
        && (!HasSchedule(after) || HasSchedule(before)
            || (e.JobRun? && Warned(before, e.now))
            || (e.ManualOverdue? && PendingPastDue(before, DayOf(e.now)) && before.scheduledFor.Some?))
    ensures id in db.invoices || e.NewInvoice?
  {
    if e.JobRun? {
      var middle := AfterWarnings(db, e.now, graceDays);
      assert id in middle.invoices;
      assert middle.invoices[id] == WarnedRow(db.invoices[id], e.now, graceDays);
    }
  }

  /** A run that finds the tenant due uses up all of the tenant's schedules. */
  lemma RunUsesUpSchedules(db: Db, now: int, graceDays: nat, t: int, id: int)
    requires IsDueTenant(AfterWarnings(db, now, graceDays), now, t)
    requires id in db.invoices && db.invoices[id].tenantId == t
    ensures !HasSchedule(AfterRun(db, now, graceDays).invoices[id])
  {
    var middle := AfterWarnings(db, now, graceDays);
    assert middle.invoices[id] == WarnedRow(db.invoices[id], now, graceDays);
    assert AfterRun(db, now, graceDays).invoices[id] == Unscheduled(middle.invoices[id]);
  }

  /** Every schedule was set by a warning in some earlier run, exactly one grace period later. */
  lemma {:induction false} ScheduleComesFromWarning(start: Db, events: seq<Event>, n: nat, graceDays: nat, id: int)
    returns (p: nat)
    requires n <= |events| && Fresh(start)
    requires id in At(start, events, n, graceDays).invoices
    requires At(start, events, n, graceDays).invoices[id].scheduledFor.Some?
    ensures p < n && WarnsAt(start, events, p, graceDays, id)
    ensures At(start, events, n, graceDays).invoices[id].scheduledFor == Some(events[p].now + graceDays * DAY_MS)
    ensures At(start, events, n, graceDays).invoices[id].warnedAt.Some?
    decreases n
  {
    hide Step;
    var db := At(start, events, n - 1, graceDays);
    RowStep(db, events[n - 1], graceDays, id);
    if db.invoices[id].scheduledFor == At(start, events, n, graceDays).invoices[id].scheduledFor {
      p := ScheduleComesFromWarning(start, events, n - 1, graceDays, id);
    } else {
      p := n - 1;
      WarnedRowIsWarned(db, events[n - 1].now, graceDays, id);
      StepOfRun(db, events[n - 1], graceDays);
      assert At(start, events, n, graceDays) == AfterRun(db, events[n - 1].now, graceDays);
    }
  }

  lemma StepOfRun(db: Db, e: Event, graceDays: nat)
    requires e.JobRun?
    ensures Step(db, e, graceDays) == AfterRun(db, e.now, graceDays)
  {
  }

  lemma WarnedRowIsWarned(db: Db, now: int, graceDays: nat, id: int)
    requires id in db.invoices && Warned(db.invoices[id], now)
    ensures AfterRun(db, now, graceDays).invoices[id].warnedAt == Some(now)
  {
    var middle := AfterWarnings(db, now, graceDays);
    assert middle.invoices[id] == WarnedRow(db.invoices[id], now, graceDays);
  }

  /** Suspension needs a warning a full grace period old: whenever the job suspends an academy, one of
      its invoices is overdue and was warned by a run of the job at least the grace period before.
      The manual action may occur anywhere in the history. */
  lemma SuspensionFollowsWarning(start: Db, events: seq<Event>, n: nat, graceDays: nat, t: int)
    returns (p: nat, id: int)
    requires n < |events| && Fresh(start)
    requires SuspendsAt(start, events, n, graceDays, t)
    ensures p <= n && WarnsAt(start, events, p, graceDays, id)
    ensures events[p].now + graceDays * DAY_MS <= events[n].now
    ensures var db := AfterWarnings(At(start, events, n, graceDays), events[n].now, graceDays);
      id in db.invoices && db.invoices[id].tenantId == t && db.invoices[id].status == Overdue
  {
    var db := At(start, events, n, graceDays);
    var middle := AfterWarnings(db, events[n].now, graceDays);
    id :| id in middle.invoices && middle.invoices[id].tenantId == t
      && DueForSuspension(middle.invoices[id], events[n].now);
    assert middle.invoices[id] == WarnedRow(db.invoices[id], events[n].now, graceDays);
    if Warned(db.invoices[id], events[n].now) {
      p := n;
    } else {
      p := ScheduleComesFromWarning(start, events, n, graceDays, id);
    }
  }

  // A second suspension, and what the manual action can do to it

  /** Some run strictly between the events i and n warned the invoice. */
  ghost predicate WarnedBetween(start: Db, events: seq<Event>, i: nat, n: nat, graceDays: nat, id: int)
    requires n <= |events|
  {
    exists p :: i < p < n && WarnsAt(start, events, p, graceDays, id)
  }

  /** At n the tenant's live schedules all come from warnings after i. */
  ghost predicate LiveSchedulesAreNew(start: Db, events: seq<Event>, i: nat, n: nat, graceDays: nat, t: int)
    requires n <= |events|
  {
    var db := At(start, events, n, graceDays);
    forall id :: id in db.invoices && db.invoices[id].tenantId == t && HasSchedule(db.invoices[id]) ==>
      WarnedBetween(start, events, i, n, graceDays, id)
  }

  /** What the manual action revives at m: past due pending invoices of the tenant that still carry a
      schedule. They have all been warned since i. */
  ghost predicate RevivesOnlyNew(start: Db, events: seq<Event>, i: nat, m: nat, graceDays: nat, t: int)
    requires m < |events|
  {
    var db := At(start, events, m, graceDays);
    events[m].ManualOverdue? ==>
      forall id :: id in db.invoices && Revived(db.invoices[id], events[m].now, t) ==>
        WarnedBetween(start, events, i, m, graceDays, id)
  }

  predicate Revived(i: Invoice, now: int, t: int) {
    i.tenantId == t && PendingPastDue(i, DayOf(now)) && i.scheduledFor.Some?
  }

  lemma {:induction false} LiveScheduleIsNewer(
      start: Db, events: seq<Event>, i: nat, n: nat, graceDays: nat, t: int, id: int)
    returns (p: nat)
    requires i < n <= |events| && SuspendsAt(start, events, i, graceDays, t)
    requires forall m :: i < m < n ==> RevivesOnlyNew(start, events, i, m, graceDays, t)
    requires id in At(start, events, n, graceDays).invoices
    requires At(start, events, n, graceDays).invoices[id].tenantId == t
    requires HasSchedule(At(start, events, n, graceDays).invoices[id])
    ensures i < p < n && WarnsAt(start, events, p, graceDays, id)
    decreases n
  {
    hide Step;
    var e := events[n - 1];
    var db := At(start, events, n - 1, graceDays);
    RowStep(db, e, graceDays, id);
    if n - 1 == i {
      StepOfRun(db, e, graceDays);
      RunUsesUpSchedules(db, e.now, graceDays, t, id);
      assert false;
    } else if e.JobRun? && Warned(db.invoices[id], e.now) {
      p := n - 1;
    } else if HasSchedule(db.invoices[id]) {
      p := LiveScheduleIsNewer(start, events, i, n - 1, graceDays, t, id);
    } else {
      assert RevivesOnlyNew(start, events, i, n - 1, graceDays, t) && Revived(db.invoices[id], e.now, t);
      p :| i < p < n - 1 && WarnsAt(start, events, p, graceDays, id);
    }
  }

  /** After a suspension at i the tenant's live schedules are always new if and only if the manual action
      never revives a schedule that is not. */
  lemma SchedulesStayNewIff(start: Db, events: seq<Event>, i: nat, n: nat, graceDays: nat, t: int)
    requires i < n <= |events| && SuspendsAt(start, events, i, graceDays, t)
    ensures (forall k :: i < k <= n ==> LiveSchedulesAreNew(start, events, i, k, graceDays, t)) <==>
      (forall m :: i < m < n ==> RevivesOnlyNew(start, events, i, m, graceDays, t))
  {
    hide At, WarnsAt, SuspendsAt;
    if forall m :: i < m < n ==> RevivesOnlyNew(start, events, i, m, graceDays, t) {
      forall k | i < k <= n ensures LiveSchedulesAreNew(start, events, i, k, graceDays, t) {
        var db := At(start, events, k, graceDays);
        forall id | id in db.invoices && db.invoices[id].tenantId == t && HasSchedule(db.invoices[id])
          ensures WarnedBetween(start, events, i, k, graceDays, id)
        {
          var p := LiveScheduleIsNewer(start, events, i, k, graceDays, t, id);
        }
      }
    }
    if forall k :: i < k <= n ==> LiveSchedulesAreNew(start, events, i, k, graceDays, t) {
      forall m | i < m < n ensures RevivesOnlyNew(start, events, i, m, graceDays, t) {
        assert LiveSchedulesAreNew(start, events, i, m + 1, graceDays, t);
        NewAfterRevival(start, events, i, m, graceDays, t);
      }
    }
  }

  /** The manual action makes what it revives live, and warns nobody. */
  lemma NewAfterRevival(start: Db, events: seq<Event>, i: nat, m: nat, graceDays: nat, t: int)
    requires i < m < |events| && LiveSchedulesAreNew(start, events, i, m + 1, graceDays, t)
    ensures RevivesOnlyNew(start, events, i, m, graceDays, t)
  {
    var db, after := At(start, events, m, graceDays), At(start, events, m + 1, graceDays);
    if events[m].ManualOverdue? {
      assert after == AfterProcessOverdue(db, events[m].now);
      hide At, AfterProcessOverdue;
      forall id | id in db.invoices && Revived(db.invoices[id], events[m].now, t)
        ensures WarnedBetween(start, events, i, m, graceDays, id)
      {
        ManualMakesLive(db, events[m].now, id);
        var p :| i < p < m + 1 && WarnsAt(start, events, p, graceDays, id);
        assert p != m;
      }
    }
  }

  lemma ManualMakesLive(db: Db, now: int, id: int)
    requires id in db.invoices && PendingPastDue(db.invoices[id], DayOf(now)) && db.invoices[id].scheduledFor.Some?
    ensures id in AfterProcessOverdue(db, now).invoices
    ensures AfterProcessOverdue(db, now).invoices[id].tenantId == db.invoices[id].tenantId
    ensures HasSchedule(AfterProcessOverdue(db, now).invoices[id])
  {
  }

  /** An academy reactivated with its debts is not suspended again for the same warnings: between two
      suspensions by the job lies a new warning of one of the academy's invoices, unless the manual action
      has revived an old schedule of the academy in between. */
  lemma SecondSuspensionNeedsNewWarning(start: Db, events: seq<Event>, i: nat, j: nat, graceDays: nat, t: int)
    returns (p: nat, id: int)
    requires i < j < |events|
    requires SuspendsAt(start, events, i, graceDays, t) && SuspendsAt(start, events, j, graceDays, t)
    requires forall m :: i < m < j ==> RevivesOnlyNew(start, events, i, m, graceDays, t)
    ensures i < p <= j && WarnsAt(start, events, p, graceDays, id)
    ensures id in At(start, events, j, graceDays).invoices
    ensures At(start, events, j, graceDays).invoices[id].tenantId == t
  {
    SchedulesStayNewIff(start, events, i, j, graceDays, t);
    var db := At(start, events, j, graceDays);
    var middle := AfterWarnings(db, events[j].now, graceDays);
    id :| id in middle.invoices && middle.invoices[id].tenantId == t
      && DueForSuspension(middle.invoices[id], events[j].now);
    assert middle.invoices[id] == WarnedRow(db.invoices[id], events[j].now, graceDays);
    hide At, AfterWarnings;
    if Warned(db.invoices[id], events[j].now) {
      p := j;
    } else {
      assert LiveSchedulesAreNew(start, events, i, j, graceDays, t);
      p :| i < p < j && WarnsAt(start, events, p, graceDays, id);
    }
  }

  /** Histories without the manual action meet the condition. */
  lemma WithoutManualActionNothingIsRevived(start: Db, events: seq<Event>, i: nat, j: nat, graceDays: nat, t: int)
    requires j <= |events| && forall n :: i < n < j ==> !events[n].ManualOverdue?
    ensures forall m :: i < m < j ==> RevivesOnlyNew(start, events, i, m, graceDays, t)
  {
  }

  // A history in which the manual action revives an old schedule

  function Two(a: Invoice, b: Invoice, status: AcademyStatus): Db {
    Db(map[1 := a, 2 := b], map[7 := Academy(status, if status == Suspended then Some(ForBilling) else None)])
  }

  function Row(status: InvoiceStatus, warnedAt: Option<int>, scheduledFor: Option<int>): Invoice {
    Invoice(7, 0, status, warnedAt, scheduledFor)
  }

  /** Day 1 warns both invoices, the second is paid, day 8 suspends for the first. */
  function FirstHalf(): seq<Event> {
    [JobRun(DAY_MS), Payment(2, true), JobRun(8 * DAY_MS), Reactivation(7, true)]
  }

  /** The payment is withdrawn, the manual action makes the second invoice overdue again, and the
      next run finds the schedule it still carries. */
  function SecondHalf(): seq<Event> {
    [Payment(2, false), ManualOverdue(9 * DAY_MS), Reactivation(7, true), JobRun(9 * DAY_MS)]
  }

  lemma StepOfRunOnTwo(a: Invoice, b: Invoice, now: int)
    requires a.tenantId == b.tenantId == 7
    ensures var a', b' := WarnedRow(a, now, 7), WarnedRow(b, now, 7);
      var due := DueForSuspension(a', now) || DueForSuspension(b', now);
      AfterRun(Two(a, b, Active), now, 7)
      == if due then Two(Unscheduled(a'), Unscheduled(b'), Suspended) else Two(a', b', Active)
    ensures var a', b' := WarnedRow(a, now, 7), WarnedRow(b, now, 7);
      SuspendedByRun(Two(a, b, Active), now, 7, 7) <==> DueForSuspension(a', now) || DueForSuspension(b', now)
  {
    var a', b' := WarnedRow(a, now, 7), WarnedRow(b, now, 7);
    assert AfterWarnings(Two(a, b, Active), now, 7) == Two(a', b', Active);
    hide WarnedRow, DueForSuspension, AfterWarnings, IsDueTenant;
    TwoDue(a', b', now);
    SuspensionsOnTwo(a', b', now);
  }

  lemma SuspensionsOnTwo(a: Invoice, b: Invoice, now: int)
    requires a.tenantId == b.tenantId == 7
    ensures AfterSuspensions(Two(a, b, Active), now)
      == if DueForSuspension(a, now) || DueForSuspension(b, now) then Two(Unscheduled(a), Unscheduled(b), Suspended)
         else Two(a, b, Active)
  {
    TwoDue(a, b, now);
    hide IsDueTenant, DueForSuspension, Unscheduled;
  }

  lemma TwoDue(a: Invoice, b: Invoice, now: int)
    requires a.tenantId == b.tenantId == 7
    ensures IsDueTenant(Two(a, b, Active), now, 7) <==> DueForSuspension(a, now) || DueForSuspension(b, now)
    ensures forall t :: IsDueTenant(Two(a, b, Active), now, t) ==> t == 7
  {
    var db := Two(a, b, Active);
    assert db.invoices[1] == a && db.invoices[2] == b;
    hide DueForSuspension;
  }

  lemma ReactivationOnTwo(a: Invoice, b: Invoice)
    ensures AfterReactivation(Two(a, b, Suspended), 7, true) == Two(a, b, Active)
  {
  }

  lemma ManualOnTwo(a: Invoice, b: Invoice, now: int)
    requires a.tenantId == b.tenantId == 7
    requires !PendingPastDue(a, DayOf(now)) && PendingPastDue(b, DayOf(now))
    ensures AfterProcessOverdue(Two(a, b, Active), now) == Two(a, b.(status := Overdue), Suspended)
  {
    var db := Two(a, b, Active);
    assert db.invoices[2] == b;
    assert HasPastDue(db, now, 7);
  }

  const W: Option<int> := Some(DAY_MS)
  const S: Option<int> := Some(8 * DAY_MS)
  const UNWARNED: Invoice := Row(Pending, None, None)
  const LIVE: Invoice := Row(Overdue, W, S)
  const USED: Invoice := Row(Overdue, W, None)

  /** The tables before each of the eight events. */
  lemma StaleStates()
    ensures var start, events := Two(UNWARNED, UNWARNED, Active), FirstHalf() + SecondHalf();
      && At(start, events, 2, 7) == Two(LIVE, Row(Paid, W, S), Active)
      && At(start, events, 5, 7) == Two(USED, Row(Pending, W, S), Active)
      && At(start, events, 7, 7) == Two(USED, LIVE, Active)
  {
    hide AfterRun, AfterProcessOverdue, AfterReactivation, SuspendedByRun;
    var start, events := Two(UNWARNED, UNWARNED, Active), FirstHalf() + SecondHalf();
    StepOfRunOnTwo(UNWARNED, UNWARNED, DAY_MS);
    assert At(start, events, 0, 7) == start;
    assert At(start, events, 1, 7) == Two(LIVE, LIVE, Active);
    assert At(start, events, 2, 7) == Two(LIVE, Row(Paid, W, S), Active);
    StepOfRunOnTwo(LIVE, Row(Paid, W, S), 8 * DAY_MS);
    assert At(start, events, 3, 7) == Two(USED, Row(Paid, W, S), Suspended);
    ReactivationOnTwo(USED, Row(Paid, W, S));
    assert At(start, events, 4, 7) == Two(USED, Row(Paid, W, S), Active);
    LaterStates(start, events);
  }

  lemma LaterStates(start: Db, events: seq<Event>)
    requires events == FirstHalf() + SecondHalf() && At(start, events, 4, 7) == Two(USED, Row(Paid, W, S), Active)
    ensures At(start, events, 5, 7) == Two(USED, Row(Pending, W, S), Active)
    ensures At(start, events, 7, 7) == Two(USED, LIVE, Active)
  {
    hide AfterRun, AfterProcessOverdue, AfterReactivation, SuspendedByRun;
    assert At(start, events, 5, 7) == Two(USED, Row(Pending, W, S), Active);
    ManualOnTwo(USED, Row(Pending, W, S), 9 * DAY_MS);
    assert At(start, events, 6, 7) == Two(USED, LIVE, Suspended);
    ReactivationOnTwo(USED, LIVE);
    assert At(start, events, 7, 7) == Two(USED, LIVE, Active);
  }

  /** The manual action revives a schedule older than the first suspension, and the second one comes without
      any new warning. */
  lemma StaleScheduleSuspendsAgain()
    ensures var start := Two(UNWARNED, UNWARNED, Active);
      var events := FirstHalf() + SecondHalf();
      && Fresh(start)
      && SuspendsAt(start, events, 2, 7, 7) && SuspendsAt(start, events, 7, 7, 7)
      && (forall p, id :: 2 < p <= 7 ==> !WarnsAt(start, events, p, 7, id))
      && !RevivesOnlyNew(start, events, 2, 5, 7, 7)
  {
    hide AfterRun, AfterProcessOverdue, AfterReactivation, SuspendedByRun, At, RevivesOnlyNew;
    var start := Two(UNWARNED, UNWARNED, Active);
    var events := FirstHalf() + SecondHalf();
    StaleStates();
    StepOfRunOnTwo(LIVE, Row(Paid, W, S), 8 * DAY_MS);
    StepOfRunOnTwo(USED, LIVE, 9 * DAY_MS);
    assert events[7] == JobRun(9 * DAY_MS);
    assert forall p :: 2 < p < 7 ==> !events[p].JobRun?;
    var last := Two(USED, LIVE, Active).invoices;
    assert forall id :: id in last ==> last[id].status == Overdue;
    OldScheduleRevived(start, events);
  }

  lemma OldScheduleRevived(start: Db, events: seq<Event>)
    requires events == FirstHalf() + SecondHalf() && At(start, events, 5, 7) == Two(USED, Row(Pending, W, S), Active)
    ensures !RevivesOnlyNew(start, events, 2, 5, 7, 7)
  {
    hide At, WarnsAt, Step;
    assert events[5] == ManualOverdue(9 * DAY_MS) && !events[3].JobRun? && !events[4].JobRun?;
    assert !WarnedBetween(start, events, 2, 5, 7, 2) by {
      forall p | 2 < p < 5 ensures !WarnsAt(start, events, p, 7, 2) {
        NoRunNoWarning(start, events, p, 7, 2);
      }
    }
    assert Revived(Two(USED, Row(Pending, W, S), Active).invoices[2], 9 * DAY_MS, 7);
  }

  lemma NoRunNoWarning(start: Db, events: seq<Event>, n: nat, graceDays: nat, id: int)
    requires n < |events| && !events[n].JobRun?
    ensures !WarnsAt(start, events, n, graceDays, id)
  {
  }

  // An invoice that was warned once and is pending again

  ghost predicate OverdueAt(start: Db, events: seq<Event>, n: nat, graceDays: nat, id: int)
    requires n <= |events|
  {
    var db := At(start, events, n, graceDays);
    id in db.invoices && db.invoices[id].status == Overdue
  }

  /** The manual action meets the invoice, pending and past due. */
  ghost predicate MarksAt(start: Db, events: seq<Event>, n: nat, graceDays: nat, id: int)
    requires n < |events|
  {
    var db := At(start, events, n, graceDays);
    events[n].ManualOverdue? && id in db.invoices && PendingPastDue(db.invoices[id], DayOf(events[n].now))
  }

  lemma WarnedRowStep(db: Db, e: Event, graceDays: nat, id: int)
    requires id in db.invoices && db.invoices[id].warnedAt.Some?
    ensures id in Step(db, e, graceDays).invoices
    ensures Step(db, e, graceDays).invoices[id].warnedAt == db.invoices[id].warnedAt
    ensures db.invoices[id].status != Overdue ==>
      (Step(db, e, graceDays).invoices[id].status == Overdue <==>
         e.ManualOverdue? && PendingPastDue(db.invoices[id], DayOf(e.now)))
  {
    if e.JobRun? {
      var middle := AfterWarnings(db, e.now, graceDays);
      assert middle.invoices[id] == WarnedRow(db.invoices[id], e.now, graceDays);
    }
  }

  /** A warned invoice that has left `overdue`, by a payment that may be withdrawn later, is out of the job's
      reach: no run warns it a second time, and it is overdue again if and only if the manual action marks it. */
  lemma {:induction false} OverdueAgainIff(start: Db, events: seq<Event>, n: nat, k: nat, graceDays: nat, id: int)
    requires n <= k <= |events| && id in At(start, events, n, graceDays).invoices
    requires At(start, events, n, graceDays).invoices[id].warnedAt.Some? && !OverdueAt(start, events, n, graceDays, id)
    ensures id in At(start, events, k, graceDays).invoices
    ensures At(start, events, k, graceDays).invoices[id].warnedAt
         == At(start, events, n, graceDays).invoices[id].warnedAt
    ensures forall m :: n <= m < k ==> !WarnsAt(start, events, m, graceDays, id)
    ensures (exists j :: n <= j <= k && OverdueAt(start, events, j, graceDays, id)) <==>
      (exists m :: n <= m < k && MarksAt(start, events, m, graceDays, id))
    decreases k
  {
    hide Step;
    if n < k {
      OverdueAgainIff(start, events, n, k - 1, graceDays, id);
      WarnedRowStep(At(start, events, k - 1, graceDays), events[k - 1], graceDays, id);
      assert !OverdueAt(start, events, k - 1, graceDays, id) ==>
        (OverdueAt(start, events, k, graceDays, id) <==> MarksAt(start, events, k - 1, graceDays, id));
      assert !WarnsAt(start, events, k - 1, graceDays, id);
      hide *;
      if j :| n <= j <= k - 1 && OverdueAt(start, events, j, graceDays, id) {
        var m :| n <= m < k - 1 && MarksAt(start, events, m, graceDays, id);
      }
    }
  }

  const GONE: Invoice := Row(Cancelled, None, None)

  const WITHDRAWN := [JobRun(DAY_MS), Payment(1, true), Payment(1, false), JobRun(1000 * DAY_MS)]

  lemma PaymentOnTwo(a: Invoice, b: Invoice, paid: bool)
    requires a.status != Cancelled
    ensures AfterPayment(Two(a, b, Active), 1, paid) == Two(a.(status := if paid then Paid else Pending), b, Active)
  {
  }

  /** A payment is entered and withdrawn: the invoice is past due for years, and no run chases it. */
  lemma WithdrawnPaymentIsNotChased()
    ensures var start := Two(UNWARNED, GONE, Active);
      && At(start, WITHDRAWN, 1, 7) == Two(LIVE, GONE, Active)
      && At(start, WITHDRAWN, 4, 7) == Two(Row(Pending, W, S), GONE, Active)
      && PendingPastDue(Row(Pending, W, S), 1000)
  {
    hide AfterRun, SuspendedByRun, AfterProcessOverdue, AfterReactivation, AfterPayment;
    var start := Two(UNWARNED, GONE, Active);
    StepOfRunOnTwo(UNWARNED, GONE, DAY_MS);
    PaymentOnTwo(LIVE, GONE, true);
    PaymentOnTwo(Row(Paid, W, S), GONE, false);
    assert At(start, WITHDRAWN, 0, 7) == start;
    assert At(start, WITHDRAWN, 1, 7) == Two(LIVE, GONE, Active);
    assert At(start, WITHDRAWN, 2, 7) == Two(Row(Paid, W, S), GONE, Active);
    assert At(start, WITHDRAWN, 3, 7) == Two(Row(Pending, W, S), GONE, Active);
    StepOfRunOnTwo(Row(Pending, W, S), GONE, 1000 * DAY_MS);
  }
}
