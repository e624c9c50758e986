/** The rules of dunning in instants and statuses: when exactly an invoice is warned, marked, paid or
    cancelled, and when exactly an academy is suspended or active again, over every history. */
module DunningRules {
  import opened Results
  import opened Dunning
  import opened DunningRuns

  /** The instant at which the day after the due day begins, in UTC. */
  function PastDueFrom(i: Invoice): int { (i.dueDay + 1) * 86_400_000 }

  lemma DayIsOver(i: Invoice, now: int)
    ensures i.dueDay < DayOf(now) <==> now >= PastDueFrom(i)
  {
    var day := now / DAY_MS;
    assert day * DAY_MS <= now < day * DAY_MS + DAY_MS;
  }

  /** A run warns an invoice if and only if it is pending, has never been warned, and its due day is over. */
  lemma WarnedIffDayIsOver(start: Db, events: seq<Event>, n: nat, graceDays: nat, id: int)
    requires n < |events|
    ensures WarnsAt(start, events, n, graceDays, id) <==>
      && events[n].JobRun? && id in At(start, events, n, graceDays).invoices
      && var i := At(start, events, n, graceDays).invoices[id];
         i.status == Pending && i.warnedAt == None && events[n].now >= PastDueFrom(i)
  {
    var db := At(start, events, n, graceDays);
    if events[n].JobRun? && id in db.invoices {
      DayIsOver(db.invoices[id], events[n].now);
    }
    hide At, DayOf;
  }

  /** The manual action marks an invoice if and only if it is pending and its due day is over. */
  lemma MarkedIffDayIsOver(start: Db, events: seq<Event>, n: nat, graceDays: nat, id: int)
    requires n < |events|
    ensures MarksAt(start, events, n, graceDays, id) <==>
      && events[n].ManualOverdue? && id in At(start, events, n, graceDays).invoices
      && var i := At(start, events, n, graceDays).invoices[id];
         i.status == Pending && events[n].now >= PastDueFrom(i)
  {
    var db := At(start, events, n, graceDays);
    if events[n].ManualOverdue? && id in db.invoices {
      DayIsOver(db.invoices[id], events[n].now);
    }
    hide At, DayOf;
  }

  // One event, one invoice

  predicate Pays(e: Event, id: int, paid: bool) { e == Payment(id, paid) }

  /** The events that make a pending invoice overdue. */
  predicate ChasesAt(e: Event, i: Invoice) {
    || (e.JobRun? && i.warnedAt == None && e.now >= PastDueFrom(i))
    || (e.ManualOverdue? && e.now >= PastDueFrom(i))
  }

  /** The status after one event: a payment, its withdrawal and a cancellation do what they say, except that
      a cancelled invoice is not paid and a paid one not cancelled; nothing else but the two chasing events
      changes it. */
  lemma StatusAfter(db: Db, e: Event, graceDays: nat, id: int)
    requires id in db.invoices
    ensures id in Step(db, e, graceDays).invoices
    ensures var before, after := db.invoices[id], Step(db, e, graceDays).invoices[id];
      && after.tenantId == before.tenantId && after.dueDay == before.dueDay
      && after.status ==
           if Pays(e, id, true) && before.status != Cancelled then Paid
           else if Pays(e, id, false) && before.status != Cancelled then Pending
           else if e == Cancellation(id) && before.status != Paid then Cancelled
           else if before.status == Pending && ChasesAt(e, before) then Overdue
           else before.status
  {
    DayIsOver(db.invoices[id], if e.JobRun? || e.ManualOverdue? then e.now else 0);
    if e.JobRun? {
      RowAfterRun(db, e.now, graceDays, id);
    }
  }

  /** The two stamps after one event: only a warning sets them, and the schedule can be used up. */
  lemma StampsAfter(db: Db, e: Event, graceDays: nat, id: int)
    requires id in db.invoices
    ensures id in Step(db, e, graceDays).invoices
    ensures var before, after := db.invoices[id], Step(db, e, graceDays).invoices[id];
      if e.JobRun? && before.status == Pending && before.warnedAt == None && e.now >= PastDueFrom(before) then
        && after.warnedAt == Some(e.now)
        && (after.scheduledFor == Some(e.now + graceDays * 86_400_000) || after.scheduledFor == None)
      else
        && after.warnedAt == before.warnedAt
        && (after.scheduledFor == before.scheduledFor || (e.JobRun? && after.scheduledFor == None))
  {
    if e.JobRun? {
      DayIsOver(db.invoices[id], e.now);
      RowAfterRun(db, e.now, graceDays, id);
    }
  }

  lemma RowIsNew(db: Db, e: Event, graceDays: nat, id: int)
    requires id !in db.invoices && id in Step(db, e, graceDays).invoices
    ensures var after := Step(db, e, graceDays).invoices[id]; after.warnedAt == None && after.scheduledFor == None
  {
  }

  lemma RowAfterRun(db: Db, now: int, graceDays: nat, id: int)
    requires id in db.invoices
    ensures id in AfterRun(db, now, graceDays).invoices
    ensures var warned, after := WarnedRow(db.invoices[id], now, graceDays), AfterRun(db, now, graceDays).invoices[id];
      after == warned || after == warned.(scheduledFor := None)
  {
    var middle := AfterWarnings(db, now, graceDays);
    assert middle.invoices[id] == WarnedRow(db.invoices[id], now, graceDays);
  }

  lemma NewInvoiceAfter(db: Db, id: int, tenantId: int, dueDay: int, graceDays: nat)
    requires id !in db.invoices
    ensures var after := Step(db, NewInvoice(id, tenantId, dueDay), graceDays);
      && after.academies == db.academies && after.invoices.Keys == db.invoices.Keys + {id}
      && after.invoices[id].tenantId == tenantId && after.invoices[id].dueDay == dueDay
      && after.invoices[id].status == Pending && after.invoices[id].warnedAt == None
  {
  }

  /** What a run that warns an invoice writes: the instant, and the end of the grace period; the latter is
      used up at once if the same run suspends the academy. */
  lemma WarningAfter(start: Db, events: seq<Event>, n: nat, graceDays: nat, id: int)
    requires n < |events| && WarnsAt(start, events, n, graceDays, id)
    ensures id in At(start, events, n + 1, graceDays).invoices
    ensures var after := At(start, events, n + 1, graceDays).invoices[id];
      && after.status == Overdue && after.warnedAt == Some(events[n].now)
      && (after.scheduledFor == Some(events[n].now + graceDays * 86_400_000) || after.scheduledFor == None)
      && (after.scheduledFor == None ==>
            var warned := AfterWarnings(At(start, events, n, graceDays), events[n].now, graceDays);
            IsDueTenant(warned, events[n].now, after.tenantId))
  {
    var db, now := At(start, events, n, graceDays), events[n].now;
    RowAfterRun(db, now, graceDays, id);
    StepOfRun(db, events[n], graceDays);
    var middle := AfterWarnings(db, now, graceDays);
    assert middle.invoices[id] == WarnedRow(db.invoices[id], now, graceDays);
    assert !IsDueTenant(middle, now, middle.invoices[id].tenantId) ==>
      AfterRun(db, now, graceDays).invoices[id] == middle.invoices[id];
    hide IsDueTenant, AfterRun, AfterWarnings, Step;
  }

  /** An event that leaves a pending, unwarned invoice as it is. */
  predicate LeavesAlone(e: Event, id: int, i: Invoice) {
    !Pays(e, id, true) && e != Cancellation(id) && !ChasesAt(e, i)
  }

  /** The first run after the due day warns the invoice, and no run before it, unless the invoice has been
      paid, cancelled or marked by then. */
  lemma {:induction false} FirstRunWarns(start: Db, events: seq<Event>, n: nat, k: nat, graceDays: nat, id: int)
    requires n <= k < |events| && id in At(start, events, n, graceDays).invoices
    requires var i := At(start, events, n, graceDays).invoices[id];
      && i.status == Pending && i.warnedAt == None
      && (forall m :: n <= m < k ==> LeavesAlone(events[m], id, i))
      && events[k].JobRun? && events[k].now >= PastDueFrom(i)
    ensures WarnsAt(start, events, k, graceDays, id)
    ensures forall m :: n <= m < k ==> !WarnsAt(start, events, m, graceDays, id)
  {
    forall m | n <= m <= k
      ensures WarnsAt(start, events, m, graceDays, id) <==> m == k
    {
      StaysPending(start, events, n, m, graceDays, id);
      WarnedIffDayIsOver(start, events, m, graceDays, id);
      hide At, WarnsAt;
      if m < k {
        assert LeavesAlone(events[m], id, At(start, events, n, graceDays).invoices[id]);
      }
    }
  }

  lemma {:induction false} StaysPending(start: Db, events: seq<Event>, n: nat, m: nat, graceDays: nat, id: int)
    requires n <= m <= |events| && id in At(start, events, n, graceDays).invoices
    requires var i := At(start, events, n, graceDays).invoices[id];
      i.status == Pending && i.warnedAt == None && forall j :: n <= j < m ==> LeavesAlone(events[j], id, i)
    ensures id in At(start, events, m, graceDays).invoices
    ensures var i, later := At(start, events, n, graceDays).invoices[id], At(start, events, m, graceDays).invoices[id];
      later.status == Pending && later.warnedAt == None && later.dueDay == i.dueDay
    decreases m
  {
    if n < m {
      StaysPending(start, events, n, m - 1, graceDays, id);
      var db, e := At(start, events, m - 1, graceDays), events[m - 1];
      assert LeavesAlone(e, id, At(start, events, n, graceDays).invoices[id]);
      StatusAfter(db, e, graceDays, id);
      StampsAfter(db, e, graceDays, id);
      hide Step;
    }
  }

  ghost predicate Unwarned(db: Db) {
    forall id :: id in db.invoices ==> db.invoices[id].warnedAt == None && db.invoices[id].scheduledFor == None
  }

  /** No warning comes on or before the due day, and every schedule lies one grace period after the warning. */
  lemma {:induction false} NoWarningBeforeDue(start: Db, events: seq<Event>, n: nat, graceDays: nat, id: int)
    requires n <= |events| && id in At(start, events, n, graceDays).invoices
    requires Unwarned(start)
    ensures var i := At(start, events, n, graceDays).invoices[id];
      && (i.warnedAt.Some? ==> i.warnedAt.value >= PastDueFrom(i))
      && (i.scheduledFor.Some? ==> i.warnedAt.Some?)
      && (i.scheduledFor.Some? ==> i.scheduledFor.value == i.warnedAt.value + graceDays * 86_400_000)
    decreases n
  {
    hide Step;
    if n > 0 {
      var db, e := At(start, events, n - 1, graceDays), events[n - 1];
      if id in db.invoices {
        NoWarningBeforeDue(start, events, n - 1, graceDays, id);
        StatusAfter(db, e, graceDays, id);
        StampsAfter(db, e, graceDays, id);
      } else {
        RowIsNew(db, e, graceDays, id);
      }
    }
  }

  /** A cancelled invoice stays cancelled, whatever comes. */
  lemma {:induction false} CancelledForGood(start: Db, events: seq<Event>, n: nat, k: nat, graceDays: nat, id: int)
    requires n <= k <= |events| && id in At(start, events, n, graceDays).invoices
    requires At(start, events, n, graceDays).invoices[id].status == Cancelled
    ensures id in At(start, events, k, graceDays).invoices
    ensures At(start, events, k, graceDays).invoices[id].status == Cancelled
    decreases k
  {
    hide Step;
    if n < k {
      CancelledForGood(start, events, n, k - 1, graceDays, id);
      StatusAfter(At(start, events, k - 1, graceDays), events[k - 1], graceDays, id);
    }
  }

  /** A paid invoice stays paid until its payment is withdrawn. */
  lemma {:induction false} PaidUntilWithdrawn(start: Db, events: seq<Event>, n: nat, k: nat, graceDays: nat, id: int)
    requires n <= k <= |events| && id in At(start, events, n, graceDays).invoices
    requires At(start, events, n, graceDays).invoices[id].status == Paid
    requires forall m :: n <= m < k ==> events[m] != Payment(id, false)
    ensures id in At(start, events, k, graceDays).invoices
    ensures At(start, events, k, graceDays).invoices[id].status == Paid
    decreases k
  {
    hide Step;
    if n < k {
      PaidUntilWithdrawn(start, events, n, k - 1, graceDays, id);
      StatusAfter(At(start, events, k - 1, graceDays), events[k - 1], graceDays, id);
    }
  }

  // When the job suspends

  /** An unpaid invoice whose day of suspension has come, or, with no grace period, one that is warned now. */
  predicate CallsForSuspension(i: Invoice, now: int, graceDays: nat) {
    || (i.status == Overdue && i.scheduledFor.Some? && now >= i.scheduledFor.value)
    || (graceDays == 0 && i.status == Pending && i.warnedAt == None && now >= PastDueFrom(i))
  }

  /** The job suspends an academy if and only if it is active and one of its invoices calls for it: in
      particular, not while every invoice that was warned has been paid or cancelled. */
  lemma SuspendsIff(start: Db, events: seq<Event>, n: nat, graceDays: nat, t: int)
    requires n < |events| && events[n].JobRun?
    ensures SuspendsAt(start, events, n, graceDays, t) <==>
      var db := At(start, events, n, graceDays);
      && t in db.academies && db.academies[t].status == Active
      && exists id :: id in db.invoices && db.invoices[id].tenantId == t
           && CallsForSuspension(db.invoices[id], events[n].now, graceDays)
  {
    var db, now := At(start, events, n, graceDays), events[n].now;
    var middle := AfterWarnings(db, now, graceDays);
    forall id | id in db.invoices
      ensures DueForSuspension(middle.invoices[id], now) <==> CallsForSuspension(db.invoices[id], now, graceDays)
      ensures middle.invoices[id].tenantId == db.invoices[id].tenantId
    {
      DayIsOver(db.invoices[id], now);
      assert middle.invoices[id] == WarnedRow(db.invoices[id], now, graceDays);
    }
    assert middle.invoices.Keys == db.invoices.Keys && middle.academies == db.academies;
    hide At, DueForSuspension, CallsForSuspension, AfterWarnings;
  }

  // One event, one academy

  /** An academy is suspended for billing by the two chasing events, by hand only by a change of status, and
      made active again only by a reactivation that acknowledges the debts or by an approval. */
  lemma AcademyAfter(db: Db, e: Event, graceDays: nat, t: int)
    requires t in db.academies
    ensures t in Step(db, e, graceDays).academies
    ensures var before, after := db.academies[t], Step(db, e, graceDays).academies[t];
      match e
      case JobRun(now) =>
        after == if SuspendedByRun(db, now, graceDays, t) then Academy(Suspended, Some(ForBilling)) else before
      case ManualOverdue(now) =>
        after == if before.status == Active && ChasedBy(db, now, t) then Academy(Suspended, Some(ForBilling))
                 else before
      case StatusChange(u, status) =>
        && (u != t ==> after == before)
        && (u == t && before.status == Suspended && status == Active ==> after == before)
        && (u == t && !(before.status == Suspended && status == Active) ==>
              after.status == status && (after.reason == Some(Manual) <==> status == Suspended)
              && (after.reason.Some? ==> after.reason == Some(Manual)))
      case Reactivation(u, acknowledged) =>
        after == if u == t && before.status == Suspended && (acknowledged || !OwesNow(db, t)) then Academy(Active, None)
                 else before
      case Approval(u) => after.reason == before.reason && after.status == if u == t then Active else before.status
      case _ => after == before
  {
    if e.ManualOverdue? {
      forall id | id in db.invoices { DayIsOver(db.invoices[id], e.now); }
    }
  }

  /** Some pending invoice of the academy is past due. */
  predicate ChasedBy(db: Db, now: int, t: int) {
    exists id :: id in db.invoices && db.invoices[id].tenantId == t
      && db.invoices[id].status == Pending && now >= PastDueFrom(db.invoices[id])
  }

  predicate OwesNow(db: Db, t: int) {
    exists id :: id in db.invoices && db.invoices[id].tenantId == t && db.invoices[id].status == Overdue
  }

  /** What can end a suspension. */
  predicate MayEndSuspension(e: Event, t: int) {
    e == Approval(t) || e == Reactivation(t, true) || e == Reactivation(t, false) || e == StatusChange(t, Inactive)
  }

  lemma {:induction false} SuspendedUntilEnded(start: Db, events: seq<Event>, n: nat, k: nat, graceDays: nat, t: int)
    requires n <= k <= |events| && t in At(start, events, n, graceDays).academies
    requires At(start, events, n, graceDays).academies[t].status == Suspended
    requires forall m :: n <= m < k ==> !MayEndSuspension(events[m], t)
    ensures t in At(start, events, k, graceDays).academies
    ensures At(start, events, k, graceDays).academies[t].status == Suspended
    decreases k
  {
    hide Step, SuspendedByRun;
    if n < k {
      SuspendedUntilEnded(start, events, n, k - 1, graceDays, t);
      AcademyAfter(At(start, events, k - 1, graceDays), events[k - 1], graceDays, t);
    }
  }
}
