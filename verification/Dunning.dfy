/** The overdue-invoice job over the invoice and academy tables: warn first, suspend when the grace
    period of a warned invoice has passed. Instants are milliseconds, dates are day numbers. */
module Dunning {
  import opened Basics
  import opened Results

  const DAY_MS := 24 * 60 * 60 * 1000

  datatype InvoiceStatus = Pending | Paid | Overdue | Cancelled

  datatype Invoice = Invoice(
    tenantId: int, dueDay: int, status: InvoiceStatus, warnedAt: Option<int>, scheduledFor: Option<int>)

  datatype AcademyStatus = Active | Suspended | Inactive

  datatype SuspensionReason = ForBilling | Manual

  datatype Academy = Academy(status: AcademyStatus, reason: Option<SuspensionReason>)

  datatype Db = Db(invoices: map<int, Invoice>, academies: map<int, Academy>)

  /** The UTC day of an instant. */
  function DayOf(now: int): int { now / DAY_MS }

  // What each statement selects or does to one row

  predicate PendingPastDue(i: Invoice, today: int) { i.status == Pending && i.dueDay < today }

  predicate Claimable(i: Invoice) { i.status == Pending && i.warnedAt == None }

  predicate HasSchedule(i: Invoice) { i.status == Overdue && i.scheduledFor.Some? }

  predicate DueForSuspension(i: Invoice, now: int) { HasSchedule(i) && i.scheduledFor.value <= now }

  function WithWarning(i: Invoice, warnedAt: int, scheduledFor: int): Invoice {
    i.(status := Overdue, warnedAt := Some(warnedAt), scheduledFor := Some(scheduledFor))
  }

  function Unscheduled(i: Invoice): Invoice {
    if HasSchedule(i) then i.(scheduledFor := None) else i
  }

  const SuspendedForBilling := Academy(Suspended, Some(ForBilling))

  // The job as one change of whole tables

  /** The invoices one run warns. */
  predicate Warned(i: Invoice, now: int) { PendingPastDue(i, DayOf(now)) && Claimable(i) }

  function WarnedRow(i: Invoice, now: int, graceDays: nat): Invoice {
    if Warned(i, now) then WithWarning(i, now, now + graceDays * DAY_MS) else i
  }

  function AfterWarnings(db: Db, now: int, graceDays: nat): Db {
    db.(invoices := map id | id in db.invoices :: WarnedRow(db.invoices[id], now, graceDays))
  }

  predicate IsDueTenant(db: Db, now: int, t: int) {
    exists id :: id in db.invoices && db.invoices[id].tenantId == t && DueForSuspension(db.invoices[id], now)
  }

  /** Every due tenant's schedules are used up, also those of invoices not due yet. */
  ghost function AfterSuspensions(db: Db, now: int): Db {
    Db(
      map id | id in db.invoices ::
        if IsDueTenant(db, now, db.invoices[id].tenantId) then Unscheduled(db.invoices[id]) else db.invoices[id],
      map t | t in db.academies ::
        if IsDueTenant(db, now, t) && db.academies[t].status == Active then SuspendedForBilling
        else db.academies[t])
  }

  ghost function AfterRun(db: Db, now: int, graceDays: nat): Db {
    AfterSuspensions(AfterWarnings(db, now, graceDays), now)
  }

  /** The academies a run suspends. */
  ghost predicate SuspendedByRun(db: Db, now: int, graceDays: nat, t: int) {
    && t in db.academies && db.academies[t].status == Active
    && IsDueTenant(AfterWarnings(db, now, graceDays), now, t)
  }

  /** The manual "process overdue" action: it warns nobody and suspends at once. */
  ghost function AfterProcessOverdue(db: Db, now: int): Db {
    Db(
      map id | id in db.invoices ::
        if PendingPastDue(db.invoices[id], DayOf(now)) then db.invoices[id].(status := Overdue) else db.invoices[id],
      map t | t in db.academies ::
        if db.academies[t].status == Active && HasPastDue(db, now, t) then SuspendedForBilling
        else db.academies[t])
  }

  // The other calls that change the two tables

  datatype CallError =
    | NotFound | CannotEditCancelled | CannotCancelPaid | UseReactivate | NotSuspended | MustAcknowledge

  /** Setting an invoice to paid or back to pending touches neither its warning nor its schedule. */
  function AfterPayment(db: Db, id: int, paid: bool): Db {
    if id in db.invoices && db.invoices[id].status != Cancelled then
      db.(invoices := db.invoices[id := db.invoices[id].(status := if paid then Paid else Pending)])
    else db
  }

  function AfterCancel(db: Db, id: int): Db {
    if id in db.invoices && db.invoices[id].status != Paid then
      db.(invoices := db.invoices[id := db.invoices[id].(status := Cancelled)])
    else db
  }

  function AfterStatusChange(db: Db, t: int, status: AcademyStatus): Db {
    if t in db.academies && !(db.academies[t].status == Suspended && status == Active) then
      db.(academies := db.academies[t := Academy(status, if status == Suspended then Some(Manual) else None)])
    else db
  }

  predicate OwesOverdue(db: Db, t: int) {
    exists id :: id in db.invoices && db.invoices[id].tenantId == t && db.invoices[id].status == Overdue
  }

  ghost function AfterReactivation(db: Db, t: int, acknowledged: bool): Db {
    if t in db.academies && db.academies[t].status == Suspended && (OwesOverdue(db, t) ==> acknowledged) then
      db.(academies := db.academies[t := Academy(Active, None)])
    else db
  }

  predicate HasPastDue(db: Db, now: int, t: int) {
    exists id :: id in db.invoices && db.invoices[id].tenantId == t && PendingPastDue(db.invoices[id], DayOf(now))
  }

  /** `ids` lists exactly the members of `all`, each once; the order of a SELECT is left open. */
  ghost predicate Lists(ids: seq<int>, all: set<int>) {
    && (forall k :: 0 <= k < |ids| ==> ids[k] in all)
    && (forall id :: id in all ==> id in ids)
    && (forall j, k :: 0 <= j < k < |ids| ==> ids[j] != ids[k])
  }

  method ListRows(all: set<int>) returns (ids: seq<int>)
    ensures Lists(ids, all)
  {
    ids := [];
    var todo := all;
    while todo != {}
      invariant todo <= all
      invariant Lists(ids, all - todo)
      decreases todo
    {
      NonEmpty(todo);
      var next :| next in todo;
      ids, todo := ids + [next], todo - {next};
    }
  }

  class BillingTables {
    var invoices: map<int, Invoice>
    var academies: map<int, Academy>

    ghost function Tables(): Db
      reads this
    {
      Db(invoices, academies)
    }

    constructor (db: Db)
      ensures Tables() == db
    {
      invoices := db.invoices;
      academies := db.academies;
    }

    // Invoice and academy repositories

    method FindPendingPastDue(today: int) returns (ids: seq<int>)
      ensures Lists(ids, set id | id in invoices && PendingPastDue(invoices[id], today))
    {
      ids := ListRows(set id | id in invoices && PendingPastDue(invoices[id], today));
    }

    method FindDueForSuspension(now: int) returns (ids: seq<int>)
      ensures Lists(ids, set id | id in invoices && DueForSuspension(invoices[id], now))
    {
      ids := ListRows(set id | id in invoices && DueForSuspension(invoices[id], now));
    }

    /** The conditional UPDATE; `claimed` is affectedRows == 1. */
    method MarkOverdueWithWarning(id: int, warnedAt: int, scheduledFor: int) returns (claimed: bool)
      modifies this`invoices
      ensures claimed <==> id in old(invoices) && Claimable(old(invoices)[id])
      ensures invoices == if claimed
        then old(invoices)[id := WithWarning(old(invoices)[id], warnedAt, scheduledFor)] else old(invoices)
    {
      claimed := id in invoices && Claimable(invoices[id]);
      if claimed {
        invoices := invoices[id := WithWarning(invoices[id], warnedAt, scheduledFor)];
      }
    }

    method ClearSuspensionSchedule(tenantId: int)
      modifies this`invoices
      ensures invoices == ClearedFor(old(invoices), {tenantId})
    {
      invoices := map id | id in invoices ::
        if invoices[id].tenantId == tenantId then Unscheduled(invoices[id]) else invoices[id];
    }

    method MarkOverdue(id: int)
      modifies this`invoices
      ensures invoices == if id in old(invoices) && old(invoices)[id].status == Pending
        then old(invoices)[id := old(invoices)[id].(status := Overdue)] else old(invoices)
    {
      if id in invoices && invoices[id].status == Pending {
        invoices := invoices[id := invoices[id].(status := Overdue)];
      }
    }

    method UpdateAcademyStatus(tenantId: int, status: AcademyStatus, reason: SuspensionReason)
      modifies this`academies
      ensures academies == if tenantId in old(academies)
        then old(academies)[tenantId := Academy(status, if status == Suspended then Some(reason) else None)]
        else old(academies)
    {
      if tenantId in academies {
        academies := academies[tenantId := Academy(status, if status == Suspended then Some(reason) else None)];
      }
    }

    // The job

    method Run(now: int, graceDays: nat) returns (warned: seq<int>, suspended: seq<int>)
      modifies this
      ensures Tables() == AfterRun(old(Tables()), now, graceDays)
      ensures Lists(warned, set id | id in old(invoices) && Warned(old(invoices)[id], now))
      ensures Lists(suspended, set t | t in old(academies) && SuspendedByRun(old(Tables()), now, graceDays, t))
    {
      warned := WarnNewlyOverdue(now, graceDays);
      suspended := SuspendAfterGrace(now);
      assert (set t | t in old(academies) && SuspendedByRun(old(Tables()), now, graceDays, t))
        == set t | t in old(academies) && old(academies)[t].status == Active
                   && IsDueTenant(AfterWarnings(old(Tables()), now, graceDays), now, t);
    }

    method WarnNewlyOverdue(now: int, graceDays: nat) returns (warned: seq<int>)
      modifies this`invoices
      ensures Tables() == AfterWarnings(old(Tables()), now, graceDays)
      ensures Lists(warned, set id | id in old(invoices) && Warned(old(invoices)[id], now))
    {
      var suspensionDate := now + graceDays * DAY_MS;
      warned := [];
      var ids := FindPendingPastDue(DayOf(now));
      ghost var before := invoices;
      for k := 0 to |ids|
        invariant invoices == map id | id in before ::
          if id in ids[..k] then WarnedRow(before[id], now, graceDays) else before[id]
        invariant Lists(warned, set id | id in ids[..k] && Warned(before[id], now))
      {
        assert ids[..k + 1] == ids[..k] + [ids[k]];
        assert ids[k] !in ids[..k];
        var claimed := MarkOverdueWithWarning(ids[k], now, suspensionDate);
        if claimed {
          warned := warned + [ids[k]];
        }
      }
      assert ids[..|ids|] == ids;
      assert forall id :: id in before && id !in ids ==> WarnedRow(before[id], now, graceDays) == before[id];
      assert invoices == AfterWarnings(old(Tables()), now, graceDays).invoices;
    }

    method SuspendAfterGrace(now: int) returns (suspended: seq<int>)
      modifies this
      ensures Tables() == AfterSuspensions(old(Tables()), now)
      ensures Lists(suspended,
        set t | t in old(academies) && old(academies)[t].status == Active && IsDueTenant(old(Tables()), now, t))
    {
      hide ClearedFor, SuspendedIn, ActiveAmong, AfterSuspensions, IsDueTenant;
      suspended := [];
      var ids := FindDueForSuspension(now);
      ghost var db := Tables();
      ghost var seen: set<int> := {};
      NothingCleared(db.invoices);
      NobodySuspended(db.academies);
      for k := 0 to |ids|
        invariant seen == TenantsOf(db.invoices, ids[..k])
        invariant invoices == ClearedFor(db.invoices, seen)
        invariant academies == SuspendedIn(db.academies, seen)
        invariant Lists(suspended, ActiveAmong(db.academies, seen))
      {
        assert ids[..k + 1][..k] == ids[..k];
        var tenantId := invoices[ids[k]].tenantId;
        ghost var earlier := seen;
        seen := seen + {tenantId};
        OneMoreTenant(db, earlier, tenantId, suspended);
        if tenantId !in suspended {
          var academy := if tenantId in academies then Some(academies[tenantId]) else None;
          ClearSuspensionSchedule(tenantId);
          if academy.Some? && academy.value.status == Active {
            UpdateAcademyStatus(tenantId, Suspended, ForBilling);
            suspended := suspended + [tenantId];
          }
        }
      }
      assert ids[..|ids|] == ids;
      SeenAreDueTenants(db, now, ids);
    }

    method ProcessOverdueInvoices(now: int)
      modifies this
      ensures Tables() == AfterProcessOverdue(old(Tables()), now)
    {
      hide SuspendedIn, MarkedOverdue, AfterProcessOverdue;
      var ids := FindPendingPastDue(DayOf(now));
      ghost var db := Tables();
      ghost var seen: set<int> := {};
      NothingCleared(db.invoices);
      NobodySuspended(db.academies);
      for k := 0 to |ids|
        invariant seen == TenantsOf(db.invoices, ids[..k])
        invariant invoices == MarkedOverdue(db.invoices, ids[..k])
        invariant academies == SuspendedIn(db.academies, seen)
      {
        assert ids[..k + 1] == ids[..k] + [ids[k]] && ids[k] !in ids[..k] && ids[..k + 1][..k] == ids[..k];
        var tenantId := invoices[ids[k]].tenantId;
        SuspendedInMore(db.academies, seen, tenantId);
        MarkedOverdueMore(db.invoices, ids[..k], ids[k]);
        seen := seen + {tenantId};
        MarkOverdue(ids[k]);
        if tenantId in academies && academies[tenantId].status == Active {
          UpdateAcademyStatus(tenantId, Suspended, ForBilling);
        }
      }
      assert ids[..|ids|] == ids;
      MarkedIsProcessed(db, now, ids);
    }

    method UpdatePayment(id: int, paid: bool) returns (r: Result<Invoice, CallError>)
      modifies this`invoices
      ensures Tables() == AfterPayment(old(Tables()), id, paid)
      ensures r == if id !in old(invoices) then Err(NotFound)
        else if old(invoices)[id].status == Cancelled then Err(CannotEditCancelled) else Ok(invoices[id])
    {
      if id !in invoices {
        return Err(NotFound);
      }
      if invoices[id].status == Cancelled {
        return Err(CannotEditCancelled);
      }
      invoices := invoices[id := invoices[id].(status := if paid then Paid else Pending)];
      return Ok(invoices[id]);
    }

    method Cancel(id: int) returns (r: Result<Invoice, CallError>)
      modifies this`invoices
      ensures Tables() == AfterCancel(old(Tables()), id)
      ensures r == if id !in old(invoices) then Err(NotFound)
        else if old(invoices)[id].status == Paid then Err(CannotCancelPaid) else Ok(invoices[id])
    {
      if id !in invoices {
        return Err(NotFound);
      }
      if invoices[id].status == Paid {
        return Err(CannotCancelPaid);
      }
      if invoices[id].status == Cancelled {
        return Ok(invoices[id]);
      }
      invoices := invoices[id := invoices[id].(status := Cancelled)];
      return Ok(invoices[id]);
    }

    method ChangeAcademyStatus(t: int, status: AcademyStatus) returns (r: Result<Academy, CallError>)
      modifies this`academies
      ensures Tables() == AfterStatusChange(old(Tables()), t, status)
      ensures r == if t !in old(academies) then Err(NotFound)
        else if old(academies)[t].status == Suspended && status == Active then Err(UseReactivate) else Ok(academies[t])
    {
      if t !in academies {
        return Err(NotFound);
      }
      if academies[t].status == Suspended && status == Active {
        return Err(UseReactivate);
      }
      UpdateAcademyStatus(t, status, Manual);
      return Ok(academies[t]);
    }

    method ReactivateAcademy(t: int, acknowledged: bool) returns (r: Result<Academy, CallError>)
      modifies this`academies
      ensures Tables() == AfterReactivation(old(Tables()), t, acknowledged)
      ensures r == if t !in old(academies) then Err(NotFound)
        else if old(academies)[t].status != Suspended then Err(NotSuspended)
        else if OwesOverdue(old(Tables()), t) && !acknowledged then Err(MustAcknowledge)
        else Ok(Academy(Active, None))
    {
      if t !in academies {
        return Err(NotFound);
      }
      if academies[t].status != Suspended {
        return Err(NotSuspended);
      }
      var overdue := set id | id in invoices && invoices[id].tenantId == t && invoices[id].status == Overdue;
      assert overdue != {} <==> OwesOverdue(Tables(), t) by {
        if OwesOverdue(Tables(), t) {
          var id :| id in invoices && invoices[id].tenantId == t && invoices[id].status == Overdue;
          assert id in overdue;
        }
        if overdue != {} { NonEmpty(overdue); }
      }
      if |overdue| > 0 && !acknowledged {
        return Err(MustAcknowledge);
      }
      academies := academies[t := Academy(Active, None)];
      return Ok(academies[t]);
    }
  }

  function MarkedOverdue(invoices: map<int, Invoice>, ids: seq<int>): (marked: map<int, Invoice>)
    ensures marked.Keys == invoices.Keys
    ensures forall id :: id in marked ==> marked[id].tenantId == invoices[id].tenantId
  {
    map id | id in invoices :: if id in ids then invoices[id].(status := Overdue) else invoices[id]
  }

  /** The tenants of the listed invoices. */
  function TenantsOf(invoices: map<int, Invoice>, ids: seq<int>): (tenants: set<int>)
    requires forall k :: 0 <= k < |ids| ==> ids[k] in invoices
    ensures forall t :: t in tenants <==> exists k :: 0 <= k < |ids| && invoices[ids[k]].tenantId == t
  {
    if ids == [] then {}
    else
      var front := ids[..|ids| - 1];
      assert forall k :: 0 <= k < |front| ==> front[k] == ids[k];
      TenantsOf(invoices, front) + {invoices[ids[|ids| - 1]].tenantId}
  }

  function ActiveAmong(academies: map<int, Academy>, tenants: set<int>): set<int> {
    set t | t in tenants && t in academies && academies[t].status == Active
  }

  lemma MarkedIsProcessed(db: Db, now: int, ids: seq<int>)
    requires Lists(ids, set id | id in db.invoices && PendingPastDue(db.invoices[id], DayOf(now)))
    ensures MarkedOverdue(db.invoices, ids) == AfterProcessOverdue(db, now).invoices
    ensures SuspendedIn(db.academies, TenantsOf(db.invoices, ids)) == AfterProcessOverdue(db, now).academies
  {
    PastDueTenants(db, now, ids);
    ListedArePastDue(db, now, ids);
    hide TenantsOf, HasPastDue, PendingPastDue, Lists;
    var after := AfterProcessOverdue(db, now);
    var marked := MarkedOverdue(db.invoices, ids);
    forall id | id in db.invoices ensures marked[id] == after.invoices[id] {
      assert id in ids <==> PendingPastDue(db.invoices[id], DayOf(now));
    }
    assert marked == after.invoices;
  }

  lemma ListedArePastDue(db: Db, now: int, ids: seq<int>)
    requires Lists(ids, set id | id in db.invoices && PendingPastDue(db.invoices[id], DayOf(now)))
    ensures forall id :: id in db.invoices ==> (id in ids <==> PendingPastDue(db.invoices[id], DayOf(now)))
  {
    hide PendingPastDue;
  }

  lemma PastDueTenants(db: Db, now: int, ids: seq<int>)
    requires Lists(ids, set id | id in db.invoices && PendingPastDue(db.invoices[id], DayOf(now)))
    ensures forall t :: t in TenantsOf(db.invoices, ids) <==> HasPastDue(db, now, t)
  {
    ListedArePastDue(db, now, ids);
    var seen := TenantsOf(db.invoices, ids);
    hide TenantsOf, PendingPastDue;
    forall t ensures t in seen <==> HasPastDue(db, now, t) {
      if t in seen {
        var j :| 0 <= j < |ids| && db.invoices[ids[j]].tenantId == t;
        assert ids[j] in ids && ids[j] in db.invoices;
      }
      if HasPastDue(db, now, t) {
        var id :| id in db.invoices && db.invoices[id].tenantId == t && PendingPastDue(db.invoices[id], DayOf(now));
        assert id in ids;
      }
    }
  }

  function ClearedFor(invoices: map<int, Invoice>, tenants: set<int>): (cleared: map<int, Invoice>)
    ensures cleared.Keys == invoices.Keys
    ensures forall id :: id in cleared ==> cleared[id].tenantId == invoices[id].tenantId
  {
    map id | id in invoices :: if invoices[id].tenantId in tenants then Unscheduled(invoices[id]) else invoices[id]
  }

  function SuspendedIn(academies: map<int, Academy>, tenants: set<int>): (suspended: map<int, Academy>)
    ensures suspended.Keys == academies.Keys
  {
    map t | t in academies ::
      if t in tenants && academies[t].status == Active then SuspendedForBilling else academies[t]
  }

  lemma NothingCleared(invoices: map<int, Invoice>)
    ensures ClearedFor(invoices, {}) == invoices && MarkedOverdue(invoices, []) == invoices
  {
  }

  lemma NobodySuspended(academies: map<int, Academy>)
    ensures SuspendedIn(academies, {}) == academies && ActiveAmong(academies, {}) == {}
  {
  }

  lemma ClearedForMore(invoices: map<int, Invoice>, tenants: set<int>, t: int)
    ensures ClearedFor(invoices, tenants + {t}) == ClearedFor(ClearedFor(invoices, tenants), {t})
  {
    var once := ClearedFor(invoices, tenants);
    forall id | id in invoices ensures ClearedFor(invoices, tenants + {t})[id] == ClearedFor(once, {t})[id] {
      assert once[id].tenantId == invoices[id].tenantId;
    }
  }

  /** One more tenant: only an academy that is still active changes. */
  lemma SuspendedInMore(academies: map<int, Academy>, tenants: set<int>, t: int)
    ensures var before := SuspendedIn(academies, tenants);
      SuspendedIn(academies, tenants + {t})
      == if t in before && before[t].status == Active then before[t := SuspendedForBilling] else before
    ensures var before := SuspendedIn(academies, tenants);
      t !in tenants && t in academies ==> before[t] == academies[t]
    ensures var before := SuspendedIn(academies, tenants);
      t in tenants && t in academies ==> before[t].status != Active
  {
  }

  lemma ActiveAmongMore(academies: map<int, Academy>, tenants: set<int>, t: int)
    ensures ActiveAmong(academies, tenants + {t})
         == ActiveAmong(academies, tenants) + (if t in academies && academies[t].status == Active then {t} else {})
    ensures ActiveAmong(academies, tenants) <= tenants
  {
  }

  /** The step of the suspension loop: `suspended` is the list kept so far. */
  lemma OneMoreTenant(db: Db, tenants: set<int>, t: int, suspended: seq<int>)
    requires Lists(suspended, ActiveAmong(db.academies, tenants))
    ensures var before := SuspendedIn(db.academies, tenants);
      var newly := t in before && before[t].status == Active;
      && ClearedFor(db.invoices, tenants + {t}) == ClearedFor(ClearedFor(db.invoices, tenants), {t})
      && SuspendedIn(db.academies, tenants + {t}) == (if newly then before[t := SuspendedForBilling] else before)
      && Lists(if newly then suspended + [t] else suspended, ActiveAmong(db.academies, tenants + {t}))
      && (t in suspended ==> t in tenants && !newly && tenants + {t} == tenants)
  {
    hide ClearedFor;
    ClearedForMore(db.invoices, tenants, t);
    SuspendedInMore(db.academies, tenants, t);
    ActiveAmongMore(db.academies, tenants, t);
  }

  lemma MarkedOverdueMore(invoices: map<int, Invoice>, ids: seq<int>, id: int)
    requires id in invoices && id !in ids
    ensures var before := MarkedOverdue(invoices, ids);
      && id in before && before[id] == invoices[id]
      && MarkedOverdue(invoices, ids + [id]) == before[id := before[id].(status := Overdue)]
  {
  }

  lemma SeenAreDueTenants(db: Db, now: int, ids: seq<int>)
    requires Lists(ids, set id | id in db.invoices && DueForSuspension(db.invoices[id], now))
    ensures var seen := TenantsOf(db.invoices, ids);
      && ClearedFor(db.invoices, seen) == AfterSuspensions(db, now).invoices
      && SuspendedIn(db.academies, seen) == AfterSuspensions(db, now).academies
      && ActiveAmong(db.academies, seen)
         == set t | t in db.academies && db.academies[t].status == Active && IsDueTenant(db, now, t)
  {
    SeenTenants(db, now, ids);
    hide IsDueTenant, TenantsOf, DueForSuspension;
  }

  lemma SeenTenants(db: Db, now: int, ids: seq<int>)
    requires Lists(ids, set id | id in db.invoices && DueForSuspension(db.invoices[id], now))
    ensures forall t :: t in TenantsOf(db.invoices, ids) <==> IsDueTenant(db, now, t)
  {
    var seen := TenantsOf(db.invoices, ids);
    forall t ensures t in seen <==> IsDueTenant(db, now, t) {
      if t in seen {
        var j :| 0 <= j < |ids| && db.invoices[ids[j]].tenantId == t;
        assert ids[j] in db.invoices && DueForSuspension(db.invoices[ids[j]], now);
      }
      if IsDueTenant(db, now, t) {
        var id :| id in db.invoices && db.invoices[id].tenantId == t && DueForSuspension(db.invoices[id], now);
        assert id in ids;
      }
    }
  }

  /** After a run no invoice is left to warn and none is due for suspension. */
  lemma RunLeavesNothingToDo(db: Db, now: int, graceDays: nat)
    ensures forall id :: id in AfterRun(db, now, graceDays).invoices ==>
      var i := AfterRun(db, now, graceDays).invoices[id]; !Warned(i, now) && !DueForSuspension(i, now)
  {
    var middle := AfterWarnings(db, now, graceDays);
    var after := AfterRun(db, now, graceDays);
    forall id | id in after.invoices
      ensures !Warned(after.invoices[id], now) && !DueForSuspension(after.invoices[id], now)
    {
      assert middle.invoices[id] == WarnedRow(db.invoices[id], now, graceDays);
      if IsDueTenant(middle, now, middle.invoices[id].tenantId) {
        assert after.invoices[id] == Unscheduled(middle.invoices[id]);
      } else {
        assert after.invoices[id] == middle.invoices[id];
      }
    }
  }

  /** Running the job twice at the same instant changes nothing the second time. */
  lemma RunTwiceIsRunOnce(db: Db, now: int, graceDays: nat)
    ensures AfterRun(AfterRun(db, now, graceDays), now, graceDays) == AfterRun(db, now, graceDays)
  {
    var after := AfterRun(db, now, graceDays);
    RunLeavesNothingToDo(db, now, graceDays);
    forall id | id in after.invoices ensures WarnedRow(after.invoices[id], now, graceDays) == after.invoices[id] {
    }
    assert AfterWarnings(after, now, graceDays).invoices == after.invoices;
    assert forall t :: !IsDueTenant(after, now, t);
    assert AfterSuspensions(after, now).invoices == after.invoices;
    assert AfterSuspensions(after, now).academies == after.academies;
  }
}
