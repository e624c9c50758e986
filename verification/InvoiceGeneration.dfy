/** Check-then-create of the invoices of one period. The table is append only here; a row's id is its
    position. Money is counted in whole cents. */
module InvoiceGeneration {
  import opened Results
  import opened Calendar
  import opened DateText
  import opened BillingPeriod
  import opened AnnualCharge

  datatype InvoiceType = Monthly | Annual

  /** The columns of the unique key uk_invoices_tenant_period_type. */
  datatype InvoiceKey = InvoiceKey(tenantId: int, range: PeriodRange, kind: InvoiceType)

  datatype Amounts = Amounts(amount: int, playerCount: Option<int>, pricePerPlayer: Option<int>, annualFee: Option<int>)

  datatype Invoice = Invoice(key: InvoiceKey, planId: int, amounts: Amounts, issueDate: CivilDate, dueDate: CivilDate)

  datatype Academy = Academy(planId: Option<int>, anchorDay: int, anniversaryMonth: int)

  datatype Plan = Plan(pricePerPlayer: int, annualFee: int)

  /** One request, with what the lookups of the academy, the plan and the player count return. */
  datatype Request = Request(
    tenantId: int, academy: Option<Academy>, plan: Option<Plan>, activePlayers: int,
    periodYear: Option<int>, periodMonth: Option<int>, reference: CivilDate)

  datatype GenerationError =
    | AcademyNotFound
    | NoPlanAssigned
    | PlanNotFound
    | Billing(error: BillingError)
    | NegativeAmount

  /** The ids of all invoices of the period, of the created ones, and the kinds that were there already. */
  datatype Generated = Generated(all: seq<nat>, created: seq<nat>, skipped: seq<InvoiceType>)

  predicate Given(n: Option<int>) { n.Some? && n.value != 0 }

  predicate ByMonth(q: Request) { Given(q.periodYear) && Given(q.periodMonth) }

  /** What the validators and the date arithmetic ask of a request. */
  predicate WellFormed(q: Request) {
    && IsDate(q.reference) && 1001 <= q.reference.year <= 9998
    && (ByMonth(q) ==> 1001 <= q.periodYear.value <= 9998 && IsMonth(q.periodMonth.value))
    && (q.academy.Some? ==> IsMonth(q.academy.value.anniversaryMonth))
  }

  function ResolvePeriod(anchorDay: int, q: Request): Result<PeriodDates, BillingError>
    requires WellFormed(q)
  {
    if ByMonth(q) then
      ComputePeriodForAnchorMonth(anchorDay, q.periodYear.value, q.periodMonth.value, BILLING_DUE_DAYS_AFTER_PERIOD)
    else
      ComputeAnchoredMonthlyBillingPeriod(anchorDay, q.reference, BILLING_DUE_DAYS_AFTER_PERIOD, Current)
  }

  /** The month whose anchor opens the requested period. */
  function RequestedIndex(anchorDay: int, q: Request): int
    requires WellFormed(q)
  {
    if ByMonth(q) then MonthIndex(q.periodYear.value, q.periodMonth.value)
    else CurrentIndex(anchorDay, q.reference)
  }

  /** Both routes name a period of the same family of anchored periods. */
  lemma ResolvedPeriodIsAnchored(anchorDay: int, q: Request)
    requires WellFormed(q) && ValidAnchorDay(anchorDay)
    ensures ResolvePeriod(anchorDay, q).Ok?
    ensures ResolvePeriod(anchorDay, q).value.range == PeriodAt(anchorDay, RequestedIndex(anchorDay, q))
    ensures ValidRange(PeriodAt(anchorDay, RequestedIndex(anchorDay, q)))
  {
    hide ResolveAnchoredBillingPeriod, ResolveAnchoredPeriodForMonth, FromDayNumber, DayNumber, LastDayOfMonth;
    if ByMonth(q) {
      PeriodForMonthIsAnchored(anchorDay, q.periodYear.value, q.periodMonth.value);
    } else {
      ResolveIsCurrentPeriod(anchorDay, q.reference, Current);
    }
  }

  /** A year or month that is missing or 0 leaves the choice to the reference date; otherwise they choose. */
  lemma PeriodAskedFor(anchorDay: int, q: Request)
    requires WellFormed(q) && ValidAnchorDay(anchorDay)
    ensures q.periodYear in [None, Some(0)] || q.periodMonth in [None, Some(0)]
      ==> InPeriod(PeriodAt(anchorDay, RequestedIndex(anchorDay, q)), q.reference)
    ensures q.periodYear !in [None, Some(0)] && q.periodMonth !in [None, Some(0)]
      ==> var opens := PeriodAt(anchorDay, RequestedIndex(anchorDay, q)).periodStart;
          q.periodYear == Some(opens.year) && q.periodMonth == Some(opens.month)
  {
    hide DayNumber, FromDayNumber, LastDayOfMonth, InPeriod, CurrentIndex;
    if ByMonth(q) {
      assert MonthIndex(q.periodYear.value, q.periodMonth.value) == RequestedIndex(anchorDay, q);
    } else {
      CurrentPeriodHoldsReference(anchorDay, q.reference);
    }
  }

  lemma ResolveChecksAnchor(anchorDay: int, q: Request)
    requires WellFormed(q)
    ensures ResolvePeriod(anchorDay, q).Ok? <==> ValidAnchorDay(anchorDay)
    ensures !ValidAnchorDay(anchorDay) ==> ResolvePeriod(anchorDay, q) == Err(InvalidAnchorDay(anchorDay))
  {
    hide FromDayNumber, DayNumber, LastDayOfMonth, FormatDate;
  }

  function MonthlyAmounts(plan: Plan, activePlayers: int): Result<Amounts, GenerationError> {
    if plan.pricePerPlayer < 0 || activePlayers < 0 then Err(NegativeAmount)
    else Ok(Amounts(plan.pricePerPlayer * activePlayers, Some(activePlayers), Some(plan.pricePerPlayer), None))
  }

  function AnnualAmounts(plan: Plan): Result<Amounts, GenerationError> {
    if plan.annualFee < 0 then Err(NegativeAmount)
    else Ok(Amounts(plan.annualFee, None, None, Some(plan.annualFee)))
  }

  // What one request asks for, read off without the table

  ghost predicate Billable(q: Request)
    requires WellFormed(q)
  {
    && q.academy.Some? && q.academy.value.planId.Some? && q.plan.Some?
    && ValidAnchorDay(q.academy.value.anchorDay)
  }

  ghost function RequestedPeriod(q: Request): PeriodRange
    requires WellFormed(q) && Billable(q)
  {
    PeriodAt(q.academy.value.anchorDay, RequestedIndex(q.academy.value.anchorDay, q))
  }

  ghost predicate IncludesAnnual(q: Request)
    requires WellFormed(q) && Billable(q)
  {
    MonthOfIndex(RequestedIndex(q.academy.value.anchorDay, q)) == q.academy.value.anniversaryMonth
  }

  ghost function MonthlyKey(q: Request): InvoiceKey
    requires WellFormed(q) && Billable(q)
  {
    InvoiceKey(q.tenantId, RequestedPeriod(q), Monthly)
  }

  ghost function AnnualKey(q: Request): InvoiceKey
    requires WellFormed(q) && Billable(q)
  {
    MonthlyKey(q).(kind := Annual)
  }

  /** Exactly the invoices that exist once the request has been served. */
  ghost function WantedKeys(q: Request): set<InvoiceKey>
    requires WellFormed(q)
  {
    if !Billable(q) then {}
    else if IncludesAnnual(q) then {MonthlyKey(q), AnnualKey(q)}
    else {MonthlyKey(q)}
  }

  // The table

  function KeysOf(rows: seq<Invoice>): set<InvoiceKey> {
    set i | 0 <= i < |rows| :: rows[i].key
  }

  predicate UniqueKeys(rows: seq<Invoice>) {
    forall i, j :: 0 <= i < j < |rows| ==> rows[i].key != rows[j].key
  }

  /** rows with `invoice` added unless its key is already there: the effect of ensureInvoice. */
  function Ensured(rows: seq<Invoice>, invoice: Invoice): seq<Invoice> {
    if invoice.key in KeysOf(rows) then rows else rows + [invoice]
  }

  lemma EnsuredKeys(rows: seq<Invoice>, invoice: Invoice)
    ensures rows <= Ensured(rows, invoice)
    ensures KeysOf(Ensured(rows, invoice)) == KeysOf(rows) + {invoice.key}
    ensures UniqueKeys(rows) ==> UniqueKeys(Ensured(rows, invoice))
    ensures Ensured(rows, invoice) == rows <==> invoice.key in KeysOf(rows)
  {
    var after := Ensured(rows, invoice);
    if invoice.key !in KeysOf(rows) {
      assert after[|rows|] == invoice;
      assert forall i :: 0 <= i < |rows| ==> after[i] == rows[i] && rows[i].key in KeysOf(rows);
      assert KeysOf(after) == KeysOf(rows) + {invoice.key};
    }
  }

  ghost function InvoiceFor(q: Request, kind: InvoiceType, amounts: Amounts): Invoice
    requires WellFormed(q) && Billable(q)
  {
    var a := q.academy.value;
    ResolvedPeriodIsAnchored(a.anchorDay, q);
    var period := ResolvePeriod(a.anchorDay, q).value;
    Invoice(InvoiceKey(q.tenantId, RequestedPeriod(q), kind), a.planId.value, amounts, period.issueDate, period.dueDate)
  }

  /** What a request bills, column by column: the head count times the price, or the annual fee; due a week
      after the period; issued on the first day of a period that was named by its month, else on the
      reference date. */
  ghost predicate BilledBy(row: Invoice, q: Request)
    requires WellFormed(q) && Billable(q)
  {
    && row.key.tenantId == q.tenantId && row.key.range == RequestedPeriod(q)
    && Some(row.planId) == q.academy.value.planId
    && row.amounts.amount
       == (if row.key.kind == Monthly then q.plan.value.pricePerPlayer * q.activePlayers else q.plan.value.annualFee)
    && row.amounts.amount >= 0
    && row.amounts.playerCount == (if row.key.kind == Monthly then Some(q.activePlayers) else None)
    && row.amounts.pricePerPlayer == (if row.key.kind == Monthly then Some(q.plan.value.pricePerPlayer) else None)
    && row.amounts.annualFee == (if row.key.kind == Monthly then None else Some(q.plan.value.annualFee))
    && row.issueDate == (if ByMonth(q) then row.key.range.periodStart else q.reference)
    && IsDate(row.dueDate) && IsMonth(row.key.range.periodEnd.month)
    && DayNumber(row.dueDate) - DayNumber(row.key.range.periodEnd) == 7
  }

  lemma DueInAWeek(anchorDay: int, q: Request)
    requires WellFormed(q) && ValidAnchorDay(anchorDay)
    ensures ResolvePeriod(anchorDay, q).Ok?
    ensures var p := ResolvePeriod(anchorDay, q).value;
      DueAfterEnd(p, 7) && p.issueDate == if ByMonth(q) then p.range.periodStart else q.reference
  {
    hide ResolveAnchoredBillingPeriod, ResolveAnchoredPeriodForMonth, FromDayNumber, DayNumber, LastDayOfMonth;
    if ByMonth(q) {
      MonthDueDate(anchorDay, q.periodYear.value, q.periodMonth.value, 7);
    } else {
      ReferenceDueDate(anchorDay, q.reference, 7, Current);
    }
  }

  lemma MonthlyRow(q: Request)
    requires WellFormed(q) && Billable(q) && MonthlyAmounts(q.plan.value, q.activePlayers).Ok?
    ensures BilledBy(InvoiceFor(q, Monthly, MonthlyAmounts(q.plan.value, q.activePlayers).value), q)
  {
    DueInAWeek(q.academy.value.anchorDay, q);
    ResolvedPeriodIsAnchored(q.academy.value.anchorDay, q);
    hide ResolvePeriod, RequestedIndex, PeriodAt, DayNumber, IsDate;
    NeverNegative(q.plan.value.pricePerPlayer, q.activePlayers);
  }

  lemma NeverNegative(a: int, b: int)
    requires a >= 0 && b >= 0
    ensures a * b >= 0
  {
  }

  lemma AnnualRow(q: Request)
    requires WellFormed(q) && Billable(q) && AnnualAmounts(q.plan.value).Ok?
    ensures BilledBy(InvoiceFor(q, Annual, AnnualAmounts(q.plan.value).value), q)
  {
    DueInAWeek(q.academy.value.anchorDay, q);
    ResolvedPeriodIsAnchored(q.academy.value.anchorDay, q);
    hide ResolvePeriod, RequestedIndex, PeriodAt, DayNumber, IsDate;
  }

  /** Whether the request fails although the academy and its plan are in order: an amount is
      negative and an invoice has to be built from it. */
  ghost predicate MonthlyFails(rows: seq<Invoice>, q: Request)
    requires WellFormed(q) && Billable(q)
  {
    MonthlyKey(q) !in KeysOf(rows) && MonthlyAmounts(q.plan.value, q.activePlayers).Err?
  }

  ghost predicate AnnualFails(rows: seq<Invoice>, q: Request)
    requires WellFormed(q) && Billable(q)
  {
    IncludesAnnual(q) && AnnualKey(q) !in KeysOf(rows) && AnnualAmounts(q.plan.value).Err?
  }

  ghost function AfterMonthly(rows: seq<Invoice>, q: Request): seq<Invoice>
    requires WellFormed(q) && Billable(q)
  {
    var amounts := MonthlyAmounts(q.plan.value, q.activePlayers);
    if amounts.Err? then rows else Ensured(rows, InvoiceFor(q, Monthly, amounts.value))
  }

  ghost function AfterAnnual(rows: seq<Invoice>, q: Request): seq<Invoice>
    requires WellFormed(q) && Billable(q)
  {
    var amounts := AnnualAmounts(q.plan.value);
    if !IncludesAnnual(q) || amounts.Err? then rows else Ensured(rows, InvoiceFor(q, Annual, amounts.value))
  }

  /** The table after one request. A negative annual fee is noticed only after the monthly invoice
      has been stored, and that invoice stays. */
  ghost function AfterRequest(rows: seq<Invoice>, q: Request): seq<Invoice>
    requires WellFormed(q)
  {
    if !Billable(q) || MonthlyFails(rows, q) then rows
    else AfterAnnual(AfterMonthly(rows, q), q)
  }

  ghost predicate Succeeds(rows: seq<Invoice>, q: Request)
    requires WellFormed(q)
  {
    Billable(q) && !MonthlyFails(rows, q) && !AnnualFails(rows, q)
  }

  ghost predicate AddsOnlyBilled(before: seq<Invoice>, after: seq<Invoice>, q: Request)
    requires WellFormed(q) && Billable(q)
  {
    before <= after && forall i :: |before| <= i < |after| ==> BilledBy(after[i], q)
  }

  lemma EnsuredIsBilled(rows: seq<Invoice>, invoice: Invoice, q: Request)
    requires WellFormed(q) && Billable(q) && BilledBy(invoice, q)
    ensures AddsOnlyBilled(rows, Ensured(rows, invoice), q)
  {
    hide BilledBy, KeysOf, WellFormed, Billable;
  }

  lemma MonthlyAddsBilled(rows: seq<Invoice>, q: Request)
    requires WellFormed(q) && Billable(q)
    ensures AddsOnlyBilled(rows, AfterMonthly(rows, q), q)
  {
    var amounts := MonthlyAmounts(q.plan.value, q.activePlayers);
    hide BilledBy, InvoiceFor, MonthlyAmounts, Ensured;
    if amounts.Ok? {
      MonthlyRow(q);
      EnsuredIsBilled(rows, InvoiceFor(q, Monthly, amounts.value), q);
    }
  }

  lemma AnnualAddsBilled(rows: seq<Invoice>, q: Request)
    requires WellFormed(q) && Billable(q)
    ensures AddsOnlyBilled(rows, AfterAnnual(rows, q), q)
  {
    var amounts := AnnualAmounts(q.plan.value);
    hide BilledBy, InvoiceFor, AnnualAmounts, Ensured, IncludesAnnual;
    if amounts.Ok? {
      AnnualRow(q);
      EnsuredIsBilled(rows, InvoiceFor(q, Annual, amounts.value), q);
    }
  }

  /** Every row that a request adds is what it bills. */
  lemma NewRowsAreBilled(rows: seq<Invoice>, q: Request)
    requires WellFormed(q)
    ensures rows <= AfterRequest(rows, q)
    ensures Billable(q) ==> forall i :: |rows| <= i < |AfterRequest(rows, q)| ==> BilledBy(AfterRequest(rows, q)[i], q)
    ensures !Billable(q) ==> AfterRequest(rows, q) == rows
  {
    hide WellFormed, BilledBy, AfterMonthly, AfterAnnual, MonthlyFails;
    if Billable(q) {
      MonthlyAddsBilled(rows, q);
      AnnualAddsBilled(AfterMonthly(rows, q), q);
    }
  }

  /** A request succeeds if and only if it is in order and bills no negative number for an invoice that is
      still missing. */
  lemma SucceedsIff(rows: seq<Invoice>, q: Request)
    requires WellFormed(q)
    ensures Succeeds(rows, q) <==>
      && q.academy.Some? && q.academy.value.planId.Some? && q.plan.Some? && 1 <= q.academy.value.anchorDay <= 31
      && (MonthlyKey(q) in KeysOf(rows) || (q.plan.value.pricePerPlayer >= 0 && q.activePlayers >= 0))
      && (IncludesAnnual(q) ==> AnnualKey(q) in KeysOf(rows) || q.plan.value.annualFee >= 0)
  {
    hide KeysOf, RequestedIndex, PeriodAt, MonthOfIndex;
  }

  class InvoiceTable {
    var rows: seq<Invoice>

    constructor ()
      ensures rows == []
    {
      rows := [];
    }

    method FindByTenantPeriodAndType(key: InvoiceKey) returns (id: Option<nat>)
      ensures id.Some? ==> id.value < |rows| && rows[id.value].key == key
      ensures id.None? ==> key !in KeysOf(rows)
    {
      for i := 0 to |rows|
        invariant forall j :: 0 <= j < i ==> rows[j].key != key
      {
        if rows[i].key == key {
          return Some(i);
        }
      }
      return None;
    }

    method Create(invoice: Invoice) returns (id: nat)
      modifies this
      ensures rows == old(rows) + [invoice] && id == |old(rows)|
    {
      id := |rows|;
      rows := rows + [invoice];
    }

    /** `build` is what the code's callback returns or throws when it is run. */
    method EnsureInvoice(key: InvoiceKey, planId: int, period: PeriodDates, build: Result<Amounts, GenerationError>)
      returns (r: Result<(nat, bool), GenerationError>)
      modifies this
      ensures r.Err? <==> key !in KeysOf(old(rows)) && build.Err?
      ensures r.Err? ==> rows == old(rows) && r.error == build.error
      ensures r.Ok? ==> r.value.0 < |rows| && rows[r.value.0].key == key
      ensures r.Ok? ==> (r.value.1 <==> key !in KeysOf(old(rows)))
      ensures r.Ok? && r.value.1 ==> r.value.0 == |old(rows)|
      ensures r.Ok? ==> |rows| == |old(rows)| + if r.value.1 then 1 else 0
      ensures r.Ok? ==> rows == if build.Ok?
        then Ensured(old(rows), Invoice(key, planId, build.value, period.issueDate, period.dueDate))
        else old(rows)
    {
      var existing := FindByTenantPeriodAndType(key);
      if existing.Some? {
        assert key in KeysOf(rows);
        return Ok((existing.value, false));
      }
      if build.Err? {
        return Err(build.error);
      }
      var id := Create(Invoice(key, planId, build.value, period.issueDate, period.dueDate));
      return Ok((id, true));
    }

    /** Creates what is missing of the requested period and reports what was there already. */
    method GeneratePeriodInvoices(q: Request) returns (r: Result<Generated, GenerationError>)
      requires WellFormed(q)
      modifies this
      ensures rows == AfterRequest(old(rows), q) && old(rows) <= rows
      ensures Billable(q) ==> forall i :: |old(rows)| <= i < |rows| ==> BilledBy(rows[i], q)
      ensures r.Ok? <==> Succeeds(old(rows), q)
      ensures q.academy.None? ==> r == Err(AcademyNotFound)
      ensures q.academy.Some? && q.academy.value.planId.None? ==> r == Err(NoPlanAssigned)
      ensures q.academy.Some? && q.academy.value.planId.Some? && q.plan.None? ==> r == Err(PlanNotFound)
      ensures q.academy.Some? && q.academy.value.planId.Some? && q.plan.Some? && !Billable(q) ==>
        r == Err(Billing(InvalidAnchorDay(q.academy.value.anchorDay)))
      ensures Billable(q) && !Succeeds(old(rows), q) ==> r == Err(NegativeAmount)
      ensures r.Ok? ==> |r.value.all| == (if IncludesAnnual(q) then 2 else 1)
      ensures r.Ok? ==> r.value.all[0] < |rows| && rows[r.value.all[0]].key == MonthlyKey(q)
      ensures r.Ok? && IncludesAnnual(q) ==> r.value.all[1] < |rows| && rows[r.value.all[1]].key == AnnualKey(q)
      ensures r.Ok? ==> r.value.created == seq(|rows| - |old(rows)|, i => |old(rows)| + i)
      ensures r.Ok? ==> (Monthly in r.value.skipped <==> MonthlyKey(q) in KeysOf(old(rows)))
      ensures r.Ok? ==> (Annual in r.value.skipped <==> IncludesAnnual(q) && AnnualKey(q) in KeysOf(old(rows)))
    {
      hide ResolvePeriod, RequestedIndex, AnniversaryInside, PeriodAt, MonthOfIndex, Ensured, KeysOf, BilledBy;
      NewRowsAreBilled(rows, q);
      if q.academy.None? {
        return Err(AcademyNotFound);
      }
      var academy := q.academy.value;
      if academy.planId.None? {
        return Err(NoPlanAssigned);
      }
      if q.plan.None? {
        return Err(PlanNotFound);
      }
      var resolved := ResolvePeriod(academy.anchorDay, q);
      ResolveChecksAnchor(academy.anchorDay, q);
      if resolved.Err? {
        return Err(Billing(resolved.error));
      }
      var period := resolved.value;
      ResolvedPeriodIsAnchored(academy.anchorDay, q);
      ChargedInAnniversaryMonth(academy.anchorDay, academy.anniversaryMonth, RequestedIndex(academy.anchorDay, q));
      var includeAnnual := IsAnnualChargeDueInBillingPeriod(academy.anniversaryMonth, academy.anchorDay, period.range);
      assert includeAnnual.Ok?;  // resolving the period has already checked the anchor day
      var all, created, skipped := [], [], [];
      var monthlyKey := InvoiceKey(q.tenantId, period.range, Monthly);
      var amounts := MonthlyAmounts(q.plan.value, q.activePlayers);
      var monthly := EnsureInvoice(monthlyKey, academy.planId.value, period, amounts);
      if monthly.Err? {
        return Err(monthly.error);
      }
      if MonthlyAmounts(q.plan.value, q.activePlayers).Ok? {
        EnsuredKeys(old(rows), InvoiceFor(q, Monthly, MonthlyAmounts(q.plan.value, q.activePlayers).value));
      }
      assert rows == AfterMonthly(old(rows), q);
      label Half:
      all := all + [monthly.value.0];
      if monthly.value.1 { created := created + [monthly.value.0]; } else { skipped := skipped + [Monthly]; }
      if includeAnnual.value {
        var annualKey := InvoiceKey(q.tenantId, period.range, Annual);
        var annual := EnsureInvoice(annualKey, academy.planId.value, period, AnnualAmounts(q.plan.value));
        if annual.Err? {
          return Err(annual.error);
        }
        if AnnualAmounts(q.plan.value).Ok? {
          EnsuredKeys(old@Half(rows), InvoiceFor(q, Annual, AnnualAmounts(q.plan.value).value));
        }
        all := all + [annual.value.0];
        if annual.value.1 { created := created + [annual.value.0]; } else { skipped := skipped + [Annual]; }
      }
      return Ok(Generated(all, created, skipped));
    }
  }
}
