/** What any sequence of invoice generations leaves in the table. */
module InvoiceRuns {
  import opened Results
  import opened Calendar
  import opened DateText
  import opened BillingPeriod
  import opened AnnualCharge
  import opened InvoiceGeneration

  ghost predicate AllWellFormed(qs: seq<Request>) {
    forall i :: 0 <= i < |qs| ==> WellFormed(qs[i])
  }

  ghost function AfterRequests(rows: seq<Invoice>, qs: seq<Request>): seq<Invoice>
    requires AllWellFormed(qs)
    decreases |qs|
  {
    if qs == [] then rows else AfterRequests(AfterRequest(rows, qs[0]), qs[1..])
  }

  /** Amounts are built from a plan with non-negative fees and a non-negative head count. */
  predicate Payable(q: Request) {
    q.plan.Some? ==> q.plan.value.pricePerPlayer >= 0 && q.plan.value.annualFee >= 0 && q.activePlayers >= 0
  }

  /** One request keeps every stored row, keeps the unique key, and adds at most what it wants;
      when it succeeds it adds exactly that. */
  lemma RequestAddsWantedKeys(rows: seq<Invoice>, q: Request)
    requires WellFormed(q)
    ensures rows <= AfterRequest(rows, q)
    ensures UniqueKeys(rows) ==> UniqueKeys(AfterRequest(rows, q))
    ensures KeysOf(rows) <= KeysOf(AfterRequest(rows, q)) <= KeysOf(rows) + WantedKeys(q)
    ensures !Billable(q) || Succeeds(rows, q) ==> KeysOf(AfterRequest(rows, q)) == KeysOf(rows) + WantedKeys(q)
  {
    hide Ensured, KeysOf, ResolvePeriod, RequestedIndex, PeriodAt, MonthOfIndex, UniqueKeys;
    if Billable(q) && !MonthlyFails(rows, q) {
      var middle := AfterMonthly(rows, q);
      var monthly := MonthlyAmounts(q.plan.value, q.activePlayers);
      if monthly.Ok? {
        EnsuredKeys(rows, InvoiceFor(q, Monthly, monthly.value));
      }
      assert KeysOf(middle) == KeysOf(rows) + {MonthlyKey(q)};
      var annual := AnnualAmounts(q.plan.value);
      if IncludesAnnual(q) && annual.Ok? {
        EnsuredKeys(middle, InvoiceFor(q, Annual, annual.value));
      }
    }
  }

  /** Serving the same period again changes nothing, whatever the price, the head count, the notes
      or the route by which the period was named the second time. */
  lemma RepetitionCreatesNothing(rows: seq<Invoice>, q: Request, again: Request)
    requires WellFormed(q) && WellFormed(again) && Succeeds(rows, q)
    requires WantedKeys(again) <= WantedKeys(q)
    ensures AfterRequest(AfterRequest(rows, q), again) == AfterRequest(rows, q)
    ensures Billable(again) ==> Succeeds(AfterRequest(rows, q), again)
  {
    hide Ensured, KeysOf, ResolvePeriod, RequestedIndex, PeriodAt, MonthOfIndex;
    RequestAddsWantedKeys(rows, q);
    var after := AfterRequest(rows, q);
    if Billable(again) {
      assert MonthlyKey(again) in WantedKeys(again);
      assert IncludesAnnual(again) ==> AnnualKey(again) in WantedKeys(again);
      var monthly := MonthlyAmounts(again.plan.value, again.activePlayers);
      if monthly.Ok? {
        EnsuredKeys(after, InvoiceFor(again, Monthly, monthly.value));
      }
      var annual := AnnualAmounts(again.plan.value);
      if annual.Ok? {
        EnsuredKeys(after, InvoiceFor(again, Annual, annual.value));
      }
    }
  }

  /** The manual route by (year, month) and the route by date want the same invoices exactly when
      the date lies in the period that opens in that month. */
  lemma RoutesAgree(manual: Request, byDate: Request)
    requires WellFormed(manual) && WellFormed(byDate) && Billable(manual) && Billable(byDate)
    requires ByMonth(manual) && !ByMonth(byDate)
    requires manual.tenantId == byDate.tenantId && manual.academy == byDate.academy
    ensures WantedKeys(manual) == WantedKeys(byDate) <==> InPeriod(RequestedPeriod(manual), byDate.reference)
  {
    var anchor := manual.academy.value.anchorDay;
    var j, k := RequestedIndex(anchor, manual), RequestedIndex(anchor, byDate);
    hide DayNumber, MonthOfIndex, MonthIndex, CurrentIndex;
    CurrentPeriodHoldsReference(anchor, byDate.reference);
    if InPeriod(RequestedPeriod(manual), byDate.reference) {
      OnePeriodPerDay(anchor, byDate.reference, j, k);
    }
    if WantedKeys(manual) == WantedKeys(byDate) {
      assert MonthlyKey(manual) in WantedKeys(byDate);
      assert MonthlyKey(manual) == MonthlyKey(byDate);
    }
  }

  ghost function WantedByAll(qs: seq<Request>): set<InvoiceKey>
    requires AllWellFormed(qs)
  {
    if qs == [] then {} else WantedKeys(qs[0]) + WantedByAll(qs[1..])
  }

  /** Order and repetition of the requests do not matter: the table ends with the keys it had and
      the keys that were asked for, once each, and no stored row is touched. */
  lemma {:induction false} RunKeys(rows: seq<Invoice>, qs: seq<Request>)
    requires AllWellFormed(qs) && UniqueKeys(rows)
    requires forall i :: 0 <= i < |qs| ==> Payable(qs[i])
    ensures rows <= AfterRequests(rows, qs)
    ensures UniqueKeys(AfterRequests(rows, qs))
    ensures KeysOf(AfterRequests(rows, qs)) == KeysOf(rows) + WantedByAll(qs)
    decreases |qs|
  {
    hide KeysOf, UniqueKeys, AfterRequest, WantedKeys;
    if qs != [] {
      PayableSucceeds(rows, qs[0]);
      RequestAddsWantedKeys(rows, qs[0]);
      RunKeys(AfterRequest(rows, qs[0]), qs[1..]);
    }
  }

  lemma PayableSucceeds(rows: seq<Invoice>, q: Request)
    requires WellFormed(q) && Payable(q)
    ensures !Billable(q) || Succeeds(rows, q)
  {
  }

  /** Any run at all, failing requests included, leaves at most one invoice per tenant, period and
      type, and never touches a stored row. */
  lemma {:induction false} RunKeepsUniqueKeys(rows: seq<Invoice>, qs: seq<Request>)
    requires AllWellFormed(qs) && UniqueKeys(rows)
    ensures rows <= AfterRequests(rows, qs) && UniqueKeys(AfterRequests(rows, qs))
    decreases |qs|
  {
    hide UniqueKeys, AfterRequest;
    if qs != [] {
      RequestAddsWantedKeys(rows, qs[0]);
      RunKeepsUniqueKeys(AfterRequest(rows, qs[0]), qs[1..]);
    }
  }

  /** Over every run, each invoice in the end is one that was there at the start, unchanged, or shows what the
      request that created it billed: its price times its head count, or its annual fee. No later request, with
      whatever prices, changes a column of it. */
  lemma {:induction false} RunBills(rows: seq<Invoice>, qs: seq<Request>, i: nat)
    requires AllWellFormed(qs) && i < |AfterRequests(rows, qs)|
    ensures rows <= AfterRequests(rows, qs)
    ensures |rows| <= i ==> exists j :: 0 <= j < |qs| && Billable(qs[j]) && BilledBy(AfterRequests(rows, qs)[i], qs[j])
    decreases |qs|
  {
    hide AfterRequest, BilledBy, Billable, WellFormed;
    if qs != [] {
      var middle := AfterRequest(rows, qs[0]);
      NewRowsAreBilled(rows, qs[0]);
      RunBills(middle, qs[1..], i);
      if i < |middle| {
        assert AfterRequests(rows, qs)[i] == middle[i];
      } else {
        var j :| 0 <= j < |qs[1..]| && Billable(qs[1..][j]) && BilledBy(AfterRequests(middle, qs[1..])[i], qs[1..][j]);
        assert qs[j + 1] == qs[1..][j];
      }
    }
  }

  // A whole number of years

  ghost function MonthlyKeys(tenantId: int, anchorDay: int, k: int, n: nat): set<InvoiceKey> {
    set j | k <= j < k + n :: InvoiceKey(tenantId, PeriodAt(anchorDay, j), Monthly)
  }

  ghost function AnnualKeys(tenantId: int, anchorDay: int, anniversaryMonth: int, k: int, n: nat): set<InvoiceKey> {
    set j | k <= j < k + n && MonthOfIndex(j) == anniversaryMonth ::
      InvoiceKey(tenantId, PeriodAt(anchorDay, j), Annual)
  }

  lemma PeriodsDiffer(anchorDay: int, j: int, k: int)
    requires ValidAnchorDay(anchorDay) && PeriodAt(anchorDay, j) == PeriodAt(anchorDay, k)
    ensures j == k
  {
    AnchorAtIsDate(anchorDay, j);
    AnchorAtIsDate(anchorDay, k);
  }

  lemma {:induction false} CountMonthlyKeys(tenantId: int, anchorDay: int, k: int, n: nat)
    requires ValidAnchorDay(anchorDay)
    ensures |MonthlyKeys(tenantId, anchorDay, k, n)| == n
  {
    hide PeriodAt;
    if n > 0 {
      CountMonthlyKeys(tenantId, anchorDay, k, n - 1);
      var last := InvoiceKey(tenantId, PeriodAt(anchorDay, k + n - 1), Monthly);
      var before := MonthlyKeys(tenantId, anchorDay, k, n - 1);
      forall j | k <= j < k + n - 1 ensures PeriodAt(anchorDay, j) != PeriodAt(anchorDay, k + n - 1) {
        if PeriodAt(anchorDay, j) == PeriodAt(anchorDay, k + n - 1) { PeriodsDiffer(anchorDay, j, k + n - 1); }
      }
      assert last !in before;
      assert MonthlyKeys(tenantId, anchorDay, k, n) == before + {last};
    }
  }

  lemma {:induction false} CountAnnualKeys(tenantId: int, anchorDay: int, anniversaryMonth: int, k: int, n: nat)
    requires ValidAnchorDay(anchorDay)
    ensures |AnnualKeys(tenantId, anchorDay, anniversaryMonth, k, n)|
         == AnnualCharges(anchorDay, anniversaryMonth, k, n)
  {
    hide PeriodAt, MonthOfIndex, AnniversaryInside;
    if n > 0 {
      CountAnnualKeys(tenantId, anchorDay, anniversaryMonth, k, n - 1);
      ChargedInAnniversaryMonth(anchorDay, anniversaryMonth, k + n - 1);
      var last := InvoiceKey(tenantId, PeriodAt(anchorDay, k + n - 1), Annual);
      var before := AnnualKeys(tenantId, anchorDay, anniversaryMonth, k, n - 1);
      forall j | k <= j < k + n - 1 ensures PeriodAt(anchorDay, j) != PeriodAt(anchorDay, k + n - 1) {
        if PeriodAt(anchorDay, j) == PeriodAt(anchorDay, k + n - 1) { PeriodsDiffer(anchorDay, j, k + n - 1); }
      }
      assert last !in before;
      assert AnnualKeys(tenantId, anchorDay, anniversaryMonth, k, n)
        == if MonthOfIndex(k + n - 1) == anniversaryMonth then before + {last} else before;
    }
  }

  /** Requests of one tenant that together ask for the n periods from the k-th on, in any order. */
  ghost predicate Covers(qs: seq<Request>, tenantId: int, academy: Academy, k: int, n: nat)
    requires AllWellFormed(qs)
  {
    && (forall i :: 0 <= i < |qs| ==> Asks(qs[i], tenantId, academy, k, n))
    && (forall j :: k <= j < k + n ==> Requested(qs, academy.anchorDay, j))
  }

  ghost predicate Requested(qs: seq<Request>, anchorDay: int, j: int)
    requires AllWellFormed(qs)
  {
    exists i :: 0 <= i < |qs| && RequestedIndex(anchorDay, qs[i]) == j
  }

  ghost predicate Asks(q: Request, tenantId: int, academy: Academy, k: int, n: nat)
    requires WellFormed(q)
  {
    && q.tenantId == tenantId && q.academy == Some(academy) && Billable(q) && Payable(q)
    && k <= RequestedIndex(academy.anchorDay, q) < k + n
  }

  lemma {:induction false} WantedMember(qs: seq<Request>, key: InvoiceKey)
    requires AllWellFormed(qs)
    ensures key in WantedByAll(qs) <==> exists i :: 0 <= i < |qs| && key in WantedKeys(qs[i])
  {
    hide WantedKeys, WellFormed;
    if qs != [] {
      WantedMember(qs[1..], key);
      if key in WantedByAll(qs[1..]) {
        var i :| 0 <= i < |qs[1..]| && key in WantedKeys(qs[1..][i]);
        assert qs[i + 1] == qs[1..][i];
      }
      if i :| 0 <= i < |qs| && key in WantedKeys(qs[i]) {
        assert i > 0 ==> qs[1..][i - 1] == qs[i];
      }
    }
  }

  lemma WantedOfCover(qs: seq<Request>, tenantId: int, academy: Academy, k: int, n: nat)
    requires AllWellFormed(qs) && Covers(qs, tenantId, academy, k, n)
    ensures WantedByAll(qs)
         == MonthlyKeys(tenantId, academy.anchorDay, k, n)
          + AnnualKeys(tenantId, academy.anchorDay, academy.anniversaryMonth, k, n)
  {
    hide PeriodAt, MonthOfIndex, RequestedIndex, WellFormed;
    var monthly := MonthlyKeys(tenantId, academy.anchorDay, k, n);
    var annual := AnnualKeys(tenantId, academy.anchorDay, academy.anniversaryMonth, k, n);
    forall key ensures key in WantedByAll(qs) <==> key in monthly + annual {
      WantedMember(qs, key);
      if key in WantedByAll(qs) {
        var i :| 0 <= i < |qs| && key in WantedKeys(qs[i]);
        assert Asks(qs[i], tenantId, academy, k, n);
      }
      if key in monthly + annual {
        var j :| k <= j < k + n && key.range == PeriodAt(academy.anchorDay, j)
          && (key.kind == Annual ==> MonthOfIndex(j) == academy.anniversaryMonth);
        assert Requested(qs, academy.anchorDay, j);
        var i :| 0 <= i < |qs| && RequestedIndex(academy.anchorDay, qs[i]) == j;
        assert Asks(qs[i], tenantId, academy, k, n);
        assert key in WantedKeys(qs[i]);
      }
    }
  }

  lemma {:induction false} UniqueKeysCount(rows: seq<Invoice>)
    requires UniqueKeys(rows)
    ensures |KeysOf(rows)| == |rows|
  {
    if rows != [] {
      var front := rows[..|rows| - 1];
      UniqueKeysCount(front);
      var last := rows[|rows| - 1].key;
      assert forall i :: 0 <= i < |front| ==> front[i] == rows[i];
      assert last !in KeysOf(front);
      assert KeysOf(rows) == KeysOf(front) + {last};
    }
  }

  /** However often and in whatever order they are generated, 12 * years consecutive periods leave
      12 monthly and one annual invoice per year. */
  lemma YearsOfInvoices(qs: seq<Request>, tenantId: int, academy: Academy, k: int, years: nat)
    requires AllWellFormed(qs) && Covers(qs, tenantId, academy, k, 12 * years)
    requires ValidAnchorDay(academy.anchorDay) && IsMonth(academy.anniversaryMonth)
    ensures var rows := AfterRequests([], qs);
      && KeysOf(rows) == MonthlyKeys(tenantId, academy.anchorDay, k, 12 * years)
                       + AnnualKeys(tenantId, academy.anchorDay, academy.anniversaryMonth, k, 12 * years)
      && |MonthlyKeys(tenantId, academy.anchorDay, k, 12 * years)| == 12 * years
      && |AnnualKeys(tenantId, academy.anchorDay, academy.anniversaryMonth, k, 12 * years)| == years
      && |rows| == 13 * years
  {
    hide PeriodAt, MonthOfIndex, RequestedIndex, WellFormed, AfterRequests, WantedByAll;
    forall i | 0 <= i < |qs| ensures Payable(qs[i]) {
      assert Asks(qs[i], tenantId, academy, k, 12 * years);
    }
    RunKeys([], qs);
    WantedOfCover(qs, tenantId, academy, k, 12 * years);
    CountMonthlyKeys(tenantId, academy.anchorDay, k, 12 * years);
    CountAnnualKeys(tenantId, academy.anchorDay, academy.anniversaryMonth, k, 12 * years);
    OneChargePerYear(academy.anchorDay, academy.anniversaryMonth, k, years);
    UniqueKeysCount(AfterRequests([], qs));
    assert MonthlyKeys(tenantId, academy.anchorDay, k, 12 * years)
        !! AnnualKeys(tenantId, academy.anchorDay, academy.anniversaryMonth, k, 12 * years);
  }
}
