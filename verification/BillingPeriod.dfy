/** Monthly billing periods that run from one anchor day to the next. The anchor is clamped in a
    short month and comes back afterwards. Dates are values here; where the code compares two
    printed dates, the model compares the same two texts. */
module BillingPeriod {
  import opened Results
  import opened Calendar
  import opened DateText

  const MIN_BILLING_ANCHOR_DAY := 1
  const MAX_BILLING_ANCHOR_DAY := 31
  const BILLING_DUE_DAYS_AFTER_PERIOD := 7

  datatype BillingError =
    | InvalidAnchorDay(anchorDay: int)
    | InvalidAnniversaryMonth(month: int)

  datatype Offset = Current | Next

  datatype PeriodRange = PeriodRange(periodStart: CivilDate, periodEnd: CivilDate)

  datatype PeriodDates = PeriodDates(range: PeriodRange, issueDate: CivilDate, dueDate: CivilDate)

  predicate ValidAnchorDay(anchorDay: int) {
    MIN_BILLING_ANCHOR_DAY <= anchorDay <= MAX_BILLING_ANCHOR_DAY
  }

  function AnchorDayInMonth(anchorDay: int, year: int, month: int): int {
    var last := LastDayOfMonth(year, month);
    if anchorDay < last then anchorDay else last
  }

  function BillingAnchorDateInMonth(anchorDay: int, year: int, month: int): CivilDate {
    CivilDate(year, month, AnchorDayInMonth(anchorDay, year, month))
  }

  function NextBillingAnchorDate(anchorDay: int, from: CivilDate): CivilDate {
    var nextMonth := from.month + 1;
    if nextMonth > 12 then BillingAnchorDateInMonth(anchorDay, from.year + 1, 1)
    else BillingAnchorDateInMonth(anchorDay, from.year, nextMonth)
  }

  function PreviousBillingAnchorDate(anchorDay: int, from: CivilDate): CivilDate {
    var prevMonth := from.month - 1;
    if prevMonth < 1 then BillingAnchorDateInMonth(anchorDay, from.year - 1, 12)
    else BillingAnchorDateInMonth(anchorDay, from.year, prevMonth)
  }

  /** The date part of `reference` is all the code reads from it. */
  function CurrentPeriodStart(anchorDay: int, reference: CivilDate): CivilDate
    requires reference.year >= 0 && IsDate(reference) && ValidAnchorDay(anchorDay)
  {
    var thisMonthAnchor := BillingAnchorDateInMonth(anchorDay, reference.year, reference.month);
    LastDayIsMonthLength(reference.year, reference.month);
    if !TextLess(FormatDate(reference), FormatDate(thisMonthAnchor)) then thisMonthAnchor
    else PreviousBillingAnchorDate(anchorDay, thisMonthAnchor)
  }

  function ResolveAnchoredBillingPeriod(anchorDay: int, reference: CivilDate, offset: Offset)
    : (r: Result<PeriodRange, BillingError>)
    requires reference.year >= 0 && IsDate(reference)
    ensures r.Ok? ==> IsMonth(r.value.periodStart.month) && IsMonth(r.value.periodEnd.month)
  {
    if !ValidAnchorDay(anchorDay) then Err(InvalidAnchorDay(anchorDay))
    else
      var current := CurrentPeriodStart(anchorDay, reference);
      var periodStart := if offset == Next then NextBillingAnchorDate(anchorDay, current) else current;
      Ok(PeriodRange(periodStart, NextBillingAnchorDate(anchorDay, periodStart)))
  }

  function ResolveAnchoredPeriodForMonth(anchorDay: int, year: int, month: int)
    : Result<PeriodRange, BillingError>
  {
    if !ValidAnchorDay(anchorDay) then Err(InvalidAnchorDay(anchorDay))
    else
      var periodStart := BillingAnchorDateInMonth(anchorDay, year, month);
      Ok(PeriodRange(periodStart, NextBillingAnchorDate(anchorDay, periodStart)))
  }

  function ComputeAnchoredMonthlyBillingPeriod(anchorDay: int, reference: CivilDate, dueDays: int, offset: Offset)
    : Result<PeriodDates, BillingError>
    requires reference.year >= 0 && IsDate(reference)
  {
    match ResolveAnchoredBillingPeriod(anchorDay, reference, offset)
    case Err(e) => Err(e)
    case Ok(range) => Ok(PeriodDates(range, reference, AddDays(range.periodEnd, dueDays)))
  }

  function ComputePeriodForAnchorMonth(anchorDay: int, year: int, month: int, dueDays: int)
    : Result<PeriodDates, BillingError>
    requires IsMonth(month)
  {
    match ResolveAnchoredPeriodForMonth(anchorDay, year, month)
    case Err(e) => Err(e)
    case Ok(range) => Ok(PeriodDates(range, range.periodStart, AddDays(range.periodEnd, dueDays)))
  }

  // The reference picture: one anchor date per month of the month line

  /** The clamped anchor date of the k-th month, months counted from the year 0. */
  function AnchorAt(anchorDay: int, k: int): (d: CivilDate)
    ensures IsMonth(d.month)
    ensures ValidAnchorDay(anchorDay) ==> IsDate(d)
  {
    var year, month := YearOfIndex(k), MonthOfIndex(k);
    var last := DaysInMonth(year, month);
    CivilDate(year, month, if anchorDay < last then anchorDay else last)
  }

  function IndexOf(d: CivilDate): int { MonthIndex(d.year, d.month) }

  function PeriodAt(anchorDay: int, k: int): PeriodRange {
    PeriodRange(AnchorAt(anchorDay, k), AnchorAt(anchorDay, k + 1))
  }

  /** start <= d < end, in days. */
  predicate InPeriod(p: PeriodRange, d: CivilDate)
    requires IsDate(d) && IsMonth(p.periodStart.month) && IsMonth(p.periodEnd.month)
  {
    DayNumber(p.periodStart) <= DayNumber(d) < DayNumber(p.periodEnd)
  }

  lemma AnchorAtIsDate(anchorDay: int, k: int)
    requires ValidAnchorDay(anchorDay)
    ensures IsDate(AnchorAt(anchorDay, k)) && IndexOf(AnchorAt(anchorDay, k)) == k
  {
  }

  lemma AnchorInMonth(anchorDay: int, year: int, month: int)
    requires IsMonth(month)
    ensures BillingAnchorDateInMonth(anchorDay, year, month) == AnchorAt(anchorDay, MonthIndex(year, month))
  {
    LastDayIsMonthLength(year, month);
    MonthIndexRoundTrip(year, month);
  }

  /** The anchor of a month in numbers: days 1 to 28 are never clamped, and the rest only by a shorter month. */
  lemma ClampedAnchor(anchorDay: int, year: int, month: int)
    requires 1 <= anchorDay <= 31 && IsMonth(month)
    ensures var d := BillingAnchorDateInMonth(anchorDay, year, month);
      && d.year == year && d.month == month
      && (anchorDay <= 28 ==> d.day == anchorDay)
      && (month in {1, 3, 5, 7, 8, 10, 12} ==> d.day == anchorDay)
      && (month in {4, 6, 9, 11} ==> d.day == if anchorDay == 31 then 30 else anchorDay)
      && (month == 2 && anchorDay >= 29 ==>
            d.day == if year % 4 == 0 && (year % 100 == 0 ==> year % 400 == 0) then 29 else 28)
  {
    MonthLengths(year, month);
  }

  /** Only the days 1 to 31 are accepted; anything else is refused by both routes, with the day in question. */
  lemma AnchorDaysAccepted(anchorDay: int, reference: CivilDate, offset: Offset, year: int, month: int)
    requires reference.year >= 0 && IsDate(reference)
    ensures ResolveAnchoredBillingPeriod(anchorDay, reference, offset).Ok? <==> 1 <= anchorDay <= 31
    ensures ResolveAnchoredPeriodForMonth(anchorDay, year, month).Ok? <==> 1 <= anchorDay <= 31
    ensures !(1 <= anchorDay <= 31) ==>
      && ResolveAnchoredBillingPeriod(anchorDay, reference, offset) == Err(InvalidAnchorDay(anchorDay))
      && ResolveAnchoredPeriodForMonth(anchorDay, year, month) == Err(InvalidAnchorDay(anchorDay))
  {
    hide LastDayOfMonth, FormatDate, DayNumber;
  }

  /** From any date, next and previous land on the anchors of the neighbouring months. */
  lemma NeighbouringAnchors(anchorDay: int, d: CivilDate)
    requires IsMonth(d.month)
    ensures NextBillingAnchorDate(anchorDay, d) == AnchorAt(anchorDay, IndexOf(d) + 1)
    ensures PreviousBillingAnchorDate(anchorDay, d) == AnchorAt(anchorDay, IndexOf(d) - 1)
  {
    hide BillingAnchorDateInMonth, AnchorAt;
    if d.month == 12 { AnchorInMonth(anchorDay, d.year + 1, 1); }
    else { AnchorInMonth(anchorDay, d.year, d.month + 1); }
    if d.month == 1 { AnchorInMonth(anchorDay, d.year - 1, 12); }
    else { AnchorInMonth(anchorDay, d.year, d.month - 1); }
  }

  function IterateNext(anchorDay: int, from: CivilDate, steps: nat): CivilDate {
    if steps == 0 then from
    else NextBillingAnchorDate(anchorDay, IterateNext(anchorDay, from, steps - 1))
  }

  /** No drift: after any number of short months the anchor is the one of the month reached,
      clamped only by that month. */
  lemma {:induction false} NoDrift(anchorDay: int, k: int, steps: nat)
    requires ValidAnchorDay(anchorDay)
    ensures IterateNext(anchorDay, AnchorAt(anchorDay, k), steps) == AnchorAt(anchorDay, k + steps)
  {
    hide BillingAnchorDateInMonth, AnchorAt;
    if steps > 0 {
      NoDrift(anchorDay, k, steps - 1);
      AnchorAtIsDate(anchorDay, k + steps - 1);
      NeighbouringAnchors(anchorDay, AnchorAt(anchorDay, k + steps - 1));
    }
  }

  /** On anchored dates previous and next undo each other. */
  lemma PreviousInvertsNext(anchorDay: int, k: int)
    requires ValidAnchorDay(anchorDay)
    ensures PreviousBillingAnchorDate(anchorDay, NextBillingAnchorDate(anchorDay, AnchorAt(anchorDay, k)))
         == AnchorAt(anchorDay, k)
    ensures NextBillingAnchorDate(anchorDay, PreviousBillingAnchorDate(anchorDay, AnchorAt(anchorDay, k)))
         == AnchorAt(anchorDay, k)
  {
    hide NextBillingAnchorDate, PreviousBillingAnchorDate, AnchorAt;
    AnchorAtIsDate(anchorDay, k);
    AnchorAtIsDate(anchorDay, k + 1);
    AnchorAtIsDate(anchorDay, k - 1);
    NeighbouringAnchors(anchorDay, AnchorAt(anchorDay, k));
    NeighbouringAnchors(anchorDay, AnchorAt(anchorDay, k + 1));
    NeighbouringAnchors(anchorDay, AnchorAt(anchorDay, k - 1));
  }

  /** The first of a month follows the last of the month before. */
  lemma FirstOfNextMonth(year: int, month: int)
    requires IsMonth(month)
    ensures var k := MonthIndex(year, month) + 1;
      DayNumber(CivilDate(YearOfIndex(k), MonthOfIndex(k), 1))
      == DayNumber(CivilDate(year, month, 1)) + DaysInMonth(year, month)
  {
    if month == 12 {
      MonthsFillTheYear(year);
      MonthIndexRoundTrip(year + 1, 1);
    } else {
      MonthIndexRoundTrip(year, month + 1);
    }
  }

  lemma DayInMonth(d: CivilDate)
    requires IsMonth(d.month)
    ensures DayNumber(d) == DayNumber(CivilDate(d.year, d.month, 1)) + d.day - 1
  {
    hide DayFromYear, DaysBeforeMonth;
  }

  lemma ClampedDay(anchorDay: int, k: int)
    requires ValidAnchorDay(anchorDay)
    ensures var d := AnchorAt(anchorDay, k);
      && MonthIndex(d.year, d.month) == k && d.year == YearOfIndex(k) && d.month == MonthOfIndex(k)
      && d.day == if anchorDay < DaysInMonth(d.year, d.month) then anchorDay else DaysInMonth(d.year, d.month)
  {
  }

  /** Every period lasts between 28 and 31 days. */
  lemma PeriodLength(anchorDay: int, k: int)
    requires ValidAnchorDay(anchorDay)
    ensures 28 <= DayNumber(AnchorAt(anchorDay, k + 1)) - DayNumber(AnchorAt(anchorDay, k)) <= 31
  {
    hide DayNumber, DaysInMonth, AnchorAt, YearOfIndex, MonthOfIndex, MonthIndex;
    var a, b := AnchorAt(anchorDay, k), AnchorAt(anchorDay, k + 1);
    ClampedDay(anchorDay, k);
    ClampedDay(anchorDay, k + 1);
    FirstOfNextMonth(a.year, a.month);
    DayInMonth(a);
    DayInMonth(b);
    LengthsOfNeighbours(a.year, a.month, b.year, b.month);
  }

  /** A long month is never followed by February unless it is January, with 31 days. */
  lemma LengthsOfNeighbours(year: int, month: int, nextYear: int, nextMonth: int)
    requires IsMonth(month) && IsMonth(nextMonth)
    requires MonthIndex(nextYear, nextMonth) == MonthIndex(year, month) + 1
    ensures 28 <= DaysInMonth(year, month) <= 31
    ensures 28 <= DaysInMonth(nextYear, nextMonth) <= 31
    ensures DaysInMonth(nextYear, nextMonth) < DaysInMonth(year, month) ==> DaysInMonth(year, month) == 31
  {
  }

  lemma {:induction false} AnchorsIncrease(anchorDay: int, j: int, k: int)
    requires ValidAnchorDay(anchorDay) && j < k
    ensures DayNumber(AnchorAt(anchorDay, j)) < DayNumber(AnchorAt(anchorDay, k))
    decreases k - j
  {
    PeriodLength(anchorDay, j);
    if j + 1 < k {
      AnchorsIncrease(anchorDay, j + 1, k);
    }
  }

  /** At most one anchored period holds a given day. */
  lemma OnePeriodPerDay(anchorDay: int, d: CivilDate, j: int, k: int)
    requires ValidAnchorDay(anchorDay) && IsDate(d)
    requires InPeriod(PeriodAt(anchorDay, j), d) && InPeriod(PeriodAt(anchorDay, k), d)
    ensures j == k
  {
    hide DayNumber, AnchorAt, IsDate;
    if j + 1 < k {
      AnchorsIncrease(anchorDay, j + 1, k);
    } else if k + 1 < j {
      AnchorsIncrease(anchorDay, k + 1, j);
    }
  }

  /** The number of the month whose anchor opens the current period. */
  function CurrentIndex(anchorDay: int, reference: CivilDate): int
    requires IsDate(reference)
  {
    if DayNumber(reference) < DayNumber(AnchorAt(anchorDay, IndexOf(reference))) then IndexOf(reference) - 1
    else IndexOf(reference)
  }

  lemma EarlierMonthIsEarlier(a: CivilDate, b: CivilDate)
    requires IsDate(a) && IsDate(b) && IndexOf(a) < IndexOf(b)
    ensures DayNumber(a) < DayNumber(b)
  {
    hide DayNumber;
    assert Earlier(a, b);
    DayNumberOrder(a, b);
  }

  lemma CurrentPeriodHoldsReference(anchorDay: int, reference: CivilDate)
    requires ValidAnchorDay(anchorDay) && IsDate(reference)
    ensures InPeriod(PeriodAt(anchorDay, CurrentIndex(anchorDay, reference)), reference)
  {
    hide DayNumber, AnchorAt, IndexOf;
    var k := IndexOf(reference);
    AnchorAtIsDate(anchorDay, k + 1);
    AnchorAtIsDate(anchorDay, k - 1);
    EarlierMonthIsEarlier(reference, AnchorAt(anchorDay, k + 1));
    EarlierMonthIsEarlier(AnchorAt(anchorDay, k - 1), reference);
  }

  /** Comparing the printed dates picks the anchor that opens the current period. */
  lemma StartIsCurrentAnchor(anchorDay: int, reference: CivilDate)
    requires ValidAnchorDay(anchorDay) && FourDigitYear(reference) && IsDate(reference)
    ensures CurrentPeriodStart(anchorDay, reference) == AnchorAt(anchorDay, CurrentIndex(anchorDay, reference))
  {
    var k := IndexOf(reference);
    AnchorInMonth(anchorDay, reference.year, reference.month);
    AnchorAtIsDate(anchorDay, k);
    hide LastDayOfMonth, PreviousBillingAnchorDate, BillingAnchorDateInMonth, FormatDate, DayNumber, TextLess;
    assert AnchorAt(anchorDay, k).year == reference.year by {
      MonthIndexRoundTrip(reference.year, reference.month);
    }
    hide AnchorAt, IndexOf;
    TextOrderIsTimeOrder(reference, AnchorAt(anchorDay, k));
    NeighbouringAnchors(anchorDay, AnchorAt(anchorDay, k));
  }

  /** The two offsets are the current anchored period and the one right after it. */
  lemma ResolveIsCurrentPeriod(anchorDay: int, reference: CivilDate, offset: Offset)
    requires ValidAnchorDay(anchorDay) && FourDigitYear(reference) && IsDate(reference)
    ensures ResolveAnchoredBillingPeriod(anchorDay, reference, offset)
         == Ok(PeriodAt(anchorDay, CurrentIndex(anchorDay, reference) + if offset == Next then 1 else 0))
  {
    hide NextBillingAnchorDate, PreviousBillingAnchorDate, BillingAnchorDateInMonth, CurrentPeriodStart, CurrentIndex;
    hide AnchorAt, IndexOf, MonthIndex, IsLeap, DaysInMonth, DayNumber, LastDayOfMonth, FormatDate, TextLess, Decimal;
    var c := CurrentIndex(anchorDay, reference);
    StartIsCurrentAnchor(anchorDay, reference);
    AnchorAtIsDate(anchorDay, c);
    NeighbouringAnchors(anchorDay, AnchorAt(anchorDay, c));
    AnchorAtIsDate(anchorDay, c + 1);
    NeighbouringAnchors(anchorDay, AnchorAt(anchorDay, c + 1));
  }

  /** The period computed for a date is the one and only anchored period that holds the date. */
  lemma CurrentPeriodIsTheOnlyOne(anchorDay: int, reference: CivilDate, k: int)
    requires ValidAnchorDay(anchorDay) && FourDigitYear(reference) && IsDate(reference)
    ensures ResolveAnchoredBillingPeriod(anchorDay, reference, Current) == Ok(PeriodAt(anchorDay, k))
       <==> InPeriod(PeriodAt(anchorDay, k), reference)
  {
    hide DayNumber, AnchorAt, IndexOf, CurrentIndex, ResolveAnchoredBillingPeriod, FormatDate;
    var c := CurrentIndex(anchorDay, reference);
    ResolveIsCurrentPeriod(anchorDay, reference, Current);
    CurrentPeriodHoldsReference(anchorDay, reference);
    if InPeriod(PeriodAt(anchorDay, k), reference) {
      OnePeriodPerDay(anchorDay, reference, c, k);
    }
  }

  /** A manual invoice for (year, month) bills the anchored period that opens in that month. */
  lemma PeriodForMonthIsAnchored(anchorDay: int, year: int, month: int)
    requires ValidAnchorDay(anchorDay) && IsMonth(month)
    ensures ResolveAnchoredPeriodForMonth(anchorDay, year, month)
         == Ok(PeriodAt(anchorDay, MonthIndex(year, month)))
  {
    AnchorInMonth(anchorDay, year, month);
    AnchorAtIsDate(anchorDay, MonthIndex(year, month));
    NeighbouringAnchors(anchorDay, AnchorAt(anchorDay, MonthIndex(year, month)));
  }

  /** Two periods of an academy with billing day 31, around the short April of 2025. */
  lemma AprilPeriods()
    ensures ResolveAnchoredPeriodForMonth(31, 2025, 3)
         == Ok(PeriodRange(CivilDate(2025, 3, 31), CivilDate(2025, 4, 30)))
    ensures ResolveAnchoredPeriodForMonth(31, 2025, 4)
         == Ok(PeriodRange(CivilDate(2025, 4, 30), CivilDate(2025, 5, 31)))
  {
    hide LastDayOfMonth;
    MonthLengths(2025, 3);
    MonthLengths(2025, 4);
    MonthLengths(2025, 5);
  }

  /** Due exactly `dueDays` after the end of the period. */
  predicate DueAfterEnd(p: PeriodDates, dueDays: int) {
    && IsDate(p.dueDate) && IsMonth(p.range.periodEnd.month)
    && DayNumber(p.dueDate) == DayNumber(p.range.periodEnd) + dueDays
  }

  /** Both routes put the due date exactly `dueDays` after the end of the period. */
  lemma ReferenceDueDate(anchorDay: int, reference: CivilDate, dueDays: int, offset: Offset)
    requires ValidAnchorDay(anchorDay) && FourDigitYear(reference) && IsDate(reference)
    ensures ComputeAnchoredMonthlyBillingPeriod(anchorDay, reference, dueDays, offset).Ok?
    ensures DueAfterEnd(ComputeAnchoredMonthlyBillingPeriod(anchorDay, reference, dueDays, offset).value, dueDays)
  {
    hide ResolveAnchoredBillingPeriod, FromDayNumber, DayNumber;
    ResolveIsCurrentPeriod(anchorDay, reference, offset);
    var end := ComputeAnchoredMonthlyBillingPeriod(anchorDay, reference, dueDays, offset).value.range.periodEnd;
    DayNumberOfFromDayNumber(DayNumber(end) + dueDays);
  }

  lemma MonthDueDate(anchorDay: int, year: int, month: int, dueDays: int)
    requires ValidAnchorDay(anchorDay) && IsMonth(month)
    ensures ComputePeriodForAnchorMonth(anchorDay, year, month, dueDays).Ok?
    ensures DueAfterEnd(ComputePeriodForAnchorMonth(anchorDay, year, month, dueDays).value, dueDays)
  {
    hide ResolveAnchoredPeriodForMonth, FromDayNumber, DayNumber;
    PeriodForMonthIsAnchored(anchorDay, year, month);
    var end := ComputePeriodForAnchorMonth(anchorDay, year, month, dueDays).value.range.periodEnd;
    DayNumberOfFromDayNumber(DayNumber(end) + dueDays);
  }
}
