/** The proleptic Gregorian calendar as ECMA-262 (section 21.4.1) computes it:
    a date is a count of days since 1 January 1970, and year, month and day are read back from it. */
module Calendar {

  datatype CivilDate = CivilDate(year: int, month: int, day: int)

  predicate IsLeap(year: int) {
    year % 4 == 0 && (year % 100 != 0 || year % 400 == 0)
  }

  /** The ordinary table of month lengths, the reference for `LastDayOfMonth`. */
  function DaysInMonth(year: int, month: int): int {
    if month == 2 then (if IsLeap(year) then 29 else 28)
    else if month == 4 || month == 6 || month == 9 || month == 11 then 30
    else 31
  }

  predicate IsMonth(month: int) { 1 <= month <= 12 }

  predicate IsDate(d: CivilDate) {
    IsMonth(d.month) && 1 <= d.day <= DaysInMonth(d.year, d.month)
  }

  /** Day number of 1 January. */
  function DayFromYear(year: int): int {
    365 * (year - 1970) + (year - 1969) / 4 - (year - 1901) / 100 + (year - 1601) / 400
  }

  /** Days of the year that precede the first of `month`; 13 stands for the next January. */
  function DaysBeforeMonth(year: int, month: int): int
    requires 1 <= month <= 13
  {
    if month == 1 then 0
    else DaysBeforeMonth(year, month - 1) + DaysInMonth(year, month - 1)
  }

  function DayNumber(d: CivilDate): int
    requires IsMonth(d.month)
  {
    DayFromYear(d.year) + DaysBeforeMonth(d.year, d.month) + d.day - 1
  }

  /** MakeDay of ECMA-262: the month is counted from 0 and may run past 11, the day may be 0 or less. */
  function MakeDay(year: int, month0: int, day: int): int {
    DayNumber(CivilDate(year + month0 / 12, month0 % 12 + 1, day))
  }

  lemma FourthYears(year: int)
    ensures (year - 1968) / 4 == (year - 1969) / 4 + if year % 4 == 0 then 1 else 0
  {
  }

  lemma CenturyYears(year: int)
    ensures (year - 1900) / 100 == (year - 1901) / 100 + if year % 100 == 0 then 1 else 0
  {
  }

  lemma FourthCenturyYears(year: int)
    ensures (year - 1600) / 400 == (year - 1601) / 400 + if year % 400 == 0 then 1 else 0
  {
  }

  lemma LeapDivisors(year: int)
    ensures year % 400 == 0 ==> year % 100 == 0
    ensures year % 100 == 0 ==> year % 4 == 0
  {
  }

  lemma YearLength(year: int)
    ensures DayFromYear(year + 1) - DayFromYear(year) == if IsLeap(year) then 366 else 365
  {
    FourthYears(year);
    CenturyYears(year);
    FourthCenturyYears(year);
    LeapDivisors(year);
  }

  lemma MonthsFillTheYear(year: int)
    ensures DaysBeforeMonth(year, 13) == if IsLeap(year) then 366 else 365
    ensures DaysBeforeMonth(year, 13) == DayFromYear(year + 1) - DayFromYear(year)
  {
    YearLength(year);
    assert DaysBeforeMonth(year, 2) == 31;
    assert DaysBeforeMonth(year, 3) == if IsLeap(year) then 60 else 59;
    assert DaysBeforeMonth(year, 5) == DaysBeforeMonth(year, 3) + 61;
    assert DaysBeforeMonth(year, 7) == DaysBeforeMonth(year, 5) + 61;
    assert DaysBeforeMonth(year, 9) == DaysBeforeMonth(year, 7) + 62;
    assert DaysBeforeMonth(year, 11) == DaysBeforeMonth(year, 9) + 61;
    assert DaysBeforeMonth(year, 13) == DaysBeforeMonth(year, 11) + 61;
  }

  /** ECMA-262: the largest year whose 1 January is not after day `n`, found by stepping down. */
  function YearFromDayDown(n: int, year: int): (y: int)
    requires n < DayFromYear(year + 1)
    ensures DayFromYear(y) <= n < DayFromYear(y + 1)
    decreases DayFromYear(year) - n + 400
  {
    if DayFromYear(year) <= n then year
    else
      YearLength(year - 1);
      YearFromDayDown(n, year - 1)
  }

  function YearFromDay(n: int): (y: int)
    ensures DayFromYear(y) <= n < DayFromYear(y + 1)
  {
    YearFromDayDown(n, if n < 0 then 1969 else 1970 + n / 365)
  }

  /** The month from `month` on in which day `k` of a year falls, k counted from 0. */
  function MonthInYear(year: int, k: int, month: int): (m: int)
    requires IsMonth(month)
    requires DaysBeforeMonth(year, month) <= k < DaysBeforeMonth(year, 13)
    ensures IsMonth(m)
    ensures DaysBeforeMonth(year, m) <= k < DaysBeforeMonth(year, m + 1)
    decreases 13 - month
  {
    if month == 12 || k < DaysBeforeMonth(year, month + 1) then month
    else MonthInYear(year, k, month + 1)
  }

  function FromDayNumber(n: int): CivilDate {
    var year := YearFromDay(n);
    MonthsFillTheYear(year);
    var k := n - DayFromYear(year);
    var month := MonthInYear(year, k, 1);
    CivilDate(year, month, k - DaysBeforeMonth(year, month) + 1)
  }

  /** Every day number is a real date whose day number it is. */
  lemma DayNumberOfFromDayNumber(n: int)
    ensures IsDate(FromDayNumber(n)) && DayNumber(FromDayNumber(n)) == n
  {
  }

  lemma {:induction false} YearsApart(a: int, b: int)
    requires a < b
    ensures DayFromYear(a + 1) <= DayFromYear(b)
    decreases b - a
  {
    if a + 1 < b {
      YearLength(a + 1);
      YearsApart(a + 1, b);
    }
  }

  lemma {:induction false} MonthsApart(year: int, a: int, b: int)
    requires 1 <= a < b <= 13
    ensures DaysBeforeMonth(year, a + 1) <= DaysBeforeMonth(year, b)
    decreases b - a
  {
    if a + 1 < b {
      MonthsApart(year, a + 1, b);
    }
  }

  lemma DayOfYearBounds(d: CivilDate)
    requires IsDate(d)
    ensures DayFromYear(d.year) + DaysBeforeMonth(d.year, d.month) <= DayNumber(d)
    ensures DayNumber(d) < DayFromYear(d.year) + DaysBeforeMonth(d.year, d.month + 1)
    ensures DayFromYear(d.year) <= DayNumber(d) < DayFromYear(d.year + 1)
  {
    MonthsFillTheYear(d.year);
    if 1 < d.month { MonthsApart(d.year, 1, d.month); }
    if d.month < 12 { MonthsApart(d.year, d.month, 13); }
  }

  /** Chronological order on dates, read field by field. */
  predicate Earlier(a: CivilDate, b: CivilDate) {
    a.year < b.year
    || (a.year == b.year && (a.month < b.month || (a.month == b.month && a.day < b.day)))
  }

  lemma EarlierHasSmallerNumber(a: CivilDate, b: CivilDate)
    requires IsDate(a) && IsDate(b) && Earlier(a, b)
    ensures DayNumber(a) < DayNumber(b)
  {
    DayOfYearBounds(a);
    DayOfYearBounds(b);
    if a.year < b.year {
      YearsApart(a.year, b.year);
    } else if a.month < b.month {
      MonthsApart(a.year, a.month, b.month);
    }
  }

  /** Day numbers order dates exactly as their fields do. */
  lemma DayNumberOrder(a: CivilDate, b: CivilDate)
    requires IsDate(a) && IsDate(b)
    ensures DayNumber(a) < DayNumber(b) <==> Earlier(a, b)
    ensures DayNumber(a) == DayNumber(b) <==> a == b
  {
    if Earlier(a, b) {
      EarlierHasSmallerNumber(a, b);
    } else if Earlier(b, a) {
      EarlierHasSmallerNumber(b, a);
    }
  }

  /** Reading a date back from its own day number loses nothing. */
  lemma FromDayNumberOfDayNumber(d: CivilDate)
    requires IsDate(d)
    ensures FromDayNumber(DayNumber(d)) == d
  {
    DayNumberOfFromDayNumber(DayNumber(d));
    DayNumberOrder(FromDayNumber(DayNumber(d)), d);
  }

  /** `new Date(Date.UTC(year, month, 0)).getUTCDate()`: the 1-based month is passed where a
      0-based one is expected, and day 0 is the day before the first of that next month. */
  function LastDayOfMonth(year: int, month: int): int {
    FromDayNumber(MakeDay(year, month, 0)).day
  }

  lemma MakeDayZero(year: int, month: int)
    requires IsMonth(month)
    ensures MakeDay(year, month, 0) == DayNumber(CivilDate(year, month, DaysInMonth(year, month)))
  {
    if month == 12 {
      MonthsFillTheYear(year);
    }
  }

  lemma LastDayIsMonthLength(year: int, month: int)
    requires IsMonth(month)
    ensures LastDayOfMonth(year, month) == DaysInMonth(year, month)
  {
    var last := CivilDate(year, month, DaysInMonth(year, month));
    MakeDayZero(year, month);
    FromDayNumberOfDayNumber(last);
  }

  // The same calendar in numbers (RFC 3339, section 5.7; ECMA-262, section 21.4.1)

  /** Thirty-one, thirty, or the length of February by the leap rule. */
  lemma MonthLengths(year: int, month: int)
    requires IsMonth(month)
    ensures LastDayOfMonth(year, month) == 31 <==> month in {1, 3, 5, 7, 8, 10, 12}
    ensures LastDayOfMonth(year, month) == 30 <==> month in {4, 6, 9, 11}
    ensures LastDayOfMonth(year, month) == 29 <==> month == 2 && year % 4 == 0 && (year % 100 == 0 ==> year % 400 == 0)
    ensures LastDayOfMonth(year, month) == 28 <==> month == 2 && LastDayOfMonth(year, month) != 29
  {
    LastDayIsMonthLength(year, month);
  }

  /** How many days of a common year precede the first of each month. */
  const DAYS_BEFORE := [0, 31, 59, 90, 120, 151, 181, 212, 243, 273, 304, 334]

  lemma FirstOfMonth(year: int, month: int)
    requires IsMonth(month)
    ensures DayNumber(CivilDate(year, month, 1)) - DayNumber(CivilDate(year, 1, 1))
         == DAYS_BEFORE[month - 1]
            + if month > 2 && year % 4 == 0 && (year % 100 == 0 ==> year % 400 == 0) then 1 else 0
  {
    hide DayFromYear;
    assert DaysBeforeMonth(year, 1) == 0 && DaysBeforeMonth(year, 2) == 31;
    assert DaysBeforeMonth(year, 3) == if IsLeap(year) then 60 else 59;
    assert DaysBeforeMonth(year, 4) == DaysBeforeMonth(year, 3) + 31;
    assert DaysBeforeMonth(year, 5) == DaysBeforeMonth(year, 3) + 61;
    assert DaysBeforeMonth(year, 6) == DaysBeforeMonth(year, 5) + 31;
    assert DaysBeforeMonth(year, 7) == DaysBeforeMonth(year, 5) + 61;
    assert DaysBeforeMonth(year, 8) == DaysBeforeMonth(year, 7) + 31;
    assert DaysBeforeMonth(year, 9) == DaysBeforeMonth(year, 7) + 62;
    assert DaysBeforeMonth(year, 10) == DaysBeforeMonth(year, 9) + 30;
    assert DaysBeforeMonth(year, 11) == DaysBeforeMonth(year, 9) + 61;
    assert DaysBeforeMonth(year, 12) == DaysBeforeMonth(year, 11) + 30;
  }

  /** Years run on without a gap, from day 0 on 1 January 1970. */
  lemma FirstOfYear(year: int)
    ensures DayNumber(CivilDate(1970, 1, 1)) == 0
    ensures DayNumber(CivilDate(year + 1, 1, 1)) - DayNumber(CivilDate(year, 1, 1))
         == if year % 4 == 0 && (year % 100 == 0 ==> year % 400 == 0) then 366 else 365
  {
    YearLength(year);
  }

  /** setUTCDate(getUTCDate() + days). */
  function AddDays(d: CivilDate, days: int): CivilDate
    requires IsMonth(d.month)
  {
    FromDayNumber(DayNumber(d) + days)
  }

  /** Months counted in one line, so that December and January are neighbours. */
  function MonthIndex(year: int, month: int): int {
    12 * year + month - 1
  }

  function YearOfIndex(k: int): int { k / 12 }

  function MonthOfIndex(k: int): (m: int)
    ensures IsMonth(m)
  {
    k % 12 + 1
  }

  lemma MonthIndexRoundTrip(year: int, month: int)
    requires IsMonth(month)
    ensures YearOfIndex(MonthIndex(year, month)) == year
    ensures MonthOfIndex(MonthIndex(year, month)) == month
  {
  }
}
