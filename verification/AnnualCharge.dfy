/** The yearly plan fee: charged in the monthly period that holds the anchor of the academy's
    anniversary month. */
module AnnualCharge {
  import opened Results
  import opened Calendar
  import opened DateText
  import opened BillingPeriod

  predicate ValidRange(range: PeriodRange) {
    && IsDate(range.periodStart) && IsDate(range.periodEnd)
    && FourDigitYear(range.periodStart) && FourDigitYear(range.periodEnd)
  }

  /** Some anchor of the anniversary month, of whatever year, falls inside the range. */
  ghost predicate AnniversaryInside(anchorDay: int, anniversaryMonth: int, range: PeriodRange)
    requires ValidAnchorDay(anchorDay) && IsDate(range.periodStart) && IsDate(range.periodEnd)
  {
    exists k :: MonthOfIndex(k) == anniversaryMonth && InPeriod(range, AnchorAt(anchorDay, k))
  }

  /** The code's own test of one year: two comparisons of printed dates. */
  predicate AnniversaryOfYearInside(anchorDay: int, anniversaryMonth: int, year: int, range: PeriodRange)
    requires ValidAnchorDay(anchorDay) && IsMonth(anniversaryMonth) && ValidRange(range)
    requires 1000 <= year <= 9999
  {
    LastDayIsMonthLength(year, anniversaryMonth);
    var anniversary := BillingAnchorDateInMonth(anchorDay, year, anniversaryMonth);
    && !TextLess(FormatDate(anniversary), FormatDate(range.periodStart))
    && TextLess(FormatDate(anniversary), FormatDate(range.periodEnd))
  }

  lemma YearTestIsDayTest(anchorDay: int, anniversaryMonth: int, year: int, range: PeriodRange)
    requires ValidAnchorDay(anchorDay) && IsMonth(anniversaryMonth) && ValidRange(range)
    requires 1000 <= year <= 9999
    ensures AnniversaryOfYearInside(anchorDay, anniversaryMonth, year, range)
       <==> InPeriod(range, AnchorAt(anchorDay, MonthIndex(year, anniversaryMonth)))
  {
    hide LastDayOfMonth, FormatDate, TextLess, DayNumber, AnchorAt;
    AnchorInMonth(anchorDay, year, anniversaryMonth);
    MonthIndexRoundTrip(year, anniversaryMonth);
    AnchorAtIsDate(anchorDay, MonthIndex(year, anniversaryMonth));
    var anniversary := AnchorAt(anchorDay, MonthIndex(year, anniversaryMonth));
    assert anniversary.year == year by { AnchorYear(anchorDay, year, anniversaryMonth); }
    TextOrderIsTimeOrder(anniversary, range.periodStart);
    TextOrderIsTimeOrder(anniversary, range.periodEnd);
  }

  lemma AnchorYear(anchorDay: int, year: int, month: int)
    requires IsMonth(month)
    ensures AnchorAt(anchorDay, MonthIndex(year, month)).year == year
  {
    MonthIndexRoundTrip(year, month);
  }

  /** An anchor inside a range has a year between the years of the two ends. */
  lemma YearBetween(range: PeriodRange, d: CivilDate)
    requires ValidRange(range) && IsDate(d) && InPeriod(range, d)
    ensures range.periodStart.year <= d.year <= range.periodEnd.year
  {
    hide DayNumber;
    DayNumberOrder(d, range.periodStart);
    DayNumberOrder(d, range.periodEnd);
  }

  /** The year loop finds an anniversary exactly when there is one. */
  method IsAnnualChargeDueInBillingPeriod(anniversaryMonth: int, anchorDay: int, range: PeriodRange)
    returns (r: Result<bool, BillingError>)
    requires ValidRange(range)
    ensures !IsMonth(anniversaryMonth) ==> r == Err(InvalidAnniversaryMonth(anniversaryMonth))
    ensures IsMonth(anniversaryMonth) && !ValidAnchorDay(anchorDay) ==>
      r == if range.periodStart.year <= range.periodEnd.year then Err(InvalidAnchorDay(anchorDay)) else Ok(false)
    ensures IsMonth(anniversaryMonth) && ValidAnchorDay(anchorDay) ==>
      r.Ok? && (r.value <==> AnniversaryInside(anchorDay, anniversaryMonth, range))
  {
    hide DayNumber, FormatDate, AnniversaryOfYearInside, ParseYear, AnchorAt;
    if anniversaryMonth < 1 || anniversaryMonth > 12 {
      return Err(InvalidAnniversaryMonth(anniversaryMonth));
    }
    YearOfFormat(range.periodStart);
    YearOfFormat(range.periodEnd);
    var startYear := ParseYear(FormatDate(range.periodStart));
    var endYear := ParseYear(FormatDate(range.periodEnd));
    var year := startYear;
    while year <= endYear
      invariant startYear <= year
      invariant year > startYear ==> ValidAnchorDay(anchorDay)
      invariant ValidAnchorDay(anchorDay) ==>
        forall y :: startYear <= y < year ==>
          !InPeriod(range, AnchorAt(anchorDay, MonthIndex(y, anniversaryMonth)))
    {
      if !ValidAnchorDay(anchorDay) {
        return Err(InvalidAnchorDay(anchorDay));
      }
      YearTestIsDayTest(anchorDay, anniversaryMonth, year, range);
      if AnniversaryOfYearInside(anchorDay, anniversaryMonth, year, range) {
        MonthIndexRoundTrip(year, anniversaryMonth);
        return Ok(true);
      }
      year := year + 1;
    }
    if ValidAnchorDay(anchorDay) {
      NoAnniversary(anchorDay, anniversaryMonth, range);
    }
    return Ok(false);
  }

  /** When no year of the range has its anniversary inside, no year at all has. */
  lemma NoAnniversary(anchorDay: int, anniversaryMonth: int, range: PeriodRange)
    requires ValidAnchorDay(anchorDay) && IsMonth(anniversaryMonth) && ValidRange(range)
    requires forall y :: range.periodStart.year <= y <= range.periodEnd.year ==>
      !InPeriod(range, AnchorAt(anchorDay, MonthIndex(y, anniversaryMonth)))
    ensures !AnniversaryInside(anchorDay, anniversaryMonth, range)
  {
    hide DayNumber;
    forall k | MonthOfIndex(k) == anniversaryMonth
      ensures !InPeriod(range, AnchorAt(anchorDay, k))
    {
      AnchorAtIsDate(anchorDay, k);
      assert k == MonthIndex(YearOfIndex(k), anniversaryMonth);
      if InPeriod(range, AnchorAt(anchorDay, k)) {
        YearBetween(range, AnchorAt(anchorDay, k));
      }
    }
  }

  /** The k-th anchored period is charged exactly when it opens in the anniversary month,
      also when it runs across the end of the year. */
  lemma ChargedInAnniversaryMonth(anchorDay: int, anniversaryMonth: int, k: int)
    requires ValidAnchorDay(anchorDay)
    ensures AnniversaryInside(anchorDay, anniversaryMonth, PeriodAt(anchorDay, k))
       <==> MonthOfIndex(k) == anniversaryMonth
  {
    hide DayNumber, AnchorAt, MonthOfIndex;
    forall j | InPeriod(PeriodAt(anchorDay, k), AnchorAt(anchorDay, j)) ensures j == k {
      PeriodLength(anchorDay, j);
      OnePeriodPerDay(anchorDay, AnchorAt(anchorDay, j), j, k);
    }
    PeriodLength(anchorDay, k);
    assert InPeriod(PeriodAt(anchorDay, k), AnchorAt(anchorDay, k));
  }

  /** How many of the n periods from the k-th on carry the annual fee. */
  ghost function AnnualCharges(anchorDay: int, anniversaryMonth: int, k: int, n: nat): nat
    requires ValidAnchorDay(anchorDay)
  {
    if n == 0 then 0
    else
      AnnualCharges(anchorDay, anniversaryMonth, k, n - 1)
      + if AnniversaryInside(anchorDay, anniversaryMonth, PeriodAt(anchorDay, k + n - 1)) then 1 else 0
  }

  lemma {:induction false} ChargesInOneYear(anchorDay: int, anniversaryMonth: int, k: int, n: nat)
    requires ValidAnchorDay(anchorDay) && IsMonth(anniversaryMonth) && n <= 12
    ensures AnnualCharges(anchorDay, anniversaryMonth, k, n)
         == if (anniversaryMonth - 1 - k) % 12 < n then 1 else 0
  {
    hide AnniversaryInside, AnchorAt;
    if n > 0 {
      ChargesInOneYear(anchorDay, anniversaryMonth, k, n - 1);
      ChargedInAnniversaryMonth(anchorDay, anniversaryMonth, k + n - 1);
    }
  }

  lemma {:induction false} ChargesAdd(anchorDay: int, anniversaryMonth: int, k: int, m: nat, n: nat)
    requires ValidAnchorDay(anchorDay)
    ensures AnnualCharges(anchorDay, anniversaryMonth, k, m + n)
         == AnnualCharges(anchorDay, anniversaryMonth, k, m) + AnnualCharges(anchorDay, anniversaryMonth, k + m, n)
  {
    hide AnniversaryInside, AnchorAt;
    if n > 0 {
      ChargesAdd(anchorDay, anniversaryMonth, k, m, n - 1);
    }
  }

  /** Any run of 12 * years consecutive periods carries exactly `years` annual charges. */
  lemma {:induction false} OneChargePerYear(anchorDay: int, anniversaryMonth: int, k: int, years: nat)
    requires ValidAnchorDay(anchorDay) && IsMonth(anniversaryMonth)
    ensures AnnualCharges(anchorDay, anniversaryMonth, k, 12 * years) == years
  {
    if years > 0 {
      OneChargePerYear(anchorDay, anniversaryMonth, k, years - 1);
      ChargesAdd(anchorDay, anniversaryMonth, k, 12 * (years - 1), 12);
      ChargesInOneYear(anchorDay, anniversaryMonth, k + 12 * (years - 1), 12);
    }
  }
}
