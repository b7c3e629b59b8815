/**
 The proleptic Gregorian calendar of Python's datetime.date, as far as the three date schemes of
 the program need it: subtracting days, (year, month) buckets, and day differences.
 */
module Calendar {
  predicate Leap(year: int) {
    year % 4 == 0 && (year % 100 != 0 || year % 400 == 0)
  }

  /** Months counted from January of year 0, so that adjacent months differ by one. */
  type MonthNumber = int

  /** Length of a month of the year, January being 0. */
  function LengthOf(month: int, leap: bool): (n: int)
    ensures 28 <= n <= 31
  {
    if month == 1 then (if leap then 29 else 28)
    else if month in {3, 5, 8, 10} then 30
    else 31
  }

  function MonthLength(k: MonthNumber): (n: int)
    ensures 28 <= n <= 31
  {
    LengthOf(k % 12, Leap(k / 12))
  }

  function YearLength(year: int): int {
    if Leap(year) then 366 else 365
  }

  /** Days from 1 January of year 1 to 1 January of the year; negative before year 1. */
  function YearStart(year: int): int
    decreases if year < 1 then 1 - year else year - 1
  {
    if year == 1 then 0
    else if year > 1 then YearStart(year - 1) + YearLength(year - 1)
    else YearStart(year + 1) - YearLength(year)
  }

  /** Days from the first of January to the first of a month. */
  function DaysBefore(month: nat, leap: bool): int {
    if month == 0 then 0 else DaysBefore(month - 1, leap) + LengthOf(month - 1, leap)
  }

  function MonthStart(k: MonthNumber): int {
    YearStart(k / 12) + DaysBefore(k % 12, Leap(k / 12))
  }

  /** A date is its ordinal: 1 is 1 January of year 1, and timedeltas are differences. */
  type Date = int

  function DateOf(year: int, month: int, day: int): Date {
    MonthStart(12 * year + month - 1) + day
  }

  /** The date lies in month k. */
  predicate Within(d: Date, k: MonthNumber) {
    MonthStart(k) < d <= MonthStart(k + 1)
  }

  /** The month of a date: 12 * d.year + d.month - 1. */
  function MonthNo(d: Date): (k: MonthNumber)
    ensures Within(d, k)
  {
    if MonthStart(FIRST_MONTH) < d then MonthUp(d, FIRST_MONTH) else MonthDown(d, FIRST_MONTH)
  }

  /** January of year 1, where ordinals start. */
  const FIRST_MONTH: MonthNumber := 12

  function MonthUp(d: Date, k: MonthNumber): (r: MonthNumber)
    requires MonthStart(k) < d
    ensures Within(d, r)
    decreases d - MonthStart(k)
  {
    MonthFollows(k);
    if d <= MonthStart(k + 1) then k else MonthUp(d, k + 1)
  }

  function MonthDown(d: Date, k: MonthNumber): (r: MonthNumber)
    requires d <= MonthStart(k)
    ensures Within(d, r)
    decreases MonthStart(k) - d
  {
    MonthFollows(k - 1);
    if MonthStart(k - 1) < d then k - 1 else MonthDown(d, k - 1)
  }

  function YearOf(d: Date): int {
    MonthNo(d) / 12
  }

  function MonthOf(d: Date): (m: int)
    ensures 1 <= m <= 12
  {
    MonthNo(d) % 12 + 1
  }

  lemma WholeYear(leap: bool)
    ensures DaysBefore(11, leap) + 31 == if leap then 366 else 365
  {
    var extra := if leap then 1 else 0;
    assert DaysBefore(1, leap) == 31;
    assert DaysBefore(3, leap) == 90 + extra;
    assert DaysBefore(5, leap) == 151 + extra;
    assert DaysBefore(7, leap) == 212 + extra;
    assert DaysBefore(9, leap) == 273 + extra;
  }

  /** Days before a year, by the rule of 4, 100 and 400 years. */
  lemma {:induction false} YearStartByRule(year: int)
    ensures YearStart(year) == 365 * (year - 1) + (year - 1) / 4 - (year - 1) / 100 + (year - 1) / 400
    decreases if year < 1 then 1 - year else year - 1
  {
    if year > 1 {
      YearStartByRule(year - 1);
      QuotientSteps(year - 1);
    } else if year < 1 {
      YearStartByRule(year + 1);
      QuotientSteps(year);
    }
  }

  lemma QuotientSteps(year: int)
    ensures year / 4 - (year - 1) / 4 - (year / 100 - (year - 1) / 100) + (year / 400 - (year - 1) / 400)
            == if year % 4 == 0 && (year % 100 != 0 || year % 400 == 0) then 1 else 0
  {
    assert year / 4 - (year - 1) / 4 == if year % 4 == 0 then 1 else 0;
    assert year / 100 - (year - 1) / 100 == if year % 100 == 0 then 1 else 0;
    assert year / 400 - (year - 1) / 400 == if year % 400 == 0 then 1 else 0;
  }

  /** Days before each month of a common year; from March on one more in a leap year. */
  lemma DaysBeforeTable()
    ensures DaysBefore(0, false) == 0 && DaysBefore(1, false) == 31 && DaysBefore(2, false) == 59
    ensures DaysBefore(3, false) == 90 && DaysBefore(4, false) == 120 && DaysBefore(5, false) == 151
    ensures DaysBefore(6, false) == 181 && DaysBefore(7, false) == 212 && DaysBefore(8, false) == 243
    ensures DaysBefore(9, false) == 273 && DaysBefore(10, false) == 304 && DaysBefore(11, false) == 334
  {
    assert DaysBefore(2, false) == 59;
    assert DaysBefore(4, false) == 120;
    assert DaysBefore(6, false) == 181;
    assert DaysBefore(8, false) == 243;
  }

  /** The ordinal of a first of January; 1 is that of year 1. */
  lemma FirstOfJanuary(year: int)
    ensures DateOf(year, 1, 1) == 365 * (year - 1) + (year - 1) / 4 - (year - 1) / 100 + (year - 1) / 400 + 1
  {
    YearStartByRule(year);
    assert (12 * year) / 12 == year && (12 * year) % 12 == 0;
  }

  lemma MonthFollows(k: MonthNumber)
    ensures MonthStart(k + 1) == MonthStart(k) + MonthLength(k)
  {
    var year, month := k / 12, k % 12;
    if month == 11 {
      assert (k + 1) / 12 == year + 1 && (k + 1) % 12 == 0;
      WholeYear(Leap(year));
    } else {
      assert (k + 1) / 12 == year && (k + 1) % 12 == month + 1;
    }
  }

  lemma {:induction false} MonthsAscend(k: MonthNumber, j: MonthNumber)
    requires k <= j
    ensures MonthStart(k) + 28 * (j - k) <= MonthStart(j)
    decreases j - k
  {
    if k < j {
      MonthsAscend(k, j - 1);
      MonthFollows(j - 1);
    }
  }

  lemma MonthNoAtLeast(d: Date, k: MonthNumber)
    requires MonthStart(k) < d
    ensures k <= MonthNo(d)
  {
    if MonthNo(d) < k {
      MonthsAscend(MonthNo(d) + 1, k);
    }
  }

  lemma MonthNoIsMonotone(a: Date, b: Date)
    requires a <= b
    ensures MonthNo(a) <= MonthNo(b)
  {
    MonthNoAtLeast(b, MonthNo(a));
  }

  /** Every date lies in exactly one month. */
  lemma MonthIsUnique(d: Date, k: MonthNumber)
    requires Within(d, k)
    ensures MonthNo(d) == k
  {
    if MonthNo(d) < k {
      MonthsAscend(MonthNo(d) + 1, k);
    } else if k < MonthNo(d) {
      MonthsAscend(k + 1, MonthNo(d));
    }
  }

  lemma {:induction false} LeapDayShift(month: nat)
    ensures DaysBefore(month, true) == DaysBefore(month, false) + if month <= 1 then 0 else 1
  {
    if month > 0 {
      LeapDayShift(month - 1);
    }
  }

  /** Any twelve consecutive months have 365 days, or 366 if they contain a leap day. */
  lemma TwelveMonths(k: MonthNumber)
    ensures MonthStart(k + 12) - MonthStart(k)
            == YearLength(if k % 12 <= 1 then k / 12 else k / 12 + 1)
  {
    assert (k + 12) / 12 == k / 12 + 1 && (k + 12) % 12 == k % 12;
    LeapDayShift(k % 12);
  }

  /** Any eleven consecutive months have at least 334 days. */
  lemma ElevenMonths(k: MonthNumber)
    ensures MonthStart(k + 11) - MonthStart(k) >= 334
  {
    TwelveMonths(k);
    MonthFollows(k + 11);
  }

  function DayOf(d: Date): (day: int)
    ensures 1 <= day
  {
    d - MonthStart(MonthNo(d))
  }

  /** Thirty days back stays in the month exactly from a 31st. */
  lemma SameMonthBackIff(d: Date)
    ensures MonthNo(d - 30) <= MonthNo(d)
    ensures MonthNo(d - 30) == MonthNo(d) <==> DayOf(d) == 31
  {
    var k := MonthNo(d);
    MonthNoIsMonotone(d - 30, d);
    MonthFollows(k);
    if DayOf(d) == 31 {
      MonthIsUnique(d - 30, k);
    }
  }

  /** Thirty days back skips a month exactly when the day and the month before add up to no more than thirty. */
  lemma MonthIsSkippedIff(d: Date)
    ensures MonthNo(d - 30) < MonthNo(d) - 1 <==> DayOf(d) + MonthLength(MonthNo(d) - 1) <= 30
  {
    var k := MonthNo(d);
    MonthFollows(k - 1);
    if MonthStart(k - 1) < d - 30 {
      MonthNoAtLeast(d - 30, k - 1);
    } else if MonthNo(d - 30) >= k - 1 {
      MonthsAscend(k - 1, MonthNo(d - 30));
    }
  }

  /** Steps of thirty days visit pairwise different months. */
  ghost predicate OwnMonths(today: Date, n: nat) {
    forall i, j :: 0 <= i < j < n ==> MonthNo(today - 30 * i) != MonthNo(today - 30 * j)
  }

  lemma ThirtyDaysInOneMonth(d: Date, e: Date)
    requires e <= d - 30 && MonthNo(e) == MonthNo(d)
    ensures e == d - 30 && DayOf(d) == 31
  {
    MonthFollows(MonthNo(d));
  }

  /** Two steps in one month are neighbours, the newer one on the 31st. */
  lemma OneMonthMeansNeighbours(today: Date, i: nat, j: nat)
    requires i < j && MonthNo(today - 30 * i) == MonthNo(today - 30 * j)
    ensures j == i + 1 && DayOf(today - 30 * i) == 31
  {
    ThirtyDaysInOneMonth(today - 30 * i, today - 30 * j);
  }

  /** Steps of thirty days visit different months exactly when none but the last falls on a 31st. */
  lemma OwnMonthsIff(today: Date, n: nat)
    ensures OwnMonths(today, n) <==> forall i :: 0 <= i < n - 1 ==> DayOf(today - 30 * i) != 31
  {
    forall i | 0 <= i < n - 1 && DayOf(today - 30 * i) == 31
      ensures !OwnMonths(today, n)
    {
      SameMonthBackIff(today - 30 * i);
      assert MonthNo(today - 30 * i) == MonthNo(today - 30 * (i + 1));
    }
    forall i, j | 0 <= i < j < n && MonthNo(today - 30 * i) == MonthNo(today - 30 * j)
      ensures i < n - 1 && DayOf(today - 30 * i) == 31
    {
      OneMonthMeansNeighbours(today, i, j);
    }
  }

  /** The months of the n-month window that ends with the month of today. */
  predicate InWindow(today: Date, n: int, k: MonthNumber) {
    MonthNo(today) - n < k <= MonthNo(today)
  }

  /** Eleven steps of thirty days never leave the twelve-month window. */
  lemma ElevenStepsStayInWindow(today: Date, days: nat)
    requires days <= 330
    ensures InWindow(today, 12, MonthNo(today - days))
  {
    var first := MonthNo(today) - 11;
    ElevenMonths(first);
    MonthNoAtLeast(today - days, first);
    MonthNoIsMonotone(today - days, today);
  }

  /** A date in the twelve-month window is at most 365 days old. */
  lemma WindowIsAtMostAYear(today: Date, d: Date)
    requires InWindow(today, 12, MonthNo(d))
    ensures today - d <= 365
  {
    MonthsAscend(MonthNo(today) - 11, MonthNo(d));
    TwelveMonths(MonthNo(today) - 11);
  }
}
