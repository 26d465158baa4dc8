/**
 * The proleptic Gregorian calendar (the one ISO 8601 uses) that the time
 * statistics take their dates from: leap years, month lengths and the ordinal
 * day of the year. It stands in for the date library the program calls, so
 * that the statistics can be stated and proved for every year.
 */
module Calendar {

  /** A calendar date; `ValidDate` says when it names a real day. */
  datatype Date = Date(year: int, month: int, day: int)

  /** The Gregorian rule, stated directly. Negative years follow the same rule (year 0 is leap). */
  predicate IsGregorianLeapYear(y: int) {
    (y % 4 == 0 && y % 100 != 0) || y % 400 == 0
  }

  function DaysInMonth(y: int, m: int): (n: int)
    requires 1 <= m <= 12
    ensures 28 <= n <= 31
    ensures m == 2 ==> (n == 29 <==> IsGregorianLeapYear(y))
  {
    if m == 2 then (if IsGregorianLeapYear(y) then 29 else 28)
    else if m == 4 || m == 6 || m == 9 || m == 11 then 30
    else 31
  }

  predicate ValidDate(d: Date) {
    1 <= d.month <= 12 && 1 <= d.day <= DaysInMonth(d.year, d.month)
  }

  /** The number of days of year `y` in the months before month `m` (`m == 13` gives the whole year). */
  function DaysBeforeMonth(y: int, m: int): (n: nat)
    requires 1 <= m <= 13
    decreases m
  {
    if m == 1 then 0 else DaysBeforeMonth(y, m - 1) + DaysInMonth(y, m - 1)
  }

  /** The length of year `y`, counted month by month. */
  function YearLength(y: int): nat {
    DaysBeforeMonth(y, 13)
  }

  /** The 1-based ordinal day of the year of a date. */
  function Ordinal(d: Date): (n: int)
    requires ValidDate(d)
  {
    DaysBeforeMonth(d.year, d.month) + d.day
  }

  /**
   * The program's leap-year flag, computed as the date library is asked for it:
   * the year is leap when 31 December is its 366th day.
   */
  predicate IsLeap(y: int) {
    Ordinal(Date(y, 12, 31)) == 366
  }

  /** The day count, as cumulative table at the start of each month, of a common year. */
  function CommonYearTable(m: int): nat
    requires 1 <= m <= 13
  {
    [0, 31, 59, 90, 120, 151, 181, 212, 243, 273, 304, 334, 365][m - 1]
  }

  /** The month-by-month sum agrees with the usual closed table plus one leap day after February. */
  lemma {:induction false} DaysBeforeMonthTable(y: int, m: int)
    requires 1 <= m <= 13
    ensures DaysBeforeMonth(y, m) == CommonYearTable(m) + (if m > 2 && IsGregorianLeapYear(y) then 1 else 0)
    decreases m
  {
    if m > 1 {
      DaysBeforeMonthTable(y, m - 1);
    }
  }

  /** A year has 366 days when the Gregorian rule says it is leap, and 365 otherwise. */
  lemma YearLengthByRule(y: int)
    ensures YearLength(y) == if IsGregorianLeapYear(y) then 366 else 365
  {
    DaysBeforeMonthTable(y, 13);
  }

  /** The program's flag (31 December is day 366) is exactly the Gregorian rule. */
  lemma LeapFlagIsGregorianRule(y: int)
    ensures IsLeap(y) <==> IsGregorianLeapYear(y)
  {
    DaysBeforeMonthTable(y, 12);
  }

  /** A year is leap exactly when 29 February is a date in it. */
  lemma LeapIffFebruary29Exists(y: int)
    ensures IsLeap(y) <==> ValidDate(Date(y, 2, 29))
  {
    LeapFlagIsGregorianRule(y);
  }

  /** Every date of a year has an ordinal between 1 and the year's length. */
  lemma {:induction false} OrdinalInYear(d: Date)
    requires ValidDate(d)
    ensures 1 <= Ordinal(d) <= YearLength(d.year)
  {
    DaysBeforeMonthTable(d.year, d.month);
    DaysBeforeMonthTable(d.year, d.month + 1);
    DaysBeforeMonthTable(d.year, 13);
  }

  /** 1 January is day 1 and 31 December is the last day of the year. */
  lemma OrdinalEnds(y: int)
    ensures Ordinal(Date(y, 1, 1)) == 1
    ensures Ordinal(Date(y, 12, 31)) == YearLength(y)
  {
  }

  /** The month that holds day `n` of year `y`, searched from month `m` on. */
  function MonthOfOrdinal(y: int, n: int, m: int): (r: int)
    requires 1 <= m <= 12
    requires DaysBeforeMonth(y, m) < n <= YearLength(y)
    ensures m <= r <= 12
    ensures DaysBeforeMonth(y, r) < n <= DaysBeforeMonth(y, r + 1)
    decreases 12 - m
  {
    if n <= DaysBeforeMonth(y, m + 1) then m
    else
      DaysBeforeMonthTable(y, m + 1);
      DaysBeforeMonthTable(y, 13);
      MonthOfOrdinal(y, n, m + 1)
  }

  /** The date that is day `n` of year `y`: the inverse of `Ordinal`. */
  function DateOfOrdinal(y: int, n: int): (d: Date)
    requires 1 <= n <= YearLength(y)
    ensures ValidDate(d) && d.year == y
  {
    var m := MonthOfOrdinal(y, n, 1);
    Date(y, m, n - DaysBeforeMonth(y, m))
  }

  /** Months start strictly later the later they are. */
  lemma {:induction false} DaysBeforeMonthMonotone(y: int, a: int, b: int)
    requires 1 <= a <= b <= 13
    ensures DaysBeforeMonth(y, a) + 28 * (b - a) <= DaysBeforeMonth(y, b)
    decreases b - a
  {
    if a < b {
      DaysBeforeMonthMonotone(y, a, b - 1);
    }
  }

  /** Going from a date to its ordinal and back gives the date again. */
  lemma DateOfOrdinalOfDate(d: Date)
    requires ValidDate(d)
    ensures 1 <= Ordinal(d) <= YearLength(d.year)
    ensures DateOfOrdinal(d.year, Ordinal(d)) == d
  {
    OrdinalInYear(d);
    var y, n := d.year, Ordinal(d);
    var m := MonthOfOrdinal(y, n, 1);
    if m < d.month {
      DaysBeforeMonthMonotone(y, m + 1, d.month);
    } else if m > d.month {
      DaysBeforeMonthMonotone(y, d.month + 1, m);
    }
  }

  /** Going from an ordinal to its date and back gives the ordinal again. */
  lemma OrdinalOfDateOfOrdinal(y: int, n: int)
    requires 1 <= n <= YearLength(y)
    ensures Ordinal(DateOfOrdinal(y, n)) == n
  {
  }

  /** The ordinal tells dates of the same year apart. */
  lemma OrdinalInjective(d1: Date, d2: Date)
    requires ValidDate(d1) && ValidDate(d2) && d1.year == d2.year
    requires Ordinal(d1) == Ordinal(d2)
    ensures d1 == d2
  {
    DateOfOrdinalOfDate(d1);
    DateOfOrdinalOfDate(d2);
  }

  /** The days of the unit tests: 2024 is leap and 2025 is not; 1 March is day 61 of 2024 and day 60 of 2025. */
  lemma UnitTestDates()
    ensures IsLeap(2024) && !IsLeap(2025)
    ensures Ordinal(Date(2024, 3, 1)) == 61
    ensures Ordinal(Date(2025, 3, 1)) == 60
  {
    LeapFlagIsGregorianRule(2024);
    LeapFlagIsGregorianRule(2025);
    DaysBeforeMonthTable(2024, 3);
    DaysBeforeMonthTable(2025, 3);
  }
}
