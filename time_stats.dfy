/**
 * The integer part of the `time --statistics` report: the ordinal day of the
 * year, the year's length, the leap-year flag and the seconds elapsed since
 * local midnight. The two progress percentages, which the program computes in
 * floating point, are kept as exact fractions.
 */
module TimeStatistics {
  import opened Calendar

  /** A local wall-clock time with whole seconds. */
  datatype WallClock = WallClock(hour: int, minute: int, second: int)

  /** The ranges the date library guarantees for hour, minute and second. */
  predicate ValidWallClock(t: WallClock) {
    0 <= t.hour < 24 && 0 <= t.minute < 60 && 0 <= t.second < 60
  }

  /** The local instant the statistics are computed from: a calendar date and a wall-clock time. */
  datatype LocalDateTime = LocalDateTime(date: Date, time: WallClock)

  predicate ValidDateTime(now: LocalDateTime) {
    ValidDate(now.date) && ValidWallClock(now.time)
  }

  const SecondsInDay: nat := 86_400

  /** Seconds since local midnight. */
  function SecondsIntoDay(t: WallClock): (s: int)
    requires ValidWallClock(t)
    ensures 0 <= s < SecondsInDay
    ensures s == 0 <==> t == WallClock(0, 0, 0)
  {
    t.hour * 3600 + t.minute * 60 + t.second
  }

  /** The wall-clock time a number of seconds after midnight: the inverse of `SecondsIntoDay`. */
  function WallClockAt(s: int): (t: WallClock)
    requires 0 <= s < SecondsInDay
    ensures ValidWallClock(t)
  {
    WallClock(s / 3600, s % 3600 / 60, s % 60)
  }

  lemma WallClockAtSecondsIntoDay(t: WallClock)
    requires ValidWallClock(t)
    ensures WallClockAt(SecondsIntoDay(t)) == t
  {
    var s := SecondsIntoDay(t);
    assert s / 3600 == t.hour;
    assert s % 3600 == t.minute * 60 + t.second;
  }

  lemma SecondsIntoDayOfWallClockAt(s: int)
    requires 0 <= s < SecondsInDay
    ensures SecondsIntoDay(WallClockAt(s)) == s
  {
  }

  /** A later time of the same day has more seconds since midnight. */
  lemma SecondsIntoDayMonotone(a: WallClock, b: WallClock)
    requires ValidWallClock(a) && ValidWallClock(b)
    requires a.hour < b.hour || (a.hour == b.hour && (a.minute < b.minute || (a.minute == b.minute && a.second < b.second)))
    ensures SecondsIntoDay(a) < SecondsIntoDay(b)
  {
  }

  /**
   * An exact fraction `num / den`: the part of the day or year elapsed. The
   * program's floating-point progress field is 100 times this fraction, a
   * percentage.
   */
  datatype Ratio = Ratio(num: nat, den: nat)

  /**
   * An integer view of the day progress: the whole percentage, rounded down.
   * It is not a value the program computes. The program prints the
   * floating-point percentage to two decimals, rounding to nearest, so it
   * shows "100.00" in the last four seconds of the day (from 86,396 seconds
   * on). Rounded down, the percentage stays below 100 for every second of the
   * day, and it is 0 only in the first 864 seconds, the first hundredth of
   * the day.
   */
  function DayPercentFloor(secondsIntoDay: int): (p: int)
    requires 0 <= secondsIntoDay < SecondsInDay
    ensures 0 <= p < 100
    ensures p == 0 <==> secondsIntoDay < 864
  {
    secondsIntoDay * 100 / SecondsInDay
  }

  /** The report's values, apart from the ISO week and the Unix timestamp. */
  datatype TimeStats = TimeStats(
    dayOfYear: nat,
    totalDaysInYear: nat,
    dayProgress: Ratio,
    yearProgress: Ratio,
    isLeap: bool)

  /**
   * The statistics of one local instant. The leap flag is found the way the
   * program finds it, from the ordinal of 31 December.
   */
  function ComputeTimeStatistics(now: LocalDateTime): (st: TimeStats)
    requires ValidDateTime(now)
    ensures st.isLeap <==> IsGregorianLeapYear(now.date.year)
    ensures st.totalDaysInYear == YearLength(now.date.year)
    ensures st.totalDaysInYear == if st.isLeap then 366 else 365
    ensures 1 <= st.dayOfYear <= st.totalDaysInYear
    ensures DateOfOrdinal(now.date.year, st.dayOfYear) == now.date
    ensures st.dayOfYear == Ordinal(now.date)
    ensures st.dayProgress == Ratio(SecondsIntoDay(now.time), SecondsInDay)
    ensures st.dayProgress.num < st.dayProgress.den
    ensures st.dayProgress.num == 0 <==> now.time == WallClock(0, 0, 0)
    ensures st.yearProgress == Ratio(st.dayOfYear, st.totalDaysInYear)
  {
    var year := now.date.year;
    var isLeap := IsLeap(year);
    var secondsIntoDay := SecondsIntoDay(now.time);
    var dayOfYear := Ordinal(now.date);
    var totalDaysInYear := if isLeap then 366 else 365;
    LeapFlagIsGregorianRule(year);
    YearLengthByRule(year);
    DateOfOrdinalOfDate(now.date);
    TimeStats(
      dayOfYear,
      totalDaysInYear,
      Ratio(secondsIntoDay, SecondsInDay),
      Ratio(dayOfYear, totalDaysInYear),
      isLeap)
  }

  /**
   * The year progress counts the current day as elapsed: it is positive on
   * 1 January and reaches exactly 100% on 31 December.
   */
  lemma YearProgressRange(now: LocalDateTime)
    requires ValidDateTime(now)
    ensures var p := ComputeTimeStatistics(now).yearProgress; 0 < p.num <= p.den
    ensures var p := ComputeTimeStatistics(now).yearProgress;
      p.num == p.den <==> now.date.month == 12 && now.date.day == 31
  {
    var y := now.date.year;
    var st := ComputeTimeStatistics(now);
    OrdinalEnds(y);
    if st.dayOfYear == st.totalDaysInYear {
      OrdinalInjective(now.date, Date(y, 12, 31));
    }
  }

  /** The first unit test's instant: midnight on 1 March 2024, day 61 of a leap year. */
  lemma LeapYearUnitTest()
    ensures var st := ComputeTimeStatistics(LocalDateTime(Date(2024, 3, 1), WallClock(0, 0, 0)));
      st.isLeap && st.totalDaysInYear == 366 && st.dayOfYear == 61
  {
    var st := ComputeTimeStatistics(LocalDateTime(Date(2024, 3, 1), WallClock(0, 0, 0)));
    UnitTestDates();
    assert st.dayOfYear == Ordinal(Date(2024, 3, 1));
  }

  /** The second unit test's instant: midnight on 1 March 2025, in a common year. */
  lemma CommonYearUnitTest()
    ensures var st := ComputeTimeStatistics(LocalDateTime(Date(2025, 3, 1), WallClock(0, 0, 0)));
      !st.isLeap && st.totalDaysInYear == 365
  {
    var st := ComputeTimeStatistics(LocalDateTime(Date(2025, 3, 1), WallClock(0, 0, 0)));
    UnitTestDates();
  }
}
