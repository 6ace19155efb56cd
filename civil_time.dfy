/** Proleptic Gregorian dates and times of day, as the packet decoder uses
    them through `NaiveDate::from_ymd_opt` and `and_hms_opt`: which
    year/month/day and hour/minute/second combinations exist, and how many
    seconds separate a local date and time from 1970-01-01 00:00:00. */
module CivilTime {
  import opened Types

  predicate IsLeapYear(y: int)
  {
    y % 4 == 0 && (y % 100 != 0 || y % 400 == 0)
  }

  function YearLength(y: int): nat
  {
    if IsLeapYear(y) then 366 else 365
  }

  function DaysInMonth(y: int, m: int): nat
    requires 1 <= m <= 12
  {
    if m == 2 then (if IsLeapYear(y) then 29 else 28)
    else if m == 4 || m == 6 || m == 9 || m == 11 then 30
    else 31
  }

  predicate ValidDate(y: int, m: int, d: int)
  {
    1 <= m <= 12 && 1 <= d <= DaysInMonth(y, m)
  }

  predicate ValidTime(h: int, mi: int, s: int)
  {
    0 <= h < 24 && 0 <= mi < 60 && 0 <= s < 60
  }

  /** A local date and time without a time zone (chrono's `NaiveDateTime`). */
  datatype LocalDateTime = LocalDateTime(year: int, month: int, day: int, hour: int, minute: int, second: int)
  {
    predicate Valid() { ValidDate(year, month, day) && ValidTime(hour, minute, second) }
  }

  /** `NaiveDate::from_ymd_opt`, for the years a packet can hold. */
  function FromYmd(y: int, m: int, d: int): (r: Option<(int, int, int)>)
    ensures r.Some? <==> ValidDate(y, m, d)
    ensures r.Some? ==> r.value == (y, m, d)
  {
    if 1 <= m <= 12 && 1 <= d <= DaysInMonth(y, m) then Some((y, m, d)) else None
  }

  /** `NaiveDate::and_hms_opt`: no leap second is accepted here. */
  function AndHms(date: (int, int, int), h: int, mi: int, s: int): (r: Option<LocalDateTime>)
    ensures r.Some? <==> ValidTime(h, mi, s)
    ensures r.Some? ==> r.value == LocalDateTime(date.0, date.1, date.2, h, mi, s)
  {
    if 0 <= h < 24 && 0 <= mi < 60 && 0 <= s < 60
    then Some(LocalDateTime(date.0, date.1, date.2, h, mi, s))
    else None
  }

  /** Leap years in 1 .. y-1. */
  function LeapsBefore(y: int): int
    requires y >= 1
  {
    (y - 1) / 4 - (y - 1) / 100 + (y - 1) / 400
  }

  /** Days from 1970-01-01 to January 1st of `y`, in closed form. */
  function DaysBeforeYear(y: int): int
    requires y >= 1970
  {
    365 * (y - 1970) + LeapsBefore(y) - LeapsBefore(1970)
  }

  /** Days from January 1st to the first of month `m`, from a table. */
  function DaysBeforeMonth(y: int, m: int): nat
    requires 1 <= m <= 12
  {
    [0, 31, 59, 90, 120, 151, 181, 212, 243, 273, 304, 334][m - 1]
      + (if m > 2 && IsLeapYear(y) then 1 else 0)
  }

  /** Days from 1970-01-01 to the given date. */
  function DaysFromEpoch(y: int, m: int, d: int): int
    requires y >= 1970 && ValidDate(y, m, d)
  {
    DaysBeforeYear(y) + DaysBeforeMonth(y, m) + d - 1
  }

  /** Seconds from 1970-01-01 00:00:00 to a valid local date and time, both
      read on the same wall clock. */
  function LocalSeconds(t: LocalDateTime): int
    requires t.year >= 1970 && t.Valid()
  {
    DaysFromEpoch(t.year, t.month, t.day) * 86400 + t.hour * 3600 + t.minute * 60 + t.second
  }

  // The closed forms above agree with counting year by year and month by month.

  /** Days from 1970-01-01 to January 1st of `y`, counted year by year. */
  function YearsCounted(y: int): nat
    requires y >= 1970
    decreases y
  {
    if y == 1970 then 0 else YearsCounted(y - 1) + YearLength(y - 1)
  }

  /** Days from January 1st to the first of month `m`, counted month by month. */
  function MonthsCounted(y: int, m: int): nat
    requires 1 <= m <= 12
  {
    if m == 1 then 0 else MonthsCounted(y, m - 1) + DaysInMonth(y, m - 1)
  }

  /** One more year adds one more leap day exactly when that year is a leap year. */
  lemma LeapsStep(y: int)
    requires y >= 1
    ensures LeapsBefore(y + 1) == LeapsBefore(y) + (if IsLeapYear(y) then 1 else 0)
  {
    DivStep(y - 1, 4);
    DivStep(y - 1, 100);
    DivStep(y - 1, 400);
    assert y % 400 == 0 ==> y % 100 == 0 && y % 4 == 0 by {
      if y % 400 == 0 {
        DivModUnique(y, 100, (y / 400) * 4, 0);
        DivModUnique(y, 4, (y / 400) * 100, 0);
      }
    }
    assert y % 100 == 0 ==> y % 4 == 0 by {
      if y % 100 == 0 {
        DivModUnique(y, 4, (y / 100) * 25, 0);
      }
    }
  }

  /** Counting one further passes a multiple of `d` exactly when it reaches one. */
  lemma DivStep(x: int, d: int)
    requires x >= 0 && d > 0
    ensures (x + 1) / d == x / d + (if (x + 1) % d == 0 then 1 else 0)
  {
    var q, r := x / d, x % d;
    if r == d - 1 {
      DivModUnique(x + 1, d, q + 1, 0);
    } else {
      DivModUnique(x + 1, d, q, r + 1);
    }
  }

  lemma {:induction false} DaysBeforeYearCounts(y: int)
    requires y >= 1970
    ensures DaysBeforeYear(y) == YearsCounted(y)
    decreases y
  {
    if y > 1970 {
      DaysBeforeYearCounts(y - 1);
      LeapsStep(y - 1);
    }
  }

  lemma DaysBeforeMonthCounts(y: int, m: int)
    requires 1 <= m <= 12
    ensures DaysBeforeMonth(y, m) == MonthsCounted(y, m)
  {
    assert MonthsCounted(y, 1) == 0;
    assert MonthsCounted(y, 2) == 31;
    assert MonthsCounted(y, 3) == 59 + (if IsLeapYear(y) then 1 else 0);
    assert MonthsCounted(y, 4) == 90 + (if IsLeapYear(y) then 1 else 0);
    assert MonthsCounted(y, 5) == 120 + (if IsLeapYear(y) then 1 else 0);
    assert MonthsCounted(y, 6) == 151 + (if IsLeapYear(y) then 1 else 0);
    assert MonthsCounted(y, 7) == 181 + (if IsLeapYear(y) then 1 else 0);
    assert MonthsCounted(y, 8) == 212 + (if IsLeapYear(y) then 1 else 0);
    assert MonthsCounted(y, 9) == 243 + (if IsLeapYear(y) then 1 else 0);
    assert MonthsCounted(y, 10) == 273 + (if IsLeapYear(y) then 1 else 0);
    assert MonthsCounted(y, 11) == 304 + (if IsLeapYear(y) then 1 else 0);
    assert MonthsCounted(y, 12) == 334 + (if IsLeapYear(y) then 1 else 0);
  }

  /** The day count is the count of the days before it, year by year and then
      month by month. */
  lemma DaysFromEpochCounts(y: int, m: int, d: int)
    requires y >= 1970 && ValidDate(y, m, d)
    ensures DaysFromEpoch(y, m, d) == YearsCounted(y) + MonthsCounted(y, m) + d - 1
  {
    DaysBeforeYearCounts(y);
    DaysBeforeMonthCounts(y, m);
  }

  /** A valid date falls inside its year. */
  lemma DayOfYearInRange(y: int, m: int, d: int)
    requires ValidDate(y, m, d)
    ensures 0 <= DaysBeforeMonth(y, m) + d - 1 < YearLength(y)
  {
  }

  lemma {:induction false} YearsCountedIncreases(y: int, z: int)
    requires 1970 <= y < z
    ensures YearsCounted(y) + YearLength(y) <= YearsCounted(z)
    decreases z
  {
    if z > y + 1 {
      YearsCountedIncreases(y, z - 1);
    }
  }

  /** Whether `a` comes before `b` on the wall clock. */
  predicate Before(a: LocalDateTime, b: LocalDateTime)
  {
    if a.year != b.year then a.year < b.year
    else if a.month != b.month then a.month < b.month
    else if a.day != b.day then a.day < b.day
    else if a.hour != b.hour then a.hour < b.hour
    else if a.minute != b.minute then a.minute < b.minute
    else a.second < b.second
  }

  /** Later local times have more seconds: the conversion is strictly
      increasing, hence one-to-one. */
  lemma LocalSecondsIncrease(a: LocalDateTime, b: LocalDateTime)
    requires a.year >= 1970 && b.year >= 1970 && a.Valid() && b.Valid()
    requires Before(a, b)
    ensures LocalSeconds(a) < LocalSeconds(b)
  {
    var da := DaysFromEpoch(a.year, a.month, a.day);
    var db := DaysFromEpoch(b.year, b.month, b.day);
    DaysFromEpochCounts(a.year, a.month, a.day);
    DaysFromEpochCounts(b.year, b.month, b.day);
    DaysBeforeMonthCounts(a.year, a.month);
    DaysBeforeMonthCounts(b.year, b.month);
    if a.year < b.year {
      DayOfYearInRange(a.year, a.month, a.day);
      YearsCountedIncreases(a.year, b.year);
      assert da < db;
    } else if a.month < b.month {
      assert DaysBeforeMonth(a.year, a.month) + DaysInMonth(a.year, a.month) <= DaysBeforeMonth(b.year, b.month);
      assert da < db;
    } else if a.month == b.month && a.day < b.day {
      assert da < db;
    } else {
      assert da == db;
    }
    assert a.hour * 3600 + a.minute * 60 + a.second < 86400;
    assert b.hour * 3600 + b.minute * 60 + b.second < 86400;
  }

  lemma LocalSecondsInjective(a: LocalDateTime, b: LocalDateTime)
    requires a.year >= 1970 && b.year >= 1970 && a.Valid() && b.Valid()
    requires LocalSeconds(a) == LocalSeconds(b)
    ensures a == b
  {
    if Before(a, b) {
      LocalSecondsIncrease(a, b);
    } else if Before(b, a) {
      LocalSecondsIncrease(b, a);
    }
  }

  /** A date of year `y` comes before January 1st of every later year. */
  lemma DaysFromEpochBelow(y: int, m: int, d: int, z: int)
    requires 1970 <= y < z && ValidDate(y, m, d)
    ensures DaysFromEpoch(y, m, d) < DaysBeforeYear(z)
  {
    DaysFromEpochCounts(y, m, d);
    DaysBeforeMonthCounts(y, m);
    DayOfYearInRange(y, m, d);
    DaysBeforeYearCounts(z);
    YearsCountedIncreases(y, z);
  }
}
