/**
 * The parts of Go's `time.Time` that the logger reads: the calendar date, the
 * time of day, and `YearDay()` (1 for January 1st, as Go counts it).
 * The clock itself is not modelled: every "now" is passed in as a value.
 */
module Calendar {

  datatype Time = Time(year: int, month: int, day: int,
                       hour: int, minute: int, second: int, nanosecond: int)

  /** Gregorian leap years, as Go's time package decides them. */
  predicate IsLeap(year: int)
  {
    year % 4 == 0 && (year % 100 != 0 || year % 400 == 0)
  }

  function DaysIn(month: int, year: int): (n: int)
    ensures 28 <= n <= 31
  {
    if month == 2 then (if IsLeap(year) then 29 else 28)
    else if month == 4 || month == 6 || month == 9 || month == 11 then 30
    else 31
  }

  /** A date Go's time package can hold: a month of the year and a day of that month. */
  ghost predicate ValidDate(t: Time)
  {
    1 <= t.month <= 12 && 1 <= t.day <= DaysIn(t.month, t.year)
  }

  /** The number of days of `year` before the first of `month`. */
  function DaysBefore(month: int, year: int): int
    decreases month
  {
    if month <= 1 then 0 else DaysBefore(month - 1, year) + DaysIn(month - 1, year)
  }

  /** `t.YearDay()`: the day of the year, counting January 1st as 1. */
  function YearDay(t: Time): int
  {
    DaysBefore(t.month, t.year) + t.day
  }

  /** A valid date's year-day lies between 1 and the length of its year. */
  lemma {:induction false} YearDayBounds(t: Time)
    requires ValidDate(t)
    ensures 1 <= YearDay(t) <= (if IsLeap(t.year) then 366 else 365)
  {
    DaysBeforeNonNegative(t.month, t.year);
    if t.month < 12 {
      DaysBeforeGrows(t.month, 12, t.year);
    }
    assert DaysBefore(12, t.year) == (if IsLeap(t.year) then 335 else 334);
  }

  lemma {:induction false} DaysBeforeNonNegative(month: int, year: int)
    ensures DaysBefore(month, year) >= 0
    decreases month
  {
    if month > 1 {
      DaysBeforeNonNegative(month - 1, year);
    }
  }

  /** A later month starts after every day of an earlier one. */
  lemma {:induction false} DaysBeforeGrows(a: int, b: int, year: int)
    requires 1 <= a < b
    ensures DaysBefore(b, year) >= DaysBefore(a, year) + DaysIn(a, year)
    decreases b
  {
    if b > a + 1 {
      DaysBeforeGrows(a, b - 1, year);
    }
  }

  /**
   * Within one year the year-day identifies the date: two valid dates of the
   * same year have the same year-day exactly when they are the same day.
   */
  lemma SameYearDayWithinYear(t: Time, u: Time)
    requires ValidDate(t) && ValidDate(u) && t.year == u.year
    ensures YearDay(t) == YearDay(u) <==> t.month == u.month && t.day == u.day
  {
    if t.month < u.month {
      DaysBeforeGrows(t.month, u.month, t.year);
    } else if u.month < t.month {
      DaysBeforeGrows(u.month, t.month, t.year);
    }
  }
}
