/**
 * Calendar days as absolute day numbers, and the normalisation that
 * JavaScript's `new Date(year, monthIndex, day)` applies to a month index
 * outside 0..11 and to a day outside the month.
 */
module Calendar {

  /** A proleptic Gregorian calendar date; `month` runs from 1 to 12. */
  datatype CivilDate = CivilDate(year: int, month: int, day: int)
  {
    predicate Valid()
    {
      1 <= month <= 12 && 1 <= day <= DaysInMonth(year, month)
    }
  }

  predicate IsLeap(y: int)
  {
    y % 4 == 0 && (y % 100 != 0 || y % 400 == 0)
  }

  function DaysInMonth(y: int, m: int): (n: int)
    requires 1 <= m <= 12
    ensures 28 <= n <= 31
  {
    if m == 2 then (if IsLeap(y) then 29 else 28)
    else if m == 4 || m == 6 || m == 9 || m == 11 then 30
    else 31
  }

  /** Days from the 1st of January of year `y` to the 1st of month `m`. */
  function DaysBeforeMonth(y: int, m: int): int
    requires 1 <= m <= 12
  {
    [0, 31, 59, 90, 120, 151, 181, 212, 243, 273, 304, 334][m - 1]
      + (if m > 2 && IsLeap(y) then 1 else 0)
  }

  /** Days from the 1st of January of year 0 to the 1st of January of year `y`. */
  function DaysBeforeYear(y: int): int
  {
    365 * y + (y + 3) / 4 - (y + 99) / 100 + (y + 399) / 400
  }

  /**
   * The day number of `date` in month `monthIndex` (0-based) of `year`, where a
   * month index outside 0..11 moves into an earlier or later year and a day
   * outside the month moves into an earlier or later month.
   */
  function MakeDay(year: int, monthIndex: int, date: int): int
  {
    var y := year + monthIndex / 12;
    var m := monthIndex % 12;
    DaysBeforeYear(y) + DaysBeforeMonth(y, m + 1) + date - 1
  }

  /** `new Date(year, monthIndex, date)`, which reads a year from 0 to 99 as 1900 + year. */
  function NewDate(year: int, monthIndex: int, date: int): int
  {
    MakeDay(if 0 <= year <= 99 then 1900 + year else year, monthIndex, date)
  }

  /** The day number of a calendar date; a day outside its month is normalised as by `MakeDay`. */
  function DayNumber(d: CivilDate): int
  {
    MakeDay(d.year, d.month - 1, d.day)
  }

  /** Within a year, `MakeDay` adds the days before the month and the day of the month. */
  lemma MakeDayInYear(y: int, mi: int, d: int)
    requires 0 <= mi <= 11
    ensures MakeDay(y, mi, d) == DaysBeforeYear(y) + DaysBeforeMonth(y, mi + 1) + d - 1
  {
    assert mi / 12 == 0 && mi % 12 == mi;
  }

  /** The day of month counts from the 1st, in or out of the month's range. */
  lemma MakeDayByDay(y: int, mi: int, d: int)
    ensures MakeDay(y, mi, d) == MakeDay(y, mi, 1) + d - 1
  {
  }

  lemma YearLength(y: int)
    ensures DaysBeforeYear(y + 1) == DaysBeforeYear(y) + (if IsLeap(y) then 366 else 365)
  {
    assert (y + 4) / 4 - (y + 3) / 4 == (if y % 4 == 0 then 1 else 0);
    assert (y + 100) / 100 - (y + 99) / 100 == (if y % 100 == 0 then 1 else 0);
    assert (y + 400) / 400 - (y + 399) / 400 == (if y % 400 == 0 then 1 else 0);
  }

  /** The 1st of the month after month index `mi` is `DaysInMonth` days after the 1st of month `mi`. */
  lemma MonthLength(y: int, mi: int)
    requires 0 <= mi <= 11
    ensures MakeDay(y, mi + 1, 1) == MakeDay(y, mi, 1) + DaysInMonth(y, mi + 1)
  {
    MakeDayInYear(y, mi, 1);
    if mi == 11 {
      MonthOverflow(y, 0, 1);
      MakeDayInYear(y + 1, 0, 1);
      YearLength(y);
    } else {
      MakeDayInYear(y, mi + 1, 1);
    }
  }

  /** The same day of the next month is `DaysInMonth` days later, for any day number. */
  lemma NextMonthSameDay(y: int, mi: int, d: int)
    requires 0 <= mi <= 11
    ensures MakeDay(y, mi + 1, d) - MakeDay(y, mi, d) == DaysInMonth(y, mi + 1)
  {
    MonthLength(y, mi);
    MakeDayByDay(y, mi, d);
    MakeDayByDay(y, mi + 1, d);
  }

  /** A day past the end of a month is read as a day of the next month (June 31 is July 1). */
  lemma DayOverflow(y: int, mi: int, k: int)
    requires 0 <= mi <= 11
    ensures MakeDay(y, mi, DaysInMonth(y, mi + 1) + k) == MakeDay(y, mi + 1, k)
  {
    MonthLength(y, mi);
  }

  /** Month index 12 is January of the next year, and so on. */
  lemma MonthOverflow(y: int, mi: int, d: int)
    ensures MakeDay(y, mi + 12, d) == MakeDay(y + 1, mi, d)
  {
    assert (mi + 12) / 12 == mi / 12 + 1 && (mi + 12) % 12 == mi % 12;
  }

  /** Any date of a month lies before every day of the next month from its 1st on. */
  lemma BeforeNextMonth(d: CivilDate, k: int)
    requires d.Valid() && k >= 1
    ensures DayNumber(d) < MakeDay(d.year, d.month, k)
  {
    MonthLength(d.year, d.month - 1);
    MakeDayInYear(d.year, d.month - 1, d.day);
    MakeDayInYear(d.year, d.month - 1, 1);
  }

  /** Each year has at least 365 days. */
  lemma {:induction false} YearsAtLeast(y: int, n: nat)
    ensures DaysBeforeYear(y + n) >= DaysBeforeYear(y) + 365 * n
  {
    if n > 0 {
      YearsAtLeast(y, n - 1);
      YearLength(y + n - 1);
    }
  }

  /** A year in 0..99 passed to `new Date` lands 1900 years later, after every day of the year itself. */
  lemma TwoDigitYearIsLater(d: CivilDate, mi: int, k: int)
    requires d.Valid() && 0 <= d.year <= 99 && 0 <= mi <= 11 && 1 <= k <= 31
    ensures DayNumber(d) < NewDate(d.year, mi, k)
  {
    var y := d.year;
    assert NewDate(y, mi, k) == MakeDay(y + 1900, mi, k);
    MakeDayInYear(y, d.month - 1, d.day);
    MakeDayInYear(y + 1900, mi, k);
    MonthBounds(y, d.month);
    MonthBounds(y + 1900, mi + 1);
    YearsAtLeast(y, 1900);
  }

  lemma MonthBounds(y: int, m: int)
    requires 1 <= m <= 12
    ensures 0 <= DaysBeforeMonth(y, m) <= 335
  {
  }
}
