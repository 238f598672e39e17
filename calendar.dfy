/** Calendar arithmetic standing in for JavaScript's `Date`: a date is reduced
    to an integer day number in the proleptic Gregorian calendar, the calendar
    `Date` uses. For a year `y` outside 0..99, `DayNumber(y, m, d)` is the day
    `new Date(y, m, d)` denotes, with the same normalisation (a year 0..99 is
    read by `new Date` as 1900 + y; the years the store works with are four
    digits): the month index is zero-based and may lie
    outside 0..11 (it carries into the year), and the day may lie outside the
    month (it rolls over into the neighbouring months). Time of day and time
    zones are not modelled. */
module Calendar {

  /** A calendar date with a zero-based month, as `getFullYear`, `getMonth`
      and `getDate` report it. */
  datatype Date = Date(year: int, month: int, day: int)

  predicate IsLeapYear(y: int)
  {
    y % 4 == 0 && (y % 100 != 0 || y % 400 == 0)
  }

  function YearLength(y: int): int
  {
    if IsLeapYear(y) then 366 else 365
  }

  function DaysInMonth(y: int, m: int): int
    requires 0 <= m < 12
  {
    if m == 1 then (if IsLeapYear(y) then 29 else 28)
    else if m == 3 || m == 5 || m == 8 || m == 10 then 30
    else 31
  }

  /** Days of year `y` that lie before the first of month `m`. */
  function DaysBeforeMonth(y: int, m: int): int
    requires 0 <= m < 12
  {
    [0, 31, 59, 90, 120, 151, 181, 212, 243, 273, 304, 334][m]
      + (if m >= 2 && IsLeapYear(y) then 1 else 0)
  }

  /** The day number of January 1 of year `y`; day 0 is January 1 of year 0.
      Each year starts where the previous one ends. */
  function DaysBeforeYear(y: int): int
    decreases if y >= 0 then y else -y
  {
    if y == 0 then 0
    else if y > 0 then DaysBeforeYear(y - 1) + YearLength(y - 1)
    else DaysBeforeYear(y + 1) - YearLength(y)
  }

  /** The day denoted by `new Date(y, m, d)` when `y` is not in 0..99. */
  function DayNumber(y: int, m: int, d: int): int
  {
    var year := y + m / 12;
    var month := m % 12;
    DaysBeforeYear(year) + DaysBeforeMonth(year, month) + d - 1
  }

  /** The normalisation of `new Date(y, m, d)`: twelve months more are one
      year more, and one day more is the next day number, whatever the month
      lengths. */
  lemma DayNumberCarries(y: int, m: int, d: int)
    ensures DayNumber(y, m + 12, d) == DayNumber(y + 1, m, d)
    ensures DayNumber(y, m, d + 1) == DayNumber(y, m, d) + 1
  {
    assert (m + 12) / 12 == m / 12 + 1 && (m + 12) % 12 == m % 12;
  }

  predicate ValidDate(date: Date)
  {
    0 <= date.month < 12 && 1 <= date.day <= DaysInMonth(date.year, date.month)
  }

  function DayNumberOf(date: Date): int
  {
    DayNumber(date.year, date.month, date.day)
  }

  /** Consecutive New Year's days are one year length apart. */
  lemma YearStep(y: int)
    ensures DaysBeforeYear(y + 1) == DaysBeforeYear(y) + YearLength(y)
  {
  }

  /** The months of a year tile it: each month starts where the previous one ends. */
  lemma MonthsTileTheYear(y: int, m: int)
    requires 0 <= m < 12
    ensures 0 <= DaysBeforeMonth(y, m)
    ensures DaysBeforeMonth(y, m) + DaysInMonth(y, m) <= YearLength(y)
    ensures m < 11 ==> DaysBeforeMonth(y, m + 1) == DaysBeforeMonth(y, m) + DaysInMonth(y, m)
    ensures m == 11 ==> DaysBeforeMonth(y, m) + DaysInMonth(y, m) == YearLength(y)
  {
  }

  /** A valid date lies inside its own year. */
  lemma DateWithinItsYear(date: Date)
    requires ValidDate(date)
    ensures DaysBeforeYear(date.year) <= DayNumberOf(date) < DaysBeforeYear(date.year + 1)
  {
    assert date.month / 12 == 0 && date.month % 12 == date.month;
    MonthsTileTheYear(date.year, date.month);
    YearStep(date.year);
  }

  /** `new Date(y, m, d)` with an in-range month and a day of at most 31 stays
      inside year `y`, even when the day rolls over into the next month. */
  lemma DayUpTo31WithinYear(y: int, m: int, d: int)
    requires 0 <= m < 12 && 1 <= d <= 31
    ensures DaysBeforeYear(y) <= DayNumber(y, m, d) < DaysBeforeYear(y + 1)
  {
    MonthsTileTheYear(y, m);
    MonthsTileTheYear(y, 11);
    YearStep(y);
  }

  /** The same month and day one year later is 365 or 366 days later. */
  lemma SameDayNextYear(y: int, m: int, d: int)
    requires 0 <= m < 12
    ensures 365 <= DayNumber(y + 1, m, d) - DayNumber(y, m, d) <= 366
  {
    YearStep(y);
    assert IsLeapYear(y) ==> !IsLeapYear(y + 1);
  }

  /** The same month index and day one year later is 365 or 366 days later,
      whatever the month index. */
  lemma SameDayNextYearAnyMonth(y: int, m: int, d: int)
    ensures 365 <= DayNumber(y + 1, m, d) - DayNumber(y, m, d) <= 366
  {
    SameDayNextYear(y + m / 12, m % 12, d);
    assert (y + 1) + m / 12 == (y + m / 12) + 1;
  }

  /** Of day `d` of month `m` in the year of a valid date `today` and in the
      year after, the first that is not before `today` lies 0 to 365 days
      ahead of it. */
  lemma NextAnniversary(today: Date, m: int, d: int)
    requires ValidDate(today) && 0 <= m < 12 && 1 <= d <= 31
    ensures var b0, b1, t := DayNumber(today.year, m, d), DayNumber(today.year + 1, m, d), DayNumberOf(today);
      && (b0 < t ==> 0 <= b1 - t <= 365)
      && (b0 >= t ==> b0 - t <= 365)
  {
    var y := today.year;
    DateWithinItsYear(today);
    DayUpTo31WithinYear(y, m, d);
    DayUpTo31WithinYear(y + 1, m, d);
    SameDayNextYear(y, m, d);
    YearStep(y);
  }

  /** Month index -1 is December of the previous year, and a day of at most 31
      in it falls before any valid date of year `today.year`. */
  lemma MonthMinusOne(today: Date, d: int)
    requires ValidDate(today) && 1 <= d <= 31
    ensures DayNumber(today.year, -1, d) == DayNumber(today.year - 1, 11, d) < DayNumberOf(today)
    ensures DayNumber(today.year + 1, -1, d) == DayNumber(today.year, 11, d)
  {
    DayUpTo31WithinYear(today.year - 1, 11, d);
    DateWithinItsYear(today);
  }
}
