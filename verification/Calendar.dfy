/**
 The Gregorian calendar, as package time has it: days are counted from Monday, 1 January of year 1, and minutes from
 its midnight, both ways.
 */
module Calendar {

  /** The first day of a year. */
  function YearStart(year: int): int {
    365 * (year - 1) + (year - 1) / 4 - (year - 1) / 100 + (year - 1) / 400
  }

  predicate Leap(year: int) {
    year % 4 == 0 && (year % 100 != 0 || year % 400 == 0)
  }

  function YearOf(day: int): (year: int)
    ensures YearStart(year) <= day < YearStart(year + 1)
  {
    var guess := day * 400 / 146097 + 1;
    if day < YearStart(guess) then guess - 1
    else if day >= YearStart(guess + 1) then guess + 1
    else guess
  }

  /** The days of a year before a month, and all of them for the month after December. */
  function DaysBefore(leap: bool, month: int): int
    requires 1 <= month <= 13
  {
    var common := [0, 31, 59, 90, 120, 151, 181, 212, 243, 273, 304, 334, 365][month - 1];
    if leap && month > 2 then common + 1 else common
  }

  /** The first day of a month, where the month after December is the next year's January. */
  function MonthStart(year: int, month: int): int
    requires 1 <= month <= 13
  {
    YearStart(year) + DaysBefore(Leap(year), month)
  }

  lemma Fourths(year: int)
    ensures year / 4 - (year - 1) / 4 == if year % 4 == 0 then 1 else 0
  {
  }

  lemma Hundredths(year: int)
    ensures year / 100 - (year - 1) / 100 == if year % 100 == 0 then 1 else 0
    ensures year % 100 == 0 ==> year % 4 == 0
  {
    assert year % 100 == 0 ==> year == 4 * (25 * (year / 100));
  }

  lemma FourHundredths(year: int)
    ensures year / 400 - (year - 1) / 400 == if year % 400 == 0 then 1 else 0
    ensures year % 400 == 0 ==> year % 100 == 0
  {
    assert year % 400 == 0 ==> year == 100 * (4 * (year / 400));
  }

  lemma YearLength(year: int)
    ensures YearStart(year + 1) - YearStart(year) == if Leap(year) then 366 else 365
  {
    Fourths(year);
    Hundredths(year);
    FourHundredths(year);
  }

  lemma YearIsItsMonths(year: int)
    ensures MonthStart(year, 13) == YearStart(year + 1)
  {
    YearLength(year);
    assert DaysBefore(Leap(year), 13) == if Leap(year) then 366 else 365;
  }

  lemma YearsInOrder(a: int, b: int)
    requires a < b
    ensures YearStart(a + 1) <= YearStart(b)
  {
  }

  function MonthFrom(year: int, day: int, month: int): (m: int)
    requires 1 <= month <= 12 && MonthStart(year, month) <= day < MonthStart(year, 13)
    ensures month <= m <= 12 && MonthStart(year, m) <= day < MonthStart(year, m + 1)
    decreases 13 - month
  {
    if day < MonthStart(year, month + 1) then month else MonthFrom(year, day, month + 1)
  }

  function MonthOf(day: int): (month: int)
    ensures 1 <= month <= 12 && MonthStart(YearOf(day), month) <= day < MonthStart(YearOf(day), month + 1)
  {
    YearIsItsMonths(YearOf(day));
    MonthFrom(YearOf(day), day, 1)
  }

  function DayOfMonth(day: int): int {
    day - MonthStart(YearOf(day), MonthOf(day)) + 1
  }

  /** Sunday is 0. */
  function Weekday(day: int): int {
    (day + 1) % 7
  }

  lemma MonthsInOrder(year: int, a: int, b: int)
    requires 1 <= a < b <= 13
    ensures MonthStart(year, a) < MonthStart(year, b)
  {
  }

  lemma YearIs(year: int, day: int)
    requires YearStart(year) <= day < YearStart(year + 1)
    ensures YearOf(day) == year
  {
    if YearOf(day) < year {
      YearsInOrder(YearOf(day), year);
    } else if YearOf(day) > year {
      YearsInOrder(year, YearOf(day));
    }
  }

  /** Two months of a year that a day is in are one. */
  lemma OneMonth(year: int, a: int, b: int, day: int)
    requires 1 <= a <= b <= 12 && day < MonthStart(year, a + 1) && MonthStart(year, b) <= day
    ensures a == b
  {
    if a + 1 < b {
      MonthsInOrder(year, a + 1, b);
    }
  }

  /** A day lies in one month of one year. */
  lemma MonthIs(year: int, month: int, day: int)
    requires 1 <= month <= 12 && MonthStart(year, month) <= day < MonthStart(year, month + 1)
    ensures YearOf(day) == year && MonthOf(day) == month
  {
    InItsYear(year, month, day);
    YearIs(year, day);
    var found := MonthOf(day);
    if found < month {
      OneMonth(year, found, month, day);
    } else {
      OneMonth(year, month, found, day);
    }
  }

  lemma InItsYear(year: int, month: int, day: int)
    requires 1 <= month <= 12 && MonthStart(year, month) <= day < MonthStart(year, month + 1)
    ensures YearStart(year) <= day < YearStart(year + 1)
  {
    YearIsItsMonths(year);
    if month < 12 {
      MonthsInOrder(year, month + 1, 13);
    }
    if month > 1 {
      MonthsInOrder(year, 1, month);
    }
    assert MonthStart(year, 1) == YearStart(year);
  }

  lemma YearsGrow(a: int, b: int)
    requires a <= b
    ensures YearOf(a) <= YearOf(b)
  {
    if YearOf(b) < YearOf(a) {
      YearsInOrder(YearOf(b), YearOf(a));
    }
  }

  /** One year of any eight in a row is a leap year. */
  lemma LeapWithinEight(year: int) returns (leap: int)
    ensures year < leap <= year + 8 && Leap(leap)
  {
    leap := year + 4 - year % 4;
    if !Leap(leap) {
      leap := leap + 4;
    }
  }

  // What the calendar is, day by day.

  datatype Date = Date(year: int, month: int, day: int)

  function DateOf(day: int): Date {
    Date(YearOf(day), MonthOf(day), DayOfMonth(day))
  }

  /** Thirty days have April, June, September and November, and February has 28, or 29 in a leap year. */
  function DaysIn(year: int, month: int): int {
    if month == 2 then if year % 4 == 0 && (year % 100 != 0 || year % 400 == 0) then 29 else 28
    else if month == 4 || month == 6 || month == 9 || month == 11 then 30
    else 31
  }

  function After(d: Date): Date {
    if d.day < DaysIn(d.year, d.month) then d.(day := d.day + 1)
    else if d.month < 12 then Date(d.year, d.month + 1, 1)
    else Date(d.year + 1, 1, 1)
  }

  lemma MonthLength(year: int, month: int)
    requires 1 <= month <= 12
    ensures MonthStart(year, month + 1) == MonthStart(year, month) + DaysIn(year, month)
  {
  }

  /** A day is so many after the start of a month of a year, and in it. */
  ghost predicate IsDate(day: int, d: Date) {
    1 <= d.month <= 12 && 1 <= d.day <= DaysIn(d.year, d.month) && day == MonthStart(d.year, d.month) + d.day - 1
  }

  lemma HasDate(day: int)
    ensures IsDate(day, DateOf(day))
  {
    MonthLength(YearOf(day), MonthOf(day));
  }

  lemma DateIs(day: int, d: Date)
    requires IsDate(day, d)
    ensures DateOf(day) == d
  {
    MonthLength(d.year, d.month);
    MonthIs(d.year, d.month, day);
  }

  lemma DateAfter(day: int, d: Date)
    requires IsDate(day, d)
    ensures IsDate(day + 1, After(d))
  {
    if d.day == DaysIn(d.year, d.month) {
      MonthLength(d.year, d.month);
      if d.month == 12 {
        YearIsItsMonths(d.year);
      }
    }
  }

  lemma WeekdayAfter(day: int)
    ensures Weekday(day + 1) == (Weekday(day) + 1) % 7
  {
  }

  /** Each day has the date after the one before's, and the day of the week after its. */
  lemma DayAfterDay(day: int)
    ensures DateOf(day + 1) == After(DateOf(day)) && Weekday(day + 1) == (Weekday(day) + 1) % 7
  {
    var d := DateOf(day);
    HasDate(day);
    DateAfter(day, d);
    DateIs(day + 1, After(d));
    WeekdayAfter(day);
  }

  lemma FirstIsDate()
    ensures IsDate(0, Date(1, 1, 1)) && Weekday(0) == 1
  {
    assert YearStart(1) == 0;
  }

  /** And the first is Monday, 1 January of year 1. */
  lemma FirstDay()
    ensures DateOf(0) == Date(1, 1, 1) && Weekday(0) == 1
  {
    FirstIsDate();
    DateIs(0, Date(1, 1, 1));
  }
}
