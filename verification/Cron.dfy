/**
 queue/schedule.go: cron expressions on one clock. The clock's times are nanoseconds, and the minutes a search steps
 over are counted from the same zero.
 */
module Cron {
  import opened Options
  import opened Calendar

  type Time = int

  const MINUTE: Time := 60_000_000_000

  /** A parsed expression: the values each field matches, and whether the fields start with *. */
  datatype Expression = Expression(
    minute: set<int>, hour: set<int>, dom: set<int>, month: set<int>, dow: set<int>,
    domStar: bool, dowStar: bool, minuteStar: bool, hourStar: bool)

  /** With both day fields restricted, either will do. */
  predicate DayMatches(c: Expression, day: int) {
    var dom, dow := DayOfMonth(day) in c.dom, Weekday(day) in c.dow;
    if c.domStar || c.dowStar then dom && dow else dom || dow
  }

  /** The expression names the minute. */
  predicate Matches(c: Expression, m: int) {
    MonthOf(m / 1440) in c.month && DayMatches(c, m / 1440) && m / 60 % 24 in c.hour && m % 60 in c.minute
  }

  /** What an expression names of a day, by its date and its day of the week: where neither day field starts with *, either. */
  lemma NamesByDate(c: Expression, day: int, hour: int, minute: int)
    requires 0 <= hour < 24 && 0 <= minute < 60
    ensures var date := DateOf(day);
      Matches(c, 1440 * day + 60 * hour + minute) <==>
        && minute in c.minute && hour in c.hour && date.month in c.month
        && (c.domStar || c.dowStar ==> date.day in c.dom && Weekday(day) in c.dow)
        && (date.day in c.dom || Weekday(day) in c.dow)
  {
    TimeIs(day, hour, minute, 1440 * day + 60 * hour + minute);
  }

  lemma TimeIs(day: int, hour: int, minute: int, m: int)
    requires 0 <= hour < 24 && 0 <= minute < 60 && m == 1440 * day + 60 * hour + minute
    ensures m / 1440 == day && m / 60 % 24 == hour && m % 60 == minute
  {
    TimeOfDay(day, 60 * hour + minute);
  }

  /** No minute from a up to b is named. */
  ghost predicate NoneIn(c: Expression, a: int, b: int) {
    forall m :: a <= m < b ==> !Matches(c, m)
  }

  /** The first minute after the eighth year on from the minute m's, where a search from m gives up. */
  function Horizon(m: int): int {
    1440 * YearStart(YearOf(m / 1440) + 9)
  }

  /** r is the first named minute after w, or none when none is named before the search gives up. */
  ghost predicate FirstAfter(c: Expression, w: Time, r: Option<Time>) {
    var from := w / MINUTE + 1;
    match r
    case Some(t) =>
      var m := t / MINUTE;
      t == m * MINUTE && from <= m < Horizon(from) && Matches(c, m) && NoneIn(c, from, m)
    case None => NoneIn(c, from, Horizon(from))
  }

  lemma SkipsMonth(c: Expression, t: int, next: int)
    requires MonthOf(t / 1440) !in c.month && next == 1440 * MonthStart(YearOf(t / 1440), MonthOf(t / 1440) + 1)
    ensures t < next && NoneIn(c, t, next)
  {
    forall m | t <= m < next
      ensures !Matches(c, m)
    {
      MonthIs(YearOf(t / 1440), MonthOf(t / 1440), m / 1440);
    }
  }

  lemma SkipsDay(c: Expression, t: int)
    requires !DayMatches(c, t / 1440)
    ensures t < 1440 * (t / 1440 + 1) && NoneIn(c, t, 1440 * (t / 1440 + 1))
  {
    forall m | t <= m < 1440 * (t / 1440 + 1)
      ensures !Matches(c, m)
    {
      assert m / 1440 == t / 1440;
    }
  }

  lemma SkipsHour(c: Expression, t: int)
    requires t / 60 % 24 !in c.hour
    ensures t < (t / 60 + 1) * 60 && NoneIn(c, t, (t / 60 + 1) * 60)
  {
    forall m | t <= m < (t / 60 + 1) * 60
      ensures !Matches(c, m)
    {
      assert m / 60 == t / 60;
    }
  }

  lemma BeforeHorizon(from: int, t: int)
    requires from <= t
    ensures YearOf(t / 1440) <= YearOf(from / 1440) + 8 <==> t < Horizon(from)
  {
    var limit := YearOf(from / 1440) + 8;
    if YearOf(t / 1440) < limit {
      YearsInOrder(YearOf(t / 1440), limit + 1);
    } else if YearOf(t / 1440) > limit + 1 {
      YearsInOrder(limit + 1, YearOf(t / 1440));
    }
  }

  lemma WholeMinutes(m: int)
    ensures m * MINUTE / MINUTE == m
  {
  }

  lemma SomeNamed(c: Expression, a: int, b: int)
    requires !NoneIn(c, a, b)
    ensures exists m :: Matches(c, m)
  {
  }

  lemma NoneInBoth(c: Expression, a: int, b: int, d: int)
    requires NoneIn(c, a, b) && NoneIn(c, b, d)
    ensures NoneIn(c, a, d)
  {
  }

  /**
   The search skips a month, a day or an hour that does not match as a whole, and jumps over no match: it returns the
   first minute strictly after w that the expression names, and none only when there is none through the eighth year on.
   */
  method ClockAfter(c: Expression, w: Time) returns (r: Option<Time>)
    ensures FirstAfter(c, w, r)
    ensures r.Some? ==> r.value > w
  {
    var t := w / MINUTE + 1;
    var limit := YearOf(t / 1440) + 8;
    ghost var from := t;
    while YearOf(t / 1440) <= limit
      invariant from <= t && NoneIn(c, from, t)
      decreases Horizon(from) - t
    {
      BeforeHorizon(from, t);
      ghost var was := t;
      if MonthOf(t / 1440) !in c.month {
        t := 1440 * MonthStart(YearOf(t / 1440), MonthOf(t / 1440) + 1);
        SkipsMonth(c, was, t);
      } else if !DayMatches(c, t / 1440) {
        t := 1440 * (t / 1440 + 1);
        SkipsDay(c, was);
      } else if t / 60 % 24 !in c.hour {
        t := (t / 60 + 1) * 60;
        SkipsHour(c, was);
      } else if t % 60 !in c.minute {
        t := t + 1;
      } else {
        WholeMinutes(t);
        return Some(t * MINUTE);
      }
      NoneInBoth(c, from, was, t);
    }
    BeforeHorizon(from, t);
    r := None;
  }

  // A day field that starts with * matches every value, as * does and */2 does not; and some day of the week is named.
  predicate StarsMatchAll(c: Expression) {
    && (c.domStar ==> forall d :: 1 <= d <= 31 ==> d in c.dom)
    && (c.dowStar ==> forall d :: 0 <= d <= 6 ==> d in c.dow)
    && exists d :: 0 <= d <= 6 && d in c.dow
  }

  lemma NextWeekday(first: int, weekday: int) returns (ahead: int)
    requires 0 <= weekday <= 6
    ensures 0 <= ahead <= 6 && Weekday(first + ahead) == weekday
  {
    ahead := (weekday - 1 - first) % 7;
  }

  /** The first day of a month, or one of the six after it, is on the weekday. */
  lemma WeekdayInMonth(year: int, month: int, weekday: int) returns (day: int)
    requires 1 <= month <= 12 && 0 <= weekday <= 6
    ensures YearOf(day) == year && MonthOf(day) == month && Weekday(day) == weekday && 1 <= DayOfMonth(day) <= 7
  {
    var first := MonthStart(year, month);
    var ahead := NextWeekday(first, weekday);
    day := first + ahead;
    assert DaysBefore(Leap(year), month) + 28 <= DaysBefore(Leap(year), month + 1);
    MonthIs(year, month, day);
  }

  /** A day of a month in any year comes in a leap year too. */
  lemma DayInLeapYear(year: int, was: int) returns (day: int)
    requires Leap(year)
    ensures YearOf(day) == year && MonthOf(day) == MonthOf(was) && DayOfMonth(day) == DayOfMonth(was)
  {
    day := MonthStart(year, MonthOf(was)) + DayOfMonth(was) - 1;
    MonthIs(year, MonthOf(was), day);
  }

  /** When some minute is named, some day of the eight years after any year is. */
  lemma DayComesRound(c: Expression, named: int, year: int) returns (day: int)
    requires StarsMatchAll(c) && MonthOf(named) in c.month && DayMatches(c, named)
    ensures year < YearOf(day) <= year + 8 && MonthOf(day) in c.month && DayMatches(c, day)
  {
    if c.dowStar && !c.domStar {
      var leap := LeapWithinEight(year);
      day := DayInLeapYear(leap, named);
    } else {
      var weekday :| 0 <= weekday <= 6 && weekday in c.dow;
      day := WeekdayInMonth(year + 1, MonthOf(named), weekday);
    }
  }

  lemma LaterYearLater(a: int, b: int)
    requires YearOf(a / 1440) < YearOf(b / 1440)
    ensures a < b
  {
    if b <= a {
      YearsGrow(b / 1440, a / 1440);
    }
  }

  lemma SameFields(c: Expression, m: int, again: int)
    requires Matches(c, m) && MonthOf(again / 1440) in c.month && DayMatches(c, again / 1440)
    requires again / 60 % 24 == m / 60 % 24 && again % 60 == m % 60
    ensures Matches(c, again)
  {
  }

  /**
   Eight years are enough: when the starred day fields match every value, a search that gives up means that the
   expression never names a minute, on any date.
   */
  lemma GivesUpOnlyOnNever(c: Expression, w: Time, m: int)
    requires StarsMatchAll(c) && FirstAfter(c, w, None)
    ensures !Matches(c, m)
  {
    if Matches(c, m) {
      var from := w / MINUTE + 1;
      var day := DayComesRound(c, m / 1440, YearOf(from / 1440));
      var again := SameTime(day, m);
      SameFields(c, m, again);
      LaterYearLater(from, again);
      BeforeHorizon(from, again);
    }
  }

  /** Midnight on a 29 February that is a Sunday, named by a field of every seventh day, which starts with *. */
  const LEAP_SUNDAY := Expression({0}, {0}, {29}, {2}, {0}, false, true, false, false)

  lemma LeapDay(day: int)
    requires MonthOf(day) == 2 && DayOfMonth(day) == 29
    ensures Leap(YearOf(day)) && day == YearStart(YearOf(day)) + 59
  {
  }

  lemma YearBetween(day: int, a: int, b: int)
    requires YearStart(a) <= day < YearStart(b)
    ensures a <= YearOf(day) < b
  {
    var year := YearOf(day);
    if year < a {
      YearsInOrder(year, a);
    }
    if year > b {
      YearsInOrder(b, year);
    }
  }

  lemma LeapYears(year: int)
    requires 2005 <= year < 2014 && Leap(year)
    ensures year == 2008 || year == 2012
  {
  }

  /** No 29 February from 2005 through 2013 is a Sunday. */
  lemma NoLeapSunday(day: int)
    requires YearStart(2005) <= day < YearStart(2014) && MonthOf(day) == 2 && DayOfMonth(day) == 29
    ensures Weekday(day) != 0
  {
    LeapDay(day);
    YearBetween(day, 2005, 2014);
    LeapYears(YearOf(day));
  }

  lemma NoneOnDays(c: Expression, first: int, end: int)
    requires forall day :: first <= day < end ==> !(MonthOf(day) in c.month && DayMatches(c, day))
    ensures NoneIn(c, 1440 * first, 1440 * end)
  {
    forall m | 1440 * first <= m < 1440 * end
      ensures !Matches(c, m)
    {
      assert first <= m / 1440 < end;
    }
  }

  lemma HorizonIs(year: int)
    ensures Horizon(1440 * YearStart(year)) == 1440 * YearStart(year + 9)
  {
    var first := YearStart(year);
    assert 1440 * first / 1440 == first;
    YearsInOrder(year, year + 1);
    YearBetween(first, year, year + 1);
  }

  lemma NoneFrom(c: Expression, from: int) returns (w: Time)
    requires NoneIn(c, from, Horizon(from))
    ensures FirstAfter(c, w, None) && w == (from - 1) * MINUTE
  {
    w := (from - 1) * MINUTE;
    WholeMinutes(from - 1);
  }

  lemma MatchesOnce(c: Expression, day: int)
    requires MonthOf(day) in c.month && DayMatches(c, day) && 0 in c.hour && 0 in c.minute
    ensures Matches(c, 1440 * day)
  {
    TimeOfDay(day, 0);
  }

  lemma LeapSundayMatches(day: int)
    ensures MonthOf(day) in LEAP_SUNDAY.month && DayMatches(LEAP_SUNDAY, day) <==>
            MonthOf(day) == 2 && DayOfMonth(day) == 29 && Weekday(day) == 0
  {
  }

  /** It comes round in 2032. */
  lemma LeapSundayComes(day: int)
    requires day == YearStart(2032) + 59
    ensures Matches(LEAP_SUNDAY, 1440 * day)
  {
    assert Leap(2032) && MonthStart(2032, 2) + 28 == day && MonthStart(2032, 3) == day + 1;
    MonthIs(2032, 2, day);
    assert Weekday(day) == 0;
    LeapSundayMatches(day);
    MatchesOnce(LEAP_SUNDAY, day);
  }

  lemma NoLeapSundays() returns (from: int)
    ensures NoneIn(LEAP_SUNDAY, from, Horizon(from)) && from == 1440 * YearStart(2005)
  {
    forall day | YearStart(2005) <= day < YearStart(2014)
      ensures !(MonthOf(day) in LEAP_SUNDAY.month && DayMatches(LEAP_SUNDAY, day))
    {
      LeapSundayMatches(day);
      if MonthOf(day) == 2 && DayOfMonth(day) == 29 {
        NoLeapSunday(day);
      }
    }
    NoneOnDays(LEAP_SUNDAY, YearStart(2005), YearStart(2014));
    HorizonIs(2005);
    from := 1440 * YearStart(2005);
  }

  /** The condition is needed: a search from the start of 2005 gives up on an expression that comes round in 2032. */
  lemma GivesUpTooSoon() returns (w: Time, m: int)
    ensures FirstAfter(LEAP_SUNDAY, w, None)
    ensures w == (1440 * YearStart(2005) - 1) * MINUTE && m == 1440 * (YearStart(2032) + 59) && Matches(LEAP_SUNDAY, m)
  {
    var from := NoLeapSundays();
    w := NoneFrom(LEAP_SUNDAY, from);
    m := 1440 * (YearStart(2032) + 59);
    LeapSundayComes(YearStart(2032) + 59);
  }

  lemma TimeOfDay(day: int, minutes: int)
    requires 0 <= minutes < 1440
    ensures (1440 * day + minutes) / 1440 == day
    ensures (1440 * day + minutes) / 60 == 24 * day + minutes / 60 && (1440 * day + minutes) % 60 == minutes % 60
    ensures (24 * day + minutes / 60) % 24 == minutes / 60
  {
  }

  /** A minute's time of day, on another day. */
  lemma SameTime(day: int, m: int) returns (again: int)
    ensures again / 1440 == day && again / 60 % 24 == m / 60 % 24 && again % 60 == m % 60
  {
    TimeOfDay(m / 1440, m % 1440);
    TimeOfDay(day, m % 1440);
    again := 1440 * day + m % 1440;
  }

  /** Every's next time: the least multiple of d strictly after a time. */
  method NextMultiple(d: Time, after: Time) returns (next: Time)
    requires d > 0
    ensures next > after && next % d == 0 && forall k: int :: after < k * d ==> next <= k * d
  {
    next := after / d * d + d;
    ghost var q := after / d;
    MultipleIs(q + 1, d);
    forall k: int | after < k * d
      ensures next <= k * d
    {
      if k <= q {
        MultiplesInOrder(k, q, d);
      } else {
        MultiplesInOrder(q + 1, k, d);
      }
    }
  }

  lemma MultiplesInOrder(a: int, b: int, d: int)
    requires a <= b && d > 0
    ensures a * d <= b * d
  {
  }

  lemma MultipleIs(k: int, d: int)
    requires d > 0
    ensures k * d % d == 0
  {
    var q, r := k * d / d, k * d % d;
    assert (k - q) * d == r;
    if k > q {
      MultiplesInOrder(1, k - q, d);
    } else if k < q {
      MultiplesInOrder(k - q, -1, d);
    }
  }
}
