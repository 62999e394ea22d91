/**
 queue/schedule.go: when the cron search, which gives up after the eighth year on, gives up on an expression that would
 still come round. The calendar repeats every 400 years, so one such cycle says.
 */
module CronCycle {
  import opened Options
  import opened Calendar
  import opened Cron

  /** The days of 400 years, which are whole weeks. */
  const CYCLE := 146097

  lemma YearsRepeat(year: int)
    ensures YearStart(year + 400) == YearStart(year) + CYCLE && Leap(year + 400) == Leap(year)
  {
    assert (year + 399) / 4 == (year - 1) / 4 + 100;
    assert (year + 399) / 100 == (year - 1) / 100 + 4;
    assert (year + 399) / 400 == (year - 1) / 400 + 1;
  }

  lemma MonthsRepeat(year: int, month: int)
    requires 1 <= month <= 13
    ensures MonthStart(year + 400, month) == MonthStart(year, month) + CYCLE
  {
    YearsRepeat(year);
  }

  lemma WeeksRepeat(day: int)
    ensures Weekday(day + CYCLE) == Weekday(day)
  {
    assert day + CYCLE + 1 == day + 1 + 7 * 20871;
  }

  /** A day is of the same month, day of the month and day of the week one cycle on. */
  lemma DaysRepeat(day: int)
    ensures MonthOf(day + CYCLE) == MonthOf(day) && DayOfMonth(day + CYCLE) == DayOfMonth(day) && Weekday(day + CYCLE) == Weekday(day)
  {
    var year, month := YearOf(day), MonthOf(day);
    MonthsRepeat(year, month);
    MonthsRepeat(year, month + 1);
    MonthIs(year + 400, month, day + CYCLE);
    WeeksRepeat(day);
  }

  lemma DayApart(m: int)
    ensures (m + 1440 * CYCLE) / 1440 == m / 1440 + CYCLE
  {
  }

  lemma HourApart(m: int)
    ensures (m + 1440 * CYCLE) / 60 == m / 60 + 24 * CYCLE && (m + 1440 * CYCLE) % 60 == m % 60
  {
  }

  lemma HourOfDayApart(hour: int)
    ensures (hour + 24 * CYCLE) % 24 == hour % 24
  {
  }

  lemma MatchAlike(c: Expression, m: int, again: int)
    requires MonthOf(again / 1440) == MonthOf(m / 1440) && DayMatches(c, again / 1440) == DayMatches(c, m / 1440)
    requires again / 60 % 24 == m / 60 % 24 && again % 60 == m % 60
    ensures Matches(c, again) <==> Matches(c, m)
  {
  }

  lemma TimesApart(m: int, again: int)
    requires again == m + 1440 * CYCLE
    ensures again / 1440 == m / 1440 + CYCLE && again / 60 % 24 == m / 60 % 24 && again % 60 == m % 60
  {
    DayApart(m);
    HourApart(m);
    HourOfDayApart(m / 60);
  }

  lemma DayMatchesRepeat(c: Expression, day: int, again: int)
    requires again == day + CYCLE
    ensures MonthOf(again) == MonthOf(day) && DayMatches(c, again) == DayMatches(c, day)
  {
    DaysRepeat(day);
  }

  lemma MatchesAgain(c: Expression, m: int, again: int)
    requires again == m + 1440 * CYCLE
    ensures Matches(c, again) <==> Matches(c, m)
  {
    TimesApart(m, again);
    DayMatchesRepeat(c, m / 1440, again / 1440);
    MatchAlike(c, m, again);
  }

  lemma MatchesRepeat(c: Expression, m: int)
    ensures Matches(c, m + 1440 * CYCLE) <==> Matches(c, m)
  {
    MatchesAgain(c, m, m + 1440 * CYCLE);
  }

  lemma NamedRepeat(c: Expression, from: int, until: int)
    ensures NoneIn(c, from + 1440 * CYCLE, until + 1440 * CYCLE) <==> NoneIn(c, from, until)
  {
    var shift := 1440 * CYCLE;
    if NoneIn(c, from + shift, until + shift) {
      forall m | from <= m < until
        ensures !Matches(c, m)
      {
        MatchesRepeat(c, m);
        assert !Matches(c, m + shift);
      }
    }
    if NoneIn(c, from, until) {
      forall m | from + shift <= m < until + shift
        ensures !Matches(c, m)
      {
        MatchesRepeat(c, m - shift);
        assert !Matches(c, m - shift);
      }
    }
  }

  function LastMinute(year: int): int {
    1440 * YearStart(year + 1) - 1
  }

  /** Where a search that starts in a year gives up. */
  function EighthYearEnds(year: int): int {
    1440 * YearStart(year + 9)
  }

  /** No minute is named from the last one of a year to the end of the eighth year on. */
  ghost predicate TooLong(c: Expression, year: int) {
    NoneIn(c, LastMinute(year), EighthYearEnds(year))
  }

  lemma TooLongRepeats(c: Expression, year: int)
    ensures TooLong(c, year + 400) <==> TooLong(c, year)
  {
    YearsRepeat(year + 1);
    YearsRepeat(year + 9);
    NamedRepeat(c, LastMinute(year), EighthYearEnds(year));
  }

  const FIRST := 0
  const LAST := 1440 * CYCLE

  /**
   Of the years 1 through 400, no minute is named at all, or each year has one named from its last minute to the end of the
   eighth year on.
   */
  ghost predicate InTime(c: Expression) {
    NoneIn(c, FIRST, LAST) || forall year :: 1 <= year <= 400 ==> !TooLong(c, year)
  }

  /** What repeats each 400 years, and is so in 400 of them, is always so. */
  lemma {:induction false} ByCycle(p: int -> bool, year: int)
    requires forall y: int :: p(y + 400) == p(y)
    requires forall y :: 1 <= y <= 400 ==> p(y)
    ensures p(year)
    decreases if year < 1 then 1 - year else if year > 400 then year else 0
  {
    if year < 1 {
      ByCycle(p, year + 400);
    } else if year > 400 {
      ByCycle(p, year - 400);
      assert p(year - 400 + 400) == p(year - 400);
    }
  }

  lemma InTimeAlways(c: Expression, year: int)
    requires forall y :: 1 <= y <= 400 ==> !TooLong(c, y)
    ensures !TooLong(c, year)
  {
    ghost var p: int -> bool := y => !TooLong(c, y);
    forall y: int
      ensures p(y + 400) == p(y)
    {
      TooLongRepeats(c, y);
    }
    ByCycle(p, year);
  }

  lemma {:induction false} NeverNamed(c: Expression, m: int)
    requires NoneIn(c, FIRST, LAST)
    ensures NoneIn(c, m, m + 1)
    decreases if m < FIRST then 1 - m else if m >= LAST then m else 0
  {
    if m < FIRST {
      NeverNamed(c, m + LAST);
      NamedRepeat(c, m, m + 1);
    } else if m >= LAST {
      NeverNamed(c, m - LAST);
      NamedRepeat(c, m - LAST, m - LAST + 1);
    }
  }

  /** A search that gives up gives up over all from the last minute of the year it starts in. */
  lemma SearchedTooLong(c: Expression, w: Time)
    requires FirstAfter(c, w, None)
    ensures TooLong(c, YearOf((w / MINUTE + 1) / 1440))
  {
    var from := w / MINUTE + 1;
    var year := YearOf(from / 1440);
    assert from <= LastMinute(year);
  }

  lemma LastMinuteIn(year: int) returns (last: int)
    ensures last == LastMinute(year) && Horizon(last) == EighthYearEnds(year)
  {
    var day := YearStart(year + 1) - 1;
    last := LastMinute(year);
    assert last / 1440 == day;
    YearsInOrder(year, year + 1);
    YearBetween(day, year, year + 1);
  }

  lemma TooLongGivesUp(c: Expression, year: int) returns (w: Time)
    requires TooLong(c, year)
    ensures FirstAfter(c, w, None)
  {
    var last := LastMinuteIn(year);
    w := NoneFrom(c, last);
  }

  /** A search gives up only on an expression that never names a minute. */
  ghost predicate GivesUpRightly(c: Expression) {
    forall w, m :: FirstAfter(c, w, None) ==> !Matches(c, m)
  }

  /**
   From whatever time it starts, a search gives up only on what never comes round, exactly when one cycle of the calendar
   says so: no minute of it is named, or none of its years is followed by eight with nothing named.
   */
  lemma GivesUpRightlyExactly(c: Expression)
    ensures GivesUpRightly(c) <==> InTime(c)
  {
    if InTime(c) {
      forall w, m | FirstAfter(c, w, None)
        ensures !Matches(c, m)
      {
        SearchedTooLong(c, w);
        if NoneIn(c, FIRST, LAST) {
          NeverNamed(c, m);
          assert NoneIn(c, m, m + 1);
        } else {
          InTimeAlways(c, YearOf((w / MINUTE + 1) / 1440));
        }
      }
    }
    if GivesUpRightly(c) {
      forall year | 1 <= year <= 400 && TooLong(c, year)
        ensures NoneIn(c, FIRST, LAST)
      {
        var w := TooLongGivesUp(c, year);
        assert FirstAfter(c, w, None);
      }
    }
  }

  /** So it is when the starred day fields match every value. */
  lemma StarsAreInTime(c: Expression)
    requires StarsMatchAll(c)
    ensures InTime(c)
  {
    forall w, m | FirstAfter(c, w, None)
      ensures !Matches(c, m)
    {
      GivesUpOnlyOnNever(c, w, m);
    }
    GivesUpRightlyExactly(c);
  }
}
