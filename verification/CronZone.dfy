/**
 queue/schedule.go: cron expressions on the clock of a zone, which goes forward and back. A zone is the instants its
 offset from UTC changes at, and the offsets between them.
 */
module CronZone {
  import opened Options
  import opened Calendar
  import opened Cron

  const DAY: Time := 1440 * MINUTE

  datatype Zone = Zone(changes: seq<Time>, offsets: seq<Time>) {
    ghost predicate Valid() {
      && |offsets| == |changes| + 1
      && (forall i, j :: 0 <= i < j < |changes| ==> changes[i] < changes[j])
      && (forall i :: 0 <= i < |offsets| ==> -DAY < offsets[i] < DAY)
    }

    /** The instant belongs to the i-th stretch of one offset. */
    ghost predicate In(i: nat, x: Time)
      requires Valid()
    {
      i < |offsets| && (i > 0 ==> changes[i - 1] <= x) && (i < |changes| ==> x < changes[i])
    }

    /** No stretch is shorter than the clock goes back at either end of it. */
    ghost predicate Spaced()
      requires Valid()
    {
      forall i :: 0 < i < |changes| ==> SpacedAt(i)
    }

    ghost predicate SpacedAt(i: int)
      requires Valid() && 0 < i < |changes|
    {
      changes[i] - changes[i - 1] >= offsets[i - 1] - offsets[i] && changes[i] - changes[i - 1] >= offsets[i] - offsets[i + 1]
    }

    /** What the clock comes to at the end of the i-th stretch, and where it goes on in the next. */
    function End(i: nat): Time
      requires i < |changes| && |offsets| == |changes| + 1
    {
      changes[i] + offsets[i]
    }

    function Begin(i: nat): Time
      requires 0 < i <= |changes| && |offsets| == |changes| + 1
    {
      changes[i - 1] + offsets[i]
    }
  }

  /** The clock of a zone shows the time w at the instant x. */
  ghost predicate Shows(z: Zone, x: Time, w: Time)
    requires z.Valid()
  {
    exists i: nat :: z.In(i, x) && w == x + z.offsets[i]
  }

  ghost predicate FirstShows(z: Zone, x: Time, w: Time)
    requires z.Valid()
  {
    Shows(z, x, w) && forall y :: y < x ==> !Shows(z, y, w)
  }

  /** The clock goes forward over w at the i-th change. */
  ghost predicate SkipsAt(z: Zone, i: int, w: Time)
    requires z.Valid()
  {
    0 <= i < |z.changes| && z.End(i) <= w < z.Begin(i + 1)
  }

  /** The instant that accounts for the wall-clock time w: where it is first shown, or the change that skips it. */
  ghost predicate Accounts(z: Zone, x: Time, w: Time)
    requires z.Valid()
  {
    FirstShows(z, x, w) || exists i :: SkipsAt(z, i, w) && x == z.changes[i]
  }

  predicate Fixed(c: Expression) {
    !c.minuteStar && !c.hourStar
  }

  /** The times on the clock that the expression names. */
  ghost function Named(c: Expression): iset<Time> {
    iset w: Time | w % MINUTE == 0 && Matches(c, w / MINUTE)
  }

  /**
   What fires of the times named: a fixed time at the instants that account for it, and a time with * whenever the clock
   shows it.
   */
  ghost predicate Fires(named: iset<Time>, fixed: bool, z: Zone, x: Time)
    requires z.Valid()
  {
    exists w :: w in named && if fixed then Accounts(z, x, w) else Shows(z, x, w)
  }

  ghost predicate NoFires(named: iset<Time>, fixed: bool, z: Zone, after: Time, until: Time)
    requires z.Valid()
  {
    forall x :: after < x < until ==> !Fires(named, fixed, z, x)
  }

  /** r is the first instant after after that the expression fires at. */
  ghost predicate FirstFires(c: Expression, z: Zone, after: Time, r: Time)
    requires z.Valid()
  {
    r > after && Fires(Named(c), Fixed(c), z, r) && NoFires(Named(c), Fixed(c), z, after, r)
  }

  // Which stretch shows a time first.

  lemma OneStretch(z: Zone, i: nat, j: nat, x: Time)
    requires z.Valid() && z.In(i, x) && z.In(j, x)
    ensures i == j
  {
  }

  lemma EarlierStretch(z: Zone, i: nat, j: nat, x: Time, y: Time)
    requires z.Valid() && z.In(i, x) && z.In(j, y) && y < x
    ensures j <= i
  {
  }

  /** Where the wall clock ends a stretch never goes back from one stretch to the next. */
  lemma {:induction false} EndsGrow(z: Zone, i: nat, j: nat)
    requires z.Valid() && z.Spaced() && i <= j < |z.changes|
    ensures z.End(i) <= z.End(j)
    decreases j
  {
    if i < j {
      EndsGrow(z, i, j - 1);
      assert z.SpacedAt(j);
    }
  }

  lemma {:induction false} BeginsGrow(z: Zone, i: nat, j: nat)
    requires z.Valid() && z.Spaced() && 0 < i <= j <= |z.changes|
    ensures z.Begin(i) <= z.Begin(j)
    decreases j
  {
    if i < j {
      BeginsGrow(z, i, j - 1);
      assert z.SpacedAt(j - 1);
    }
  }

  /** At any instant the clock shows one time, and a stretch first shows the times from where the one before ended. */
  lemma ShownAt(z: Zone, i: nat, x: Time)
    requires z.Valid() && z.Spaced() && z.In(i, x)
    ensures forall w :: Shows(z, x, w) <==> w == x + z.offsets[i]
    ensures forall w :: FirstShows(z, x, w) <==> w == x + z.offsets[i] && (i > 0 ==> w >= z.End(i - 1))
  {
    forall w
      ensures Shows(z, x, w) <==> w == x + z.offsets[i]
    {
      if Shows(z, x, w) {
        var j: nat :| z.In(j, x) && w == x + z.offsets[j];
        OneStretch(z, i, j, x);
      }
    }
    FirstShownFrom(z, i, x);
  }

  lemma FirstShownFrom(z: Zone, i: nat, x: Time)
    requires z.Valid() && z.Spaced() && z.In(i, x)
    ensures var w := x + z.offsets[i];
      FirstShows(z, x, w) <==> i > 0 ==> w >= z.End(i - 1)
  {
    var w := x + z.offsets[i];
    assert Shows(z, x, w);
    if i > 0 && w < z.End(i - 1) {
      var y := w - z.offsets[i - 1];
      if i > 1 {
        assert z.SpacedAt(i - 1);
      }
      assert z.In(i - 1, y) && Shows(z, y, w);
    } else {
      forall y | y < x
        ensures !Shows(z, y, w)
      {
        if Shows(z, y, w) {
          var j: nat :| z.In(j, y) && w == y + z.offsets[j];
          EarlierStretch(z, i, j, x, y);
          if j < i {
            EndsGrow(z, j, i - 1);
          }
        }
      }
    }
  }

  /** What fires inside a stretch, after its start: the named time it shows, first if it is fixed. */
  lemma FiresInside(named: iset<Time>, fixed: bool, z: Zone, i: nat, x: Time)
    requires z.Valid() && z.Spaced() && z.In(i, x) && (i > 0 ==> z.changes[i - 1] < x)
    ensures var w := x + z.offsets[i];
      Fires(named, fixed, z, x) <==> w in named && (fixed && i > 0 ==> w >= z.End(i - 1))
  {
    ShownAt(z, i, x);
    assert forall k :: 0 <= k < |z.changes| ==> x != z.changes[k];
  }

  /** What fires at a change: a fixed time it skips, or what the clock shows at once, first if that is fixed. */
  lemma FiresAtChange(named: iset<Time>, fixed: bool, z: Zone, i: nat)
    requires z.Valid() && z.Spaced() && 0 < i <= |z.changes|
    ensures var w := z.Begin(i);
      Fires(named, fixed, z, z.changes[i - 1]) <==>
        (w in named && (fixed ==> w >= z.End(i - 1))) ||
        (fixed && exists v :: v in named && z.End(i - 1) <= v < w)
  {
    var x := z.changes[i - 1];
    assert z.In(i, x);
    ShownAt(z, i, x);
    assert forall k :: 0 <= k < |z.changes| && x == z.changes[k] ==> k == i - 1;
    var last: int := i - 1;
    assert forall k, v :: SkipsAt(z, k, v) && x == z.changes[k] ==> k == last;
    forall v | z.End(i - 1) <= v < z.Begin(i)
      ensures Accounts(z, x, v)
    {
      assert SkipsAt(z, last, v);
    }
  }

  lemma FarHorizon(m: int)
    ensures Horizon(m) >= m + 3 * 1440
  {
    var year := YearOf(m / 1440);
    YearLength(year + 1);
    YearsInOrder(year + 1, year + 9);
  }

  /** What a search of the clock says of the times named. */
  lemma SearchSays(c: Expression, w: Time, r: Option<Time>)
    requires FirstAfter(c, w, r)
    ensures r.Some? ==> r.value > w && r.value in Named(c) && forall v :: w < v < r.value ==> v !in Named(c)
    ensures r.None? ==> GivesUpAt(w) > w + 2 * DAY && forall v :: w < v < GivesUpAt(w) ==> v !in Named(c)
  {
    FarHorizon(w / MINUTE + 1);
    forall v | w < v && v % MINUTE == 0 && v < if r.Some? then r.value else GivesUpAt(w)
      ensures v !in Named(c)
    {
      assert v == v / MINUTE * MINUTE && w / MINUTE + 1 <= v / MINUTE;
    }
  }

  /** Where a search of the clock that starts after w gives up. */
  function GivesUpAt(w: Time): Time {
    Horizon(w / MINUTE + 1) * MINUTE
  }

  /** Where the search of a stretch starts, on its clock. */
  function SearchFrom(fixed: bool, z: Zone, i: nat, t: Time, after: Time): Time
    requires z.Valid() && i < |z.offsets|
  {
    var from := t + z.offsets[i] - if t == after then 0 else 1;
    if fixed && i > 0 && z.offsets[i - 1] > z.offsets[i] && z.End(i - 1) - 1 > from then z.End(i - 1) - 1 else from
  }

  /** A fixed time is skipped at the start of the i-th stretch. */
  ghost predicate SkipsNamed(named: iset<Time>, fixed: bool, z: Zone, i: nat)
    requires z.Valid() && 0 < i <= |z.changes|
  {
    fixed && exists v :: v in named && z.End(i - 1) <= v < z.Begin(i)
  }

  /** The search reaches the i-th stretch at t: at after itself, or at the stretch's start, later. */
  ghost predicate Reaches(z: Zone, i: nat, t: Time, after: Time)
    requires z.Valid()
  {
    z.In(i, t) && (t == after || (i > 0 && t == z.changes[i - 1] && t > after))
  }

  /** What fires in a stretch are the times named on its clock from where its search starts. */
  lemma FiresInStretch(named: iset<Time>, fixed: bool, z: Zone, i: nat, t: Time, after: Time, x: Time)
    requires z.Valid() && z.Spaced() && Reaches(z, i, t, after) && z.In(i, x) && x >= t && x > after
    requires t != after ==> !SkipsNamed(named, fixed, z, i)
    ensures Fires(named, fixed, z, x) <==> x + z.offsets[i] in named && x + z.offsets[i] > SearchFrom(fixed, z, i, t, after)
  {
    if i > 0 && x == z.changes[i - 1] {
      FiresAtChange(named, fixed, z, i);
    } else {
      FiresInside(named, fixed, z, i, x);
    }
  }

  method StretchOf(z: Zone, x: Time) returns (i: nat)
    requires z.Valid()
    ensures z.In(i, x)
  {
    i := 0;
    while i < |z.changes| && z.changes[i] <= x
      invariant i <= |z.changes| && (i > 0 ==> z.changes[i - 1] <= x)
    {
      i := i + 1;
    }
  }

  /** Where the search of the stretch at t starts, or the start itself, when a fixed time was skipped there. */
  method StartOfSearch(c: Expression, z: Zone, i: nat, t: Time, after: Time) returns (skipped: bool, from: Time)
    requires z.Valid() && z.Spaced() && Reaches(z, i, t, after)
    ensures skipped ==> t > after && Fires(Named(c), Fixed(c), z, t)
    ensures !skipped ==> from == SearchFrom(Fixed(c), z, i, t, after) && (t != after ==> !SkipsNamed(Named(c), Fixed(c), z, i))
  {
    skipped := false;
    var off := z.offsets[i];
    from := t + off;
    if t != after {
      from := from - 1;
    }
    if Fixed(c) && i > 0 {
      var start, before := z.changes[i - 1], z.offsets[i - 1];
      if before > off {
        var shown := start + before - 1;
        if shown > from {
          from := shown;
        }
      } else if before < off && start > after {
        skipped := SkippedAt(c, z, i);
        if skipped {
          FiresAtChange(Named(c), Fixed(c), z, i);
        }
      }
    }
  }

  /** Whether the clock, going forward where the i-th stretch starts, skips a time named. */
  method SkippedAt(c: Expression, z: Zone, i: nat) returns (skipped: bool)
    requires z.Valid() && 0 < i <= |z.changes| && z.offsets[i - 1] < z.offsets[i]
    ensures skipped <==> exists v :: v in Named(c) && z.End(i - 1) <= v < z.Begin(i)
  {
    var last := z.changes[i - 1] + z.offsets[i - 1] - 1;
    var w := ClockAfter(c, last);
    SearchSays(c, last, w);
    skipped := w.Some? && w.value < z.changes[i - 1] + z.offsets[i];
  }

  /** What the clock's search of a stretch finds there fires first, and when that is past its end, nothing there fires. */
  lemma StretchSearched(named: iset<Time>, fixed: bool, z: Zone, i: nat, t: Time, after: Time, w: Time)
    requires z.Valid() && z.Spaced() && Reaches(z, i, t, after) && (t != after ==> !SkipsNamed(named, fixed, z, i))
    requires NoFires(named, fixed, z, after, t)
    requires var from := SearchFrom(fixed, z, i, t, after);
      w > from && w in named && forall v :: from < v < w ==> v !in named
    ensures var x := w - z.offsets[i];
      if i == |z.changes| || w < z.End(i) then x > after && Fires(named, fixed, z, x) && NoFires(named, fixed, z, after, x)
      else NoFires(named, fixed, z, after, z.changes[i])
  {
    var x := w - z.offsets[i];
    var here := i == |z.changes| || w < z.End(i);
    forall y | after < y < if here then x else z.changes[i]
      ensures !Fires(named, fixed, z, y)
    {
      if y >= t {
        FiresInStretch(named, fixed, z, i, t, after, y);
      }
    }
    if here {
      FiresInStretch(named, fixed, z, i, t, after, x);
    }
  }

  /** Up to where nothing fires when the clock's search of a stretch gives up: the stretch's end, or where the search ended. */
  function SearchedTo(fixed: bool, z: Zone, i: nat, t: Time, after: Time): Time
    requires z.Valid() && i < |z.offsets|
  {
    var end := GivesUpAt(SearchFrom(fixed, z, i, t, after)) - z.offsets[i];
    if i < |z.changes| && z.changes[i] < end then z.changes[i] else end
  }

  /** The search of the i-th stretch, which it reached at t with nothing firing before, gave up. */
  ghost predicate GaveUp(c: Expression, z: Zone, i: nat, t: Time, after: Time)
    requires z.Valid()
  {
    && Reaches(z, i, t, after) && FirstAfter(c, SearchFrom(Fixed(c), z, i, t, after), None)
    && (t != after ==> !SkipsNamed(Named(c), Fixed(c), z, i))
    && NoFires(Named(c), Fixed(c), z, after, SearchedTo(Fixed(c), z, i, t, after))
  }

  lemma NoneToTheEnd(named: iset<Time>, fixed: bool, z: Zone, i: nat, t: Time, after: Time)
    requires z.Valid() && z.Spaced() && Reaches(z, i, t, after) && (t != after ==> !SkipsNamed(named, fixed, z, i))
    requires NoFires(named, fixed, z, after, t)
    requires var from := SearchFrom(fixed, z, i, t, after); forall v :: from < v < GivesUpAt(from) ==> v !in named
    ensures NoFires(named, fixed, z, after, SearchedTo(fixed, z, i, t, after))
  {
    forall x | after < x < SearchedTo(fixed, z, i, t, after)
      ensures !Fires(named, fixed, z, x)
    {
      if x >= t {
        assert z.In(i, x);
        FiresInStretch(named, fixed, z, i, t, after, x);
      }
    }
  }

  lemma GivesUp(c: Expression, z: Zone, i: nat, t: Time, after: Time, from: Time)
    requires z.Valid() && z.Spaced() && Reaches(z, i, t, after) && NoFires(Named(c), Fixed(c), z, after, t)
    requires from == SearchFrom(Fixed(c), z, i, t, after) && (t != after ==> !SkipsNamed(Named(c), Fixed(c), z, i))
    requires FirstAfter(c, from, None)
    ensures GaveUp(c, z, i, t, after)
  {
    SearchSays(c, from, None);
    NoneToTheEnd(Named(c), Fixed(c), z, i, t, after);
  }

  /** The search of a stretch's clock: the first time named on it that fires, or none, as it gave up. */
  method SearchClock(c: Expression, z: Zone, i: nat, t: Time, after: Time, from: Time) returns (w: Option<Time>)
    requires z.Valid() && z.Spaced() && Reaches(z, i, t, after) && NoFires(Named(c), Fixed(c), z, after, t)
    requires from == SearchFrom(Fixed(c), z, i, t, after) && (t != after ==> !SkipsNamed(Named(c), Fixed(c), z, i))
    ensures w.None? ==> GaveUp(c, z, i, t, after)
    ensures w.Some? ==> w.value > from && w.value in Named(c) && forall v :: from < v < w.value ==> v !in Named(c)
  {
    w := ClockAfter(c, from);
    if w.None? {
      GivesUp(c, z, i, t, after, from);
    } else {
      SearchSays(c, from, w);
    }
  }

  /** One stretch of the search: what fires first, if it is in the stretch, or that the clock's search gave up. */
  method SearchStretch(c: Expression, z: Zone, i: nat, t: Time, after: Time) returns (r: Option<Time>, never: bool)
    requires z.Valid() && z.Spaced() && Reaches(z, i, t, after) && NoFires(Named(c), Fixed(c), z, after, t)
    ensures r.Some? ==> FirstFires(c, z, after, r.value)
    ensures r.None? && !never ==> i < |z.changes| && NoFires(Named(c), Fixed(c), z, after, z.changes[i])
    ensures never ==> r.None? && GaveUp(c, z, i, t, after)
  {
    var skipped, from := StartOfSearch(c, z, i, t, after);
    if skipped {
      return Some(t), false;
    }
    r, never := SearchHere(c, z, i, t, after, from);
  }

  method SearchHere(c: Expression, z: Zone, i: nat, t: Time, after: Time, from: Time) returns (r: Option<Time>, never: bool)
    requires z.Valid() && z.Spaced() && Reaches(z, i, t, after) && NoFires(Named(c), Fixed(c), z, after, t)
    requires from == SearchFrom(Fixed(c), z, i, t, after) && (t != after ==> !SkipsNamed(Named(c), Fixed(c), z, i))
    ensures r.Some? ==> FirstFires(c, z, after, r.value)
    ensures r.None? && !never ==> i < |z.changes| && NoFires(Named(c), Fixed(c), z, after, z.changes[i])
    ensures never ==> r.None? && GaveUp(c, z, i, t, after)
  {
    var w := SearchClock(c, z, i, t, after, from);
    if w.None? {
      return None, true;
    }
    StretchSearched(Named(c), Fixed(c), z, i, t, after, w.value);
    if i == |z.changes| || w.value < z.changes[i] + z.offsets[i] {
      return Some(w.value - z.offsets[i]), false;
    }
    r, never := None, false;
  }

  /** What fires first, by the expression's own fields: a field that starts with * has it follow the clock. */
  lemma FirstFiresSays(c: Expression, z: Zone, after: Time, r: Time)
    requires z.Valid() && FirstFires(c, z, after, r)
    ensures c.minuteStar || c.hourStar ==>
              && (exists w :: w in Named(c) && Shows(z, r, w))
              && forall x, w :: after < x < r && Shows(z, x, w) ==> w !in Named(c)
    ensures !c.minuteStar && !c.hourStar ==>
              && (exists w :: w in Named(c) && Accounts(z, r, w))
              && forall x, w :: after < x < r && Accounts(z, x, w) ==> w !in Named(c)
  {
    FiresSays(Named(c), Fixed(c), z, after, r);
  }

  lemma FiresSays(named: iset<Time>, fixed: bool, z: Zone, after: Time, r: Time)
    requires z.Valid() && Fires(named, fixed, z, r) && NoFires(named, fixed, z, after, r)
    ensures if fixed then (exists w :: w in named && Accounts(z, r, w)) else exists w :: w in named && Shows(z, r, w)
    ensures forall x, w :: after < x < r && (if fixed then Accounts(z, x, w) else Shows(z, x, w)) ==> w !in named
  {
    forall x, w | after < x < r && (if fixed then Accounts(z, x, w) else Shows(z, x, w))
      ensures w !in named
    {
      assert !Fires(named, fixed, z, x);
    }
  }

  /** Nothing fires up to where the clock's search of a stretch gave up, or in the 64 stretches searched. */
  ghost predicate GivesUpAfter(c: Expression, z: Zone, after: Time)
    requires z.Valid()
  {
    || (exists i: nat, t :: GaveUp(c, z, i, t, after))
    || exists i: nat :: z.In(i, after) && i + 64 <= |z.changes| && NoFires(Named(c), Fixed(c), z, after, z.changes[i + 63])
  }

  /**
   The first instant after after that the expression fires at. It searches each stretch in turn, and gives up after 64
   of them, or when the clock's search gives up.
   */
  method NextIn(c: Expression, z: Zone, after: Time) returns (r: Option<Time>)
    requires z.Valid() && z.Spaced()
    ensures r.Some? ==> FirstFires(c, z, after, r.value) && r.value > after
    ensures r.Some? && (c.minuteStar || c.hourStar) ==>
              && (exists w :: w in Named(c) && Shows(z, r.value, w))
              && forall x, w :: after < x < r.value && Shows(z, x, w) ==> w !in Named(c)
    ensures r.Some? && !c.minuteStar && !c.hourStar ==>
              && (exists w :: w in Named(c) && Accounts(z, r.value, w))
              && forall x, w :: after < x < r.value && Accounts(z, x, w) ==> w !in Named(c)
    ensures r.None? ==> GivesUpAfter(c, z, after)
  {
    var t := after;
    var i := StretchOf(z, after);
    ghost var first := i;
    for n := 0 to 64
      invariant i == first + n && Reaches(z, i, t, after) && (n > 0 ==> t > after && t == z.changes[i - 1])
      invariant NoFires(Named(c), Fixed(c), z, after, t)
    {
      var found, never := SearchStretch(c, z, i, t, after);
      if found.Some? {
        FirstFiresSays(c, z, after, found.value);
        return found;
      }
      if never {
        return None;
      }
      t, i := z.changes[i], i + 1;
    }
    r := None;
  }

  lemma FromBeforeEnd(fixed: bool, z: Zone, i: nat, t: Time, after: Time)
    requires z.Valid() && z.Spaced() && Reaches(z, i, t, after)
    ensures i < |z.changes| ==> SearchFrom(fixed, z, i, t, after) < z.End(i)
  {
    if 0 < i < |z.changes| {
      EndsGrow(z, i - 1, i);
    }
  }

  /** What accounts for a fixed time in a later stretch accounts for one that the clock has not come to by the end of this. */
  lemma AccountsLater(z: Zone, i: nat, x: Time, w: Time)
    requires z.Valid() && z.Spaced() && i < |z.changes| && x >= z.changes[i] && Accounts(z, x, w)
    ensures w >= z.End(i)
  {
    if FirstShows(z, x, w) {
      var j: nat :| z.In(j, x) && w == x + z.offsets[j];
      EarlierIn(z, i, j, x);
      ShownAt(z, j, x);
      EndsGrow(z, i, j - 1);
    } else {
      var k :| SkipsAt(z, k, w) && x == z.changes[k];
      EndsGrow(z, i, k);
    }
  }

  lemma EarlierIn(z: Zone, i: nat, j: nat, x: Time)
    requires z.Valid() && i < |z.changes| && z.In(j, x) && x >= z.changes[i]
    ensures j > i
  {
  }

  /**
   When the search of a fixed expression gives up, every time it names that is accounted for later is one that the clock
   comes to after the eighth year on, through whatever changes.
   */
  lemma GaveUpOnFixed(c: Expression, z: Zone, i: nat, t: Time, after: Time, x: Time, w: Time)
    requires z.Valid() && z.Spaced() && Fixed(c) && GaveUp(c, z, i, t, after)
    requires w in Named(c) && Accounts(z, x, w) && x > after
    ensures w >= GivesUpAt(SearchFrom(true, z, i, t, after))
  {
    var from := SearchFrom(true, z, i, t, after);
    SearchSays(c, from, None);
    assert Fires(Named(c), true, z, x);
    if i < |z.changes| && x >= z.changes[i] {
      FromBeforeEnd(true, z, i, t, after);
      AccountsLater(z, i, x, w);
    } else {
      assert x >= SearchedTo(true, z, i, t, after);
      InStretchAccounts(z, i, t, after, x, w);
    }
  }

  lemma InStretchAccounts(z: Zone, i: nat, t: Time, after: Time, x: Time, w: Time)
    requires z.Valid() && z.Spaced() && Reaches(z, i, t, after) && Accounts(z, x, w)
    requires x > t && (i < |z.changes| ==> x < z.changes[i])
    ensures w == x + z.offsets[i]
  {
    assert z.In(i, x);
    ShownAt(z, i, x);
    if !FirstShows(z, x, w) {
      assert false;
    }
  }

  lemma ShownOnce(z: Zone, x: Time, i: int, w: Time)
    requires z.Valid() && z.Spaced() && Shows(z, x, w)
    ensures !SkipsAt(z, i, w)
  {
    var j: nat :| z.In(j, x) && w == x + z.offsets[j];
    if 0 <= i < |z.changes| {
      if j <= i {
        EndsGrow(z, j, i);
      } else {
        BeginsGrow(z, i + 1, j);
      }
    }
  }

  lemma SkippedOnce(z: Zone, i: int, k: int, w: Time)
    requires z.Valid() && z.Spaced() && SkipsAt(z, i, w) && SkipsAt(z, k, w)
    ensures i == k
  {
    if i < k {
      EndsGrow(z, i + 1, k);
    } else if k < i {
      EndsGrow(z, k + 1, i);
    }
  }

  /** Every time on the clock is accounted for by one instant: a day that skips it or shows it twice counts it once. */
  lemma AccountedOnce(z: Zone, w: Time)
    requires z.Valid() && z.Spaced()
    ensures exists x :: Accounts(z, x, w) && forall y :: Accounts(z, y, w) ==> y == x
  {
    var i := 0;
    while i < |z.changes| && z.End(i) <= w
      invariant i <= |z.changes| && (i > 0 ==> z.End(i - 1) <= w)
    {
      i := i + 1;
    }
    var x: Time;
    if i == 0 || z.Begin(i) <= w {
      x := w - z.offsets[i];
      assert z.In(i, x);
      FirstShownFrom(z, i, x);
    } else {
      var before: int := i - 1;
      assert SkipsAt(z, before, w);
      x := z.changes[before];
    }
    assert Accounts(z, x, w);
    forall y | Accounts(z, y, w)
      ensures y == x
    {
      AccountsAgree(z, x, y, w);
    }
  }

  lemma AccountsAgree(z: Zone, x: Time, y: Time, w: Time)
    requires z.Valid() && z.Spaced() && Accounts(z, x, w) && Accounts(z, y, w)
    ensures x == y
  {
    if FirstShows(z, x, w) {
      if !FirstShows(z, y, w) {
        var i :| SkipsAt(z, i, w) && y == z.changes[i];
        ShownOnce(z, x, i, w);
      }
    } else {
      var i :| SkipsAt(z, i, w) && x == z.changes[i];
      if FirstShows(z, y, w) {
        ShownOnce(z, y, i, w);
      } else {
        var k :| SkipsAt(z, k, w) && y == z.changes[k];
        SkippedOnce(z, i, k, w);
      }
    }
  }

  ghost predicate FirstIn(fires: iset<Time>, after: Time, r: Time) {
    r > after && r in fires && forall x :: after < x < r ==> x !in fires
  }

  /** Instants each of which is the first of those that fire after the one before it, the first after after. */
  ghost predicate Repeats(fires: iset<Time>, after: Time, runs: seq<Time>)
    decreases |runs|
  {
    runs != [] ==> FirstIn(fires, after, runs[0]) && Repeats(fires, runs[0], runs[1..])
  }

  lemma {:induction false} RepeatsAll(fires: iset<Time>, after: Time, runs: seq<Time>)
    requires Repeats(fires, after, runs)
    ensures forall i, j :: 0 <= i < j < |runs| ==> runs[i] < runs[j]
    ensures forall i :: 0 <= i < |runs| ==> after < runs[i] && runs[i] in fires
    ensures forall x :: runs != [] && after < x <= runs[|runs| - 1] && x in fires ==> x in runs
    decreases |runs|
  {
    if runs != [] {
      RepeatsAll(fires, runs[0], runs[1..]);
      assert runs == [runs[0]] + runs[1..];
    }
  }

  /** The instants the expression fires at. */
  ghost function FiresAt(c: Expression, z: Zone): iset<Time>
    requires z.Valid()
  {
    FiresOf(Named(c), Fixed(c), z)
  }

  ghost function FiresOf(named: iset<Time>, fixed: bool, z: Zone): iset<Time>
    requires z.Valid()
  {
    iset x: Time | Fires(named, fixed, z, x)
  }

  lemma FirstOfThese(named: iset<Time>, fixed: bool, z: Zone, after: Time, r: Time)
    requires z.Valid()
    ensures FirstIn(FiresOf(named, fixed, z), after, r) <==>
            r > after && Fires(named, fixed, z, r) && NoFires(named, fixed, z, after, r)
  {
    assert forall x: Time :: x in FiresOf(named, fixed, z) <==> Fires(named, fixed, z, x);
  }

  /** What NextIn answers is the first of the instants after after. */
  lemma FirstFiresIsFirst(c: Expression, z: Zone, after: Time, r: Time)
    requires z.Valid()
    ensures FirstFires(c, z, after, r) <==> FirstIn(FiresAt(c, z), after, r)
  {
    FirstOfThese(Named(c), Fixed(c), z, after, r);
  }

  /** Repeated Next never goes back, and gives every instant that fires, and no other. */
  lemma NextSkipsNothing(c: Expression, z: Zone, after: Time, runs: seq<Time>)
    requires z.Valid() && Repeats(FiresAt(c, z), after, runs)
    ensures forall i, j :: 0 <= i < j < |runs| ==> runs[i] < runs[j]
    ensures forall x :: runs != [] && after < x <= runs[|runs| - 1] ==> (Fires(Named(c), Fixed(c), z, x) <==> x in runs)
  {
    RepeatsAll(FiresAt(c, z), after, runs);
  }

  /**
   Repeated Next on a fixed expression accounts for every time it names exactly once: of the runs up to the last, one is
   the instant that accounts for it, however the clock goes.
   */
  lemma NamedTimesRunOnce(c: Expression, z: Zone, after: Time, runs: seq<Time>, w: Time, x: Time)
    requires z.Valid() && z.Spaced() && Fixed(c) && Repeats(FiresAt(c, z), after, runs) && runs != []
    requires w in Named(c) && Accounts(z, x, w) && after < x <= runs[|runs| - 1]
    ensures exists i :: 0 <= i < |runs| && Accounts(z, runs[i], w) &&
                        forall j :: 0 <= j < |runs| && Accounts(z, runs[j], w) ==> j == i
  {
    assert Fires(Named(c), Fixed(c), z, x);
    NextSkipsNothing(c, z, after, runs);
    var i :| 0 <= i < |runs| && runs[i] == x;
    forall j | 0 <= j < |runs| && Accounts(z, runs[j], w)
      ensures j == i
    {
      AccountsAgree(z, x, runs[j], w);
    }
  }

  function LastOf(after: Time, runs: seq<Time>): Time {
    if runs == [] then after else runs[|runs| - 1]
  }

  method NextFiring(c: Expression, z: Zone, after: Time) returns (r: Option<Time>)
    requires z.Valid() && z.Spaced()
    ensures r.Some? ==> FirstIn(FiresAt(c, z), after, r.value)
    ensures r.None? ==> GivesUpAfter(c, z, after)
  {
    r := NextIn(c, z, after);
    if r.Some? {
      FirstFiresIsFirst(c, z, after, r.value);
    }
  }

  /** Next, again and again: the times it gives, up to so many, and whether it gave up before that. */
  method NextRuns(c: Expression, z: Zone, after: Time, most: nat) returns (runs: seq<Time>)
    requires z.Valid() && z.Spaced()
    ensures |runs| <= most && Repeats(FiresAt(c, z), after, runs)
    ensures forall i, j :: 0 <= i < j < |runs| ==> after < runs[i] < runs[j]
    ensures c.minuteStar || c.hourStar ==>
              forall x :: after < x <= LastOf(after, runs) ==> (x in runs <==> exists w :: w in Named(c) && Shows(z, x, w))
    ensures !c.minuteStar && !c.hourStar ==>
              && (forall i :: 0 <= i < |runs| ==> exists w :: w in Named(c) && Accounts(z, runs[i], w))
              && forall w, x :: w in Named(c) && Accounts(z, x, w) && after < x <= LastOf(after, runs) ==> RunsOnce(z, runs, w)
    ensures |runs| < most ==> GivesUpAfter(c, z, LastOf(after, runs))
  {
    runs := Repeated(c, z, after, most);
    RunsSay(c, z, after, runs);
  }

  method Repeated(c: Expression, z: Zone, after: Time, most: nat) returns (runs: seq<Time>)
    requires z.Valid() && z.Spaced()
    ensures |runs| <= most && Repeats(FiresAt(c, z), after, runs)
    ensures |runs| < most ==> GivesUpAfter(c, z, LastOf(after, runs))
  {
    ghost var fires := FiresAt(c, z);
    runs := [];
    while |runs| < most
      invariant |runs| <= most && Repeats(fires, after, runs)
    {
      var next := NextFiring(c, z, LastOf(after, runs));
      if next.None? {
        return;
      }
      RepeatsMore(fires, after, runs, next.value);
      runs := runs + [next.value];
    }
  }

  /** Just one of the runs accounts for a time on the clock. */
  ghost predicate RunsOnce(z: Zone, runs: seq<Time>, w: Time)
    requires z.Valid()
  {
    exists i :: 0 <= i < |runs| && Accounts(z, runs[i], w) && forall j :: 0 <= j < |runs| && Accounts(z, runs[j], w) ==> j == i
  }

  /** The runs that repeated Next gives, by the expression's own fields. */
  lemma RunsSay(c: Expression, z: Zone, after: Time, runs: seq<Time>)
    requires z.Valid() && z.Spaced() && Repeats(FiresAt(c, z), after, runs)
    ensures forall i, j :: 0 <= i < j < |runs| ==> after < runs[i] < runs[j]
    ensures c.minuteStar || c.hourStar ==>
              forall x :: after < x <= LastOf(after, runs) ==> (x in runs <==> exists w :: w in Named(c) && Shows(z, x, w))
    ensures !c.minuteStar && !c.hourStar ==>
              && (forall i :: 0 <= i < |runs| ==> exists w :: w in Named(c) && Accounts(z, runs[i], w))
              && forall w, x :: w in Named(c) && Accounts(z, x, w) && after < x <= LastOf(after, runs) ==> RunsOnce(z, runs, w)
  {
    RepeatsAll(FiresAt(c, z), after, runs);
    if c.minuteStar || c.hourStar {
      StarredRuns(Named(c), z, after, runs);
    } else {
      FixedRuns(c, z, after, runs);
    }
  }

  lemma StarredRuns(named: iset<Time>, z: Zone, after: Time, runs: seq<Time>)
    requires z.Valid() && Repeats(FiresOf(named, false, z), after, runs)
    ensures forall x :: after < x <= LastOf(after, runs) ==> (x in runs <==> exists w :: w in named && Shows(z, x, w))
  {
    RepeatsAll(FiresOf(named, false, z), after, runs);
    forall x | after < x <= LastOf(after, runs)
      ensures x in runs <==> exists w :: w in named && Shows(z, x, w)
    {
      assert x in FiresOf(named, false, z) <==> Fires(named, false, z, x);
    }
  }

  lemma FixedRuns(c: Expression, z: Zone, after: Time, runs: seq<Time>)
    requires z.Valid() && z.Spaced() && !c.minuteStar && !c.hourStar && Repeats(FiresAt(c, z), after, runs)
    ensures forall i :: 0 <= i < |runs| ==> exists w :: w in Named(c) && Accounts(z, runs[i], w)
    ensures forall w, x :: w in Named(c) && Accounts(z, x, w) && after < x <= LastOf(after, runs) ==> RunsOnce(z, runs, w)
  {
    RepeatsAll(FiresAt(c, z), after, runs);
    forall i | 0 <= i < |runs|
      ensures exists w :: w in Named(c) && Accounts(z, runs[i], w)
    {
      assert runs[i] in FiresAt(c, z) && Fires(Named(c), true, z, runs[i]);
    }
    forall w, x | w in Named(c) && Accounts(z, x, w) && after < x <= LastOf(after, runs)
      ensures RunsOnce(z, runs, w)
    {
      NamedTimesRunOnce(c, z, after, runs, w, x);
    }
  }

  lemma {:induction false} RepeatsMore(fires: iset<Time>, after: Time, runs: seq<Time>, next: Time)
    requires Repeats(fires, after, runs) && FirstIn(fires, LastOf(after, runs), next)
    ensures Repeats(fires, after, runs + [next])
    decreases |runs|
  {
    if runs == [] {
      assert runs + [next] == [next];
    } else {
      RepeatsMore(fires, runs[0], runs[1..], next);
      assert (runs + [next])[1..] == runs[1..] + [next];
    }
  }
}
