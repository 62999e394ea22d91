/**
 queue/schedule.go: reading a cron expression's fields from text. Go's int has 64 bits, and a step near its limit
 overflows it: adding the step to a value then shifts by a negative count, which panics.
 */
module CronParse {
  import opened Options
  import opened Calendar
  import opened Cron

  const MAX_INT := 0x7fff_ffff_ffff_ffff

  datatype Field = Field(min: nat, max: nat, names: seq<string>)

  const MONTHS := ["JAN", "FEB", "MAR", "APR", "MAY", "JUN", "JUL", "AUG", "SEP", "OCT", "NOV", "DEC"]
  const DAYS := ["SUN", "MON", "TUE", "WED", "THU", "FRI", "SAT"]

  const FIELDS: seq<Field> := [Field(0, 59, []), Field(0, 23, []), Field(1, 31, []), Field(1, 12, MONTHS), Field(0, 7, DAYS)]

  /** What reading gives: a value, an error, or a run-time panic. */
  datatype Read<+T> = Ok(value: T) | Bad | Panic

  /** One item of a field's list: from lo to hi, every step-th. */
  datatype Item = Item(lo: nat, hi: nat, step: nat)

  predicate Covers(it: Item, v: int) {
    it.lo <= v <= it.hi && it.step > 0 && (v - it.lo) % it.step == 0
  }

  /** Adding the step to the item's first value passes the largest int. */
  predicate Overflows(it: Item) {
    it.lo + it.step > MAX_INT
  }

  // Text, as package strings and strconv read it.

  function IndexOf(s: string, c: char): (i: nat)
    ensures i <= |s| && (i < |s| ==> s[i] == c) && forall k :: 0 <= k < i ==> s[k] != c
  {
    if s == [] || s[0] == c then 0 else 1 + IndexOf(s[1..], c)
  }

  function Split(s: string, c: char): (parts: seq<string>)
    ensures parts != []
    decreases |s|
  {
    var i := IndexOf(s, c);
    if i == |s| then [s] else [s[..i]] + Split(s[i + 1..], c)
  }

  predicate Digits(s: string) {
    s != [] && forall i :: 0 <= i < |s| ==> '0' <= s[i] <= '9'
  }

  function Number(s: string): nat
    requires forall i :: 0 <= i < |s| ==> '0' <= s[i] <= '9'
  {
    if s == [] then 0 else 10 * Number(s[..|s| - 1]) + (s[|s| - 1] - '0') as nat
  }

  /** A letter without its case: the long s is one more s. */
  function Fold(c: char): char {
    if 'a' <= c <= 'z' then c - 'a' + 'A' else if c == '\U{017F}' then 'S' else c
  }

  predicate EqualFold(a: string, b: string) {
    |a| == |b| && forall i :: 0 <= i < |a| ==> Fold(a[i]) == Fold(b[i])
  }

  /** The place of the first of the names that s is, or how many there are when it is none. */
  function NameIn(names: seq<string>, s: string): (i: nat)
    ensures i <= |names| && (i < |names| ==> EqualFold(s, names[i])) && forall k :: 0 <= k < i ==> !EqualFold(s, names[k])
  {
    if names == [] || EqualFold(s, names[0]) then 0 else 1 + NameIn(names[1..], s)
  }

  /** A value is one of the field's names, or a number in its range. */
  ghost predicate IsValue(f: Field, s: string, v: nat) {
    var i := NameIn(f.names, s);
    if i < |f.names| then v == f.min + i else Digits(s) && v == Number(s) && f.min <= v <= f.max
  }

  method Value(f: Field, s: string) returns (r: Option<nat>)
    requires |f.names| <= f.max - f.min + 1
    ensures r.Some? ==> IsValue(f, s, r.value) && f.min <= r.value <= f.max
    ensures r.None? ==> forall v :: !IsValue(f, s, v)
  {
    var i := 0;
    while i < |f.names|
      invariant i <= |f.names|
      invariant forall k :: 0 <= k < i ==> !EqualFold(s, f.names[k])
    {
      if EqualFold(s, f.names[i]) {
        return Some(f.min + i);
      }
      i := i + 1;
    }
    if Digits(s) && f.min <= Number(s) <= f.max {
      return Some(Number(s));
    }
    r := None;
  }

  /** What a span says: every value, a range, or one value, which with a step goes on to the last. */
  ghost predicate SpanSays(f: Field, span: string, stepped: bool, lo: nat, hi: nat) {
    if span == "*" then lo == f.min && hi == f.max
    else
      var dash := IndexOf(span, '-');
      IsValue(f, span[..dash], lo) &&
      if dash < |span| then IsValue(f, span[dash + 1..], hi) && lo <= hi else hi == if stepped then f.max else lo
  }

  ghost predicate StepSays(step: Option<string>, n: nat) {
    match step
    case None => n == 1
    case Some(s) => Digits(s) && n == Number(s) && 1 <= n <= MAX_INT
  }

  /** An item is a span, and after a slash, its step. */
  function Cut(s: string): (string, Option<string>) {
    var slash := IndexOf(s, '/');
    (s[..slash], if slash < |s| then Some(s[slash + 1..]) else None)
  }

  ghost predicate Says(f: Field, s: string, it: Item) {
    var (span, step) := Cut(s);
    SpanSays(f, span, step.Some?, it.lo, it.hi) && StepSays(step, it.step)
  }

  ghost predicate IsItem(f: Field, s: string) {
    exists it :: Says(f, s, it)
  }

  method ReadSpan(f: Field, span: string, stepped: bool) returns (r: Option<(nat, nat)>)
    requires f.min <= f.max && |f.names| <= f.max - f.min + 1
    ensures r.Some? ==> SpanSays(f, span, stepped, r.value.0, r.value.1) && f.min <= r.value.0 <= r.value.1 <= f.max
    ensures r.None? ==> forall lo, hi :: !SpanSays(f, span, stepped, lo, hi)
  {
    if span == "*" {
      return Some((f.min, f.max));
    }
    var dash := IndexOf(span, '-');
    var from := Value(f, span[..dash]);
    if from.None? {
      return None;
    }
    if dash < |span| {
      var to := Value(f, span[dash + 1..]);
      if to.None? || to.value < from.value {
        return None;
      }
      return Some((from.value, to.value));
    }
    r := Some((from.value, if stepped then f.max else from.value));
  }

  method ReadStep(step: Option<string>) returns (r: Option<nat>)
    ensures r.Some? ==> StepSays(step, r.value) && 1 <= r.value <= MAX_INT
    ensures r.None? ==> forall n :: !StepSays(step, n)
  {
    match step
    case None => r := Some(1);
    case Some(s) =>
      if Digits(s) && 1 <= Number(s) <= MAX_INT {
        r := Some(Number(s));
      } else {
        r := None;
      }
  }

  method ReadItem(f: Field, s: string) returns (r: Option<Item>)
    requires f.min <= f.max && |f.names| <= f.max - f.min + 1
    ensures r.Some? ==> Says(f, s, r.value) && f.min <= r.value.lo <= r.value.hi <= f.max && 1 <= r.value.step <= MAX_INT
    ensures r.None? ==> forall it :: !Says(f, s, it)
  {
    var (span, step) := Cut(s);
    var ends := ReadSpan(f, span, step.Some?);
    var every := ReadStep(step);
    if ends.None? || every.None? {
      return None;
    }
    r := Some(Item(ends.value.0, ends.value.1, every.value));
  }

  /** A 64-bit sum, which wraps. */
  function Plus(a: int, b: int): int {
    if a + b > MAX_INT then a + b - 0x1_0000_0000_0000_0000 else a + b
  }

  /** Sets the bits of one item: all it covers, or a panic as the next value overflows and is shifted by. */
  method SetBits(it: Item, was: set<int>) returns (r: Read<set<int>>)
    requires it.lo <= it.hi <= 63 && 1 <= it.step <= MAX_INT
    ensures r == Panic <==> Overflows(it)
    ensures r.Ok? ==> forall v :: v in r.value <==> v in was || Covers(it, v)
    ensures !r.Bad?
  {
    var bits, v := was, it.lo;
    ghost var n := 0;
    while v <= it.hi
      invariant v == it.lo + n * it.step && v <= it.hi + it.step && (n > 0 ==> !Overflows(it))
      invariant forall b :: b in bits <==> b in was || (Covers(it, b) && b < v)
      decreases it.hi + it.step - v
    {
      CoversAt(it, n);
      bits := bits + {v};
      var next := Plus(v, it.step);
      if next < 0 {
        assert Overflows(it) by { OneStepOnly(it, n); }
        return Panic;
      }
      StepsBetween(it, n);
      v, n := next, n + 1;
    }
    r := Ok(bits);
  }

  lemma CoversAt(it: Item, n: nat)
    requires it.step > 0 && it.lo + n * it.step <= it.hi
    ensures Covers(it, it.lo + n * it.step)
  {
    MultipleIs(n, it.step);
  }

  /** Past 63 the values overflow only at the first step. */
  lemma OneStepOnly(it: Item, n: nat)
    requires it.lo + n * it.step <= it.hi <= 63 && it.lo + n * it.step + it.step > MAX_INT
    ensures Overflows(it)
  {
    if n > 0 {
      MultiplesInOrder(1, n, it.step);
    }
  }

  lemma StepsBetween(it: Item, n: nat)
    requires it.step > 0
    ensures forall b :: Covers(it, b) && it.lo + n * it.step < b ==> b >= it.lo + (n + 1) * it.step
    ensures (n + 1) * it.step == n * it.step + it.step
  {
    forall b | Covers(it, b) && it.lo + n * it.step < b
      ensures b >= it.lo + (n + 1) * it.step
    {
      var q := (b - it.lo) / it.step;
      assert b - it.lo == q * it.step;
      if q <= n {
        MultiplesInOrder(q, n, it.step);
      } else {
        MultiplesInOrder(n + 1, q, it.step);
      }
    }
  }

  method AddItem(f: Field, s: string, was: set<int>) returns (r: Read<set<int>>, ghost it: Item)
    requires f.min <= f.max <= 63 && |f.names| <= f.max - f.min + 1
    ensures r.Bad? ==> !IsItem(f, s)
    ensures !r.Bad? ==> Says(f, s, it)
    ensures r.Panic? <==> !r.Bad? && Overflows(it)
    ensures r.Ok? ==> forall v :: v in r.value <==> v in was || Covers(it, v)
  {
    var item := ReadItem(f, s);
    if item.None? {
      return Bad, Item(0, 0, 0);
    }
    it := item.value;
    r := SetBits(item.value, was);
  }

  ghost predicate SomeCovers(items: seq<Item>, v: int) {
    exists i :: 0 <= i < |items| && Covers(items[i], v)
  }

  lemma CoversMore(items: seq<Item>, it: Item, was: set<int>, now: set<int>)
    requires CoveredBy(items, was)
    requires forall v :: v in now <==> v in was || Covers(it, v)
    ensures CoveredBy(items + [it], now)
  {
    forall v
      ensures v in now <==> SomeCovers(items + [it], v)
    {
      if SomeCovers(items, v) {
        var i :| 0 <= i < |items| && Covers(items[i], v);
        assert Covers((items + [it])[i], v);
      }
      assert (items + [it])[|items|] == it;
    }
  }

  /** The first items of a list are read as these, with no step that overflows. */
  ghost predicate ReadSoFar(f: Field, parts: seq<string>, items: seq<Item>) {
    |items| <= |parts| && forall i :: 0 <= i < |items| ==> Says(f, parts[i], items[i]) && !Overflows(items[i])
  }

  ghost predicate CoveredBy(items: seq<Item>, values: set<int>) {
    forall v :: v in values <==> SomeCovers(items, v)
  }

  /** What is after the items that were read: nothing, one that is no item, or one whose step overflows. */
  ghost predicate EndsAs(f: Field, parts: seq<string>, items: seq<Item>, r: Read<set<int>>)
    requires |items| <= |parts|
  {
    match r
    case Ok(values) => |items| == |parts| && CoveredBy(items, values)
    case Bad => |items| < |parts| && !IsItem(f, parts[|items|])
    case Panic => |items| < |parts| && exists it :: Says(f, parts[|items|], it) && Overflows(it)
  }

  /**
   What reading a field gives: all that its items cover, or an error at the first that is no item, or a panic at the
   first whose step overflows, whichever comes first.
   */
  ghost predicate Reads(f: Field, s: string, r: Read<set<int>>) {
    exists items :: ReadSoFar(f, Split(s, ','), items) && EndsAs(f, Split(s, ','), items, r)
  }

  lemma SaysOnce(f: Field, s: string, a: Item, b: Item)
    requires Says(f, s, a) && Says(f, s, b)
    ensures a == b
  {
  }

  lemma SameItems(f: Field, parts: seq<string>, a: seq<Item>, b: seq<Item>)
    requires ReadSoFar(f, parts, a) && ReadSoFar(f, parts, b) && |a| <= |b|
    ensures a == b[..|a|]
  {
    forall i | 0 <= i < |a|
      ensures a[i] == b[i]
    {
      SaysOnce(f, parts[i], a[i], b[i]);
    }
  }

  /** What stops at an item is not read past it. */
  lemma EndsThere(f: Field, parts: seq<string>, a: seq<Item>, r: Read<set<int>>, b: seq<Item>)
    requires ReadSoFar(f, parts, a) && EndsAs(f, parts, a, r) && ReadSoFar(f, parts, b)
    ensures |b| <= |a|
  {
    var n := |a|;
    if n < |b| {
      assert Says(f, parts[n], b[n]) && !Overflows(b[n]);
      if r.Panic? {
        var it :| Says(f, parts[n], it) && Overflows(it);
        SaysOnce(f, parts[n], it, b[n]);
      }
    }
  }

  /** A field is read in one way. */
  lemma ReadsOnce(f: Field, s: string, q: Read<set<int>>, r: Read<set<int>>)
    requires Reads(f, s, q) && Reads(f, s, r)
    ensures q == r
  {
    var parts := Split(s, ',');
    var a :| ReadSoFar(f, parts, a) && EndsAs(f, parts, a, q);
    var b :| ReadSoFar(f, parts, b) && EndsAs(f, parts, b, r);
    EndsThere(f, parts, a, q, b);
    EndsThere(f, parts, b, r, a);
    SameItems(f, parts, a, b);
    assert a == b;
    if q.Ok? && r.Ok? {
      forall v
        ensures v in q.value <==> v in r.value
      {
        assert v in q.value <==> SomeCovers(a, v);
        assert v in r.value <==> SomeCovers(b, v);
      }
      assert q.value == r.value;
    } else if |a| < |parts| && (q.Panic? || r.Panic?) {
      assert IsItem(f, parts[|a|]);
    }
  }

  lemma SaysInRange(f: Field, s: string, it: Item)
    requires Says(f, s, it) && f.min <= f.max && |f.names| <= f.max - f.min + 1
    ensures f.min <= it.lo <= it.hi <= f.max && it.step > 0 && Covers(it, it.lo)
  {
    var (span, step) := Cut(s);
    assert SpanSays(f, span, step.Some?, it.lo, it.hi) && StepSays(step, it.step);
  }

  /** A field that is read matches some value, and none out of its range. */
  lemma ReadInRange(f: Field, s: string, values: set<int>)
    requires Reads(f, s, Ok(values)) && f.min <= f.max && |f.names| <= f.max - f.min + 1
    ensures (exists v :: v in values) && forall v :: v in values ==> f.min <= v <= f.max
  {
    var parts := Split(s, ',');
    var items: seq<Item> :| ReadSoFar(f, parts, items) && EndsAs(f, parts, items, Ok(values));
    SaysInRange(f, parts[0], items[0]);
    assert SomeCovers(items, items[0].lo);
    assert items[0].lo in values;
    forall v | v in values
      ensures f.min <= v <= f.max
    {
      assert SomeCovers(items, v);
      var i :| 0 <= i < |items| && Covers(items[i], v);
      SaysInRange(f, parts[i], items[i]);
    }
  }

  lemma OneMoreRead(f: Field, parts: seq<string>, items: seq<Item>, it: Item)
    requires ReadSoFar(f, parts, items) && |items| < |parts| && Says(f, parts[|items|], it) && !Overflows(it)
    ensures ReadSoFar(f, parts, items + [it])
  {
  }

  /** Reads one field: a list of items, whose values it collects. */
  method ReadField(f: Field, s: string) returns (r: Read<set<int>>)
    requires f.min <= f.max <= 63 && |f.names| <= f.max - f.min + 1
    ensures Reads(f, s, r)
  {
    var parts := Split(s, ',');
    var bits: set<int> := {};
    ghost var items: seq<Item> := [];
    for i := 0 to |parts|
      invariant |items| == i && ReadSoFar(f, parts, items)
      invariant CoveredBy(items, bits)
    {
      var more, it := AddItem(f, parts[i], bits);
      if !more.Ok? {
        assert EndsAs(f, parts, items, more);
        return more;
      }
      OneMoreRead(f, parts, items, it);
      CoversMore(items, it, bits, more.value);
      bits, items := more.value, items + [it];
    }
    r := Ok(bits);
    assert EndsAs(f, parts, items, r);
  }

  predicate Starred(s: string) {
    s != [] && s[0] == '*'
  }

  /** Day 7 is Sunday too. */
  function Sundays(dow: set<int>): set<int> {
    if 7 in dow then dow - {7} + {0} else dow
  }

  /** The expression that five fields say, each read as the values it matches: 7 is Sunday too. */
  ghost predicate Expresses(parts: seq<string>, sets: seq<set<int>>, c: Expression)
    requires |parts| == |sets| == 5
  {
    && c.minute == sets[0] && c.hour == sets[1] && c.dom == sets[2] && c.month == sets[3]
    && (forall d :: d in c.dow <==> d != 7 && (d in sets[4] || (d == 0 && 7 in sets[4])))
    && c.minuteStar == ("*" <= parts[0]) && c.hourStar == ("*" <= parts[1])
    && c.domStar == ("*" <= parts[2]) && c.dowStar == ("*" <= parts[4])
  }

  /** The first fields are read, as these sets. */
  ghost predicate FieldsRead(parts: seq<string>, sets: seq<set<int>>) {
    |sets| <= |parts| == 5 && forall i :: 0 <= i < |sets| ==> Reads(FIELDS[i], parts[i], Ok(sets[i]))
  }

  /** No minute from the start of 2024 on is named before the search gives up. */
  ghost predicate NeverComesRound(c: Expression) {
    FirstAfter(c, 1440 * YearStart(2024) * MINUTE, None)
  }

  /** What reading five fields gives, when the first of them are read as these sets. */
  ghost predicate CronEndsAs(parts: seq<string>, sets: seq<set<int>>, r: Read<Expression>)
    requires FieldsRead(parts, sets)
  {
    var n := |sets|;
    match r
    case Ok(c) => n == 5 && Expresses(parts, sets, c) && !NeverComesRound(c)
    case Bad => if n == 5 then exists c :: Expresses(parts, sets, c) && NeverComesRound(c) else Reads(FIELDS[n], parts[n], Bad)
    case Panic => n < 5 && Reads(FIELDS[n], parts[n], Panic)
  }

  /**
   What an expression says: it is refused, or panics, as the first field that is not read is, and is refused when it does
   not come round in the years from 2024.
   */
  ghost predicate CronReads(parts: seq<string>, r: Read<Expression>) {
    exists sets :: FieldsRead(parts, sets) && CronEndsAs(parts, sets, r)
  }

  lemma CronEndsThere(parts: seq<string>, a: seq<set<int>>, r: Read<Expression>, b: seq<set<int>>)
    requires FieldsRead(parts, a) && CronEndsAs(parts, a, r) && FieldsRead(parts, b)
    ensures |b| <= |a|
  {
    var n := |a|;
    if n < |b| {
      ReadsOnce(FIELDS[n], parts[n], Ok(b[n]), if r.Panic? then Panic else Bad);
    }
  }

  lemma SameSets(parts: seq<string>, a: seq<set<int>>, b: seq<set<int>>)
    requires FieldsRead(parts, a) && FieldsRead(parts, b) && |a| == |b|
    ensures a == b
  {
    forall i | 0 <= i < |a|
      ensures a[i] == b[i]
    {
      ReadsOnce(FIELDS[i], parts[i], Ok(a[i]), Ok(b[i]));
    }
  }

  lemma ExpressedOnce(parts: seq<string>, sets: seq<set<int>>, c: Expression, d: Expression)
    requires |parts| == |sets| == 5 && Expresses(parts, sets, c) && Expresses(parts, sets, d)
    ensures c == d
  {
    forall day
      ensures day in c.dow <==> day in d.dow
    {
      assert day in c.dow <==> day != 7 && (day in sets[4] || (day == 0 && 7 in sets[4]));
    }
    assert c.dow == d.dow;
  }

  lemma CronEndsOnce(parts: seq<string>, sets: seq<set<int>>, q: Read<Expression>, r: Read<Expression>)
    requires FieldsRead(parts, sets) && CronEndsAs(parts, sets, q) && CronEndsAs(parts, sets, r)
    ensures q == r
  {
    if |sets| < 5 {
      if q != r {
        ReadsOnce(FIELDS[|sets|], parts[|sets|], Bad, Panic);
      }
    } else {
      forall c, d | Expresses(parts, sets, c) && Expresses(parts, sets, d)
        ensures c == d
      {
        ExpressedOnce(parts, sets, c, d);
      }
    }
  }

  /** An expression is read in one way. */
  lemma CronReadsOnce(parts: seq<string>, q: Read<Expression>, r: Read<Expression>)
    requires CronReads(parts, q) && CronReads(parts, r)
    ensures q == r
  {
    var a :| FieldsRead(parts, a) && CronEndsAs(parts, a, q);
    var b :| FieldsRead(parts, b) && CronEndsAs(parts, b, r);
    CronEndsThere(parts, a, q, b);
    CronEndsThere(parts, b, r, a);
    SameSets(parts, a, b);
    CronEndsOnce(parts, a, q, r);
  }

  method ReadFields(parts: seq<string>) returns (sets: seq<set<int>>, stop: Option<Read<set<int>>>)
    requires |parts| == 5
    ensures FieldsRead(parts, sets)
    ensures stop.None? ==> |sets| == 5
    ensures stop.Some? ==> |sets| < 5 && !stop.value.Ok? && Reads(FIELDS[|sets|], parts[|sets|], stop.value)
  {
    sets := [];
    for i := 0 to 5
      invariant |sets| == i && FieldsRead(parts, sets)
    {
      var bits := ReadField(FIELDS[i], parts[i]);
      if !bits.Ok? {
        return sets, Some(bits);
      }
      sets := sets + [bits.value];
      assert sets[i] == bits.value;
    }
    stop := None;
  }

  /** Reads an expression's five fields, and refuses one that does not come round in the years from 2024. */
  method ReadCron(parts: seq<string>) returns (r: Read<Expression>)
    requires |parts| == 5
    ensures CronReads(parts, r)
  {
    var sets, stop := ReadFields(parts);
    if stop.Some? {
      r := if stop.value.Panic? then Panic else Bad;
      assert CronEndsAs(parts, sets, r);
      return;
    }
    var c := Expression(sets[0], sets[1], sets[2], sets[3], Sundays(sets[4]),
                        Starred(parts[2]), Starred(parts[4]), Starred(parts[0]), Starred(parts[1]));
    assert Expresses(parts, sets, c);
    var next := ClockAfter(c, 1440 * YearStart(2024) * MINUTE);
    r := if next.None? then Bad else Ok(c);
    assert CronEndsAs(parts, sets, r) by {
      if next.Some? && NeverComesRound(c) {
        FirstOnce(c, 1440 * YearStart(2024) * MINUTE, next);
      }
    }
  }

  lemma FirstOnce(c: Expression, w: Time, r: Option<Time>)
    requires FirstAfter(c, w, r) && FirstAfter(c, w, None)
    ensures r.None?
  {
  }

  lemma SomeDayNamed(parts: seq<string>, sets: seq<set<int>>, c: Expression)
    requires FieldsRead(parts, sets) && |sets| == 5 && Expresses(parts, sets, c)
    ensures exists d :: 0 <= d <= 6 && d in c.dow
  {
    ReadInRange(FIELDS[4], parts[4], sets[4]);
    var named :| named in sets[4];
    assert (if named == 7 then 0 else named) in c.dow;
  }

  lemma ComesRound(c: Expression, w: Time)
    requires !FirstAfter(c, w, None)
    ensures exists m :: Matches(c, m)
  {
    SomeNamed(c, w / MINUTE + 1, Horizon(w / MINUTE + 1));
  }

  lemma AcceptedNames(parts: seq<string>, c: Expression)
    requires CronReads(parts, Ok(c))
    ensures exists d :: 0 <= d <= 6 && d in c.dow
    ensures exists m :: Matches(c, m)
  {
    var sets :| FieldsRead(parts, sets) && CronEndsAs(parts, sets, Ok(c));
    SomeDayNamed(parts, sets, c);
    ComesRound(c, 1440 * YearStart(2024) * MINUTE);
  }

  /** An accepted expression whose starred day fields match every value comes round after any time. */
  lemma AcceptedComesRound(parts: seq<string>, c: Expression, w: Time)
    requires CronReads(parts, Ok(c))
    requires (c.domStar ==> forall d :: 1 <= d <= 31 ==> d in c.dom) && (c.dowStar ==> forall d :: 0 <= d <= 6 ==> d in c.dow)
    ensures !FirstAfter(c, w, None)
  {
    AcceptedNames(parts, c);
    var m :| Matches(c, m);
    if FirstAfter(c, w, None) {
      GivesUpOnlyOnNever(c, w, m);
    }
  }

  // The text of an expression.

  /** What package unicode takes for white space. */
  predicate IsSpace(c: char) {
    || '\t' <= c <= '\r' || c == ' ' || c == '\U{0085}' || c == '\U{00A0}' || c == '\U{1680}'
    || '\U{2000}' <= c <= '\U{200A}' || c == '\U{2028}' || c == '\U{2029}' || c == '\U{202F}' || c == '\U{205F}' || c == '\U{3000}'
  }

  function WordEnd(s: string): (n: nat)
    ensures n <= |s| && (forall k :: 0 <= k < n ==> !IsSpace(s[k])) && (n < |s| ==> IsSpace(s[n]))
  {
    if s == [] || IsSpace(s[0]) then 0 else 1 + WordEnd(s[1..])
  }

  /** strings.Fields: what is between the spaces. */
  function Words(s: string): (ws: seq<string>)
    ensures forall i :: 0 <= i < |ws| ==> IsWord(ws[i])
    decreases |s|
  {
    if s == [] then []
    else if IsSpace(s[0]) then Words(s[1..])
    else
      var n := WordEnd(s);
      [s[..n]] + Words(s[n..])
  }

  predicate IsWord(w: string) {
    w != [] && forall k :: 0 <= k < |w| ==> !IsSpace(w[k])
  }

  function Spaced(ws: seq<string>): string {
    if ws == [] then "" else ws[0] + " " + Spaced(ws[1..])
  }

  /** The fields of a text are the words it was made of. */
  lemma {:induction false} WordsOfSpaced(ws: seq<string>)
    requires forall i :: 0 <= i < |ws| ==> IsWord(ws[i])
    ensures Words(Spaced(ws)) == ws
    decreases |ws|
  {
    if ws != [] {
      var s, w := Spaced(ws), ws[0];
      assert s[..|w|] == w && s[|w|..] == " " + Spaced(ws[1..]) && s[|w|..][1..] == Spaced(ws[1..]);
      assert forall k :: 0 <= k < |w| ==> s[k] == w[k];
      assert s[|w|] == ' ' && WordEnd(s) == |w|;
      assert Words(s[|w|..]) == Words(Spaced(ws[1..]));
      WordsOfSpaced(ws[1..]);
    }
  }

  function Trimmed(s: string): string
    decreases |s|
  {
    if s != [] && IsSpace(s[0]) then Trimmed(s[1..])
    else if s != [] && IsSpace(s[|s| - 1]) then Trimmed(s[..|s| - 1])
    else s
  }

  /** strings.ToLower, of what it makes letters that the names below have: the Kelvin sign is a k, and a dotted I an i. */
  function Lower(s: string): string {
    seq(|s|, i requires 0 <= i < |s| =>
      if 'A' <= s[i] <= 'Z' then s[i] - 'A' + 'a'
      else if s[i] == '\U{212A}' then 'k' else if s[i] == '\U{0130}' then 'i' else s[i])
  }

  const MACROS: map<string, string> := map[
    "@yearly" := "0 0 1 1 *", "@annually" := "0 0 1 1 *", "@monthly" := "0 0 1 * *", "@weekly" := "0 0 * * 0",
    "@daily" := "0 0 * * *", "@midnight" := "0 0 * * *", "@hourly" := "0 * * * *"]

  /** What an expression's text stands for. */
  function Expanded(s: string): string {
    var t := Trimmed(s);
    if Lower(t) in MACROS then MACROS[Lower(t)] else t
  }

  /** Reads an expression: five fields between spaces, or a name for them, and anything else is refused. */
  method ParseCron(expr: string) returns (r: Read<Expression>)
    ensures var parts := Words(Expanded(expr));
      if |parts| == 5 then CronReads(parts, r) else r == Bad
  {
    var text := Trimmed(expr);
    if Lower(text) in MACROS {
      text := MACROS[Lower(text)];
    }
    var parts := Words(text);
    if |parts| != 5 {
      return Bad;
    }
    r := ReadCron(parts);
  }

  lemma {:induction false} TrimmedSame(s: string)
    ensures Words(Trimmed(s)) == Words(s)
    decreases |s|
  {
    if s != [] && IsSpace(s[0]) {
      TrimmedSame(s[1..]);
    } else if s != [] && IsSpace(s[|s| - 1]) {
      TrimmedSame(s[..|s| - 1]);
      SpaceAfter(s[..|s| - 1], s[|s| - 1]);
      assert s == s[..|s| - 1] + [s[|s| - 1]];
    }
  }

  lemma {:induction false} SpaceAfter(s: string, c: char)
    requires IsSpace(c)
    ensures Words(s + [c]) == Words(s)
    decreases |s|
  {
    if s == [] {
      assert s + [c] == [c] && Words([c][1..]) == [];
    } else if IsSpace(s[0]) {
      SpaceAfter(s[1..], c);
      assert (s + [c])[1..] == s[1..] + [c];
    } else {
      var n := WordEnd(s);
      assert forall k :: 0 <= k < n ==> (s + [c])[k] == s[k];
      assert IsSpace((s + [c])[n]) && WordEnd(s + [c]) == n;
      assert (s + [c])[..n] == s[..n] && (s + [c])[n..] == s[n..] + [c];
      SpaceAfter(s[n..], c);
    }
  }

  /** Fields between spaces, with spaces around them, are read as the fields, when they are not a name for others. */
  lemma FieldsBetweenSpaces(expr: string)
    requires Lower(Trimmed(expr)) !in MACROS
    ensures Words(Expanded(expr)) == Words(expr)
  {
    TrimmedSame(expr);
  }

  // A step that overflows.

  /** A number's digits. */
  function TextOf(n: nat): (s: string)
    ensures Digits(s)
  {
    if n < 10 then [n as char + '0'] else TextOf(n / 10) + [(n % 10) as char + '0']
  }

  lemma {:induction false} NumberOfText(n: nat)
    ensures Number(TextOf(n)) == n
    decreases n
  {
    if n >= 10 {
      NumberOfText(n / 10);
      assert TextOf(n)[..|TextOf(n)| - 1] == TextOf(n / 10);
    }
  }

  lemma IndexIs(s: string, c: char, i: nat)
    requires i <= |s| && (forall k :: 0 <= k < i ==> s[k] != c) && (i < |s| ==> s[i] == c)
    ensures IndexOf(s, c) == i
  {
  }

  lemma SaysStep(f: Field, lo: nat, n: nat) returns (s: string)
    requires f.names == [] && f.min <= lo <= f.max && 1 <= n <= MAX_INT
    ensures s == TextOf(lo) + "/" + TextOf(n) && Split(s, ',') == [s] && Says(f, s, Item(lo, f.max, n))
  {
    var span, step := TextOf(lo), TextOf(n);
    s := span + "/" + step;
    IndexIs(s, ',', |s|);
    IndexIs(s, '/', |span|);
    assert s[..|span|] == span && s[|span| + 1..] == step;
    IndexIs(span, '-', |span|);
    assert span[..|span|] == span && span[0] != '*';
    NumberOfText(lo);
    NumberOfText(n);
  }

  /** A value with a step, as in 1/9223372036854775807, panics exactly when their sum is past the largest integer. */
  lemma StepPanicsExactly(f: Field, lo: nat, n: nat)
    requires f.names == [] && f.min <= lo <= f.max && 1 <= n <= MAX_INT
    ensures Reads(f, TextOf(lo) + "/" + TextOf(n), Panic) <==> lo + n > MAX_INT
  {
    var s := SaysStep(f, lo, n);
    var it := Item(lo, f.max, n);
    if Overflows(it) {
      assert ReadSoFar(f, [s], []) && EndsAs(f, [s], [], Panic);
    }
    if Reads(f, s, Panic) {
      var items: seq<Item> :| ReadSoFar(f, [s], items) && EndsAs(f, [s], items, Panic);
      var last :| Says(f, s, last) && Overflows(last);
      SaysOnce(f, s, last, it);
    }
  }

  /** Such a step is one that a minute field takes. */
  lemma MinuteStepPanics()
    ensures Reads(FIELDS[0], TextOf(1) + "/" + TextOf(MAX_INT), Panic)
  {
    StepPanicsExactly(FIELDS[0], 1, MAX_INT);
  }
}
