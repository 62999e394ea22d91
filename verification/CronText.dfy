/**
 queue/schedule.go: what the fields of a cron expression say, as its documentation has it: a number, a range, or every one,
 each with a step or without, and a list of those. A field written so is read as the values it says.
 */
module CronText {
  import opened Options
  import opened Cron
  import opened CronParse

  /** A field's values: minutes, hours, days of the month, months and days of the week, where 7 is Sunday too. */
  function Least(i: nat): nat
    requires i < 5
  {
    [0, 0, 1, 1, 0][i]
  }

  function Most(i: nat): nat
    requires i < 5
  {
    [59, 23, 31, 12, 7][i]
  }

  datatype Span = Every | One(n: nat) | From(n: nat, to: nat)

  /** An item of a list, with a step or without. */
  datatype Entry = Entry(span: Span, step: Option<nat>)

  predicate InField(i: nat, n: nat)
    requires i < 5
  {
    Least(i) <= n <= Most(i)
  }

  function First(i: nat, e: Entry): nat
    requires i < 5
  {
    if e.span.Every? then Least(i) else e.span.n
  }

  /** One that is read without error or panic: a range does not run backwards, and a step is at least 1 and does not overflow. */
  predicate Good(i: nat, e: Entry)
    requires i < 5
  {
    && (e.span.One? ==> InField(i, e.span.n))
    && (e.span.From? ==> InField(i, e.span.n) && InField(i, e.span.to) && e.span.n <= e.span.to)
    && (e.step.Some? ==> 1 <= e.step.value && First(i, e) + e.step.value <= MAX_INT)
  }

  /** A step counts from the first value, and goes on to the field's last where only the first is given. */
  ghost predicate Denotes(i: nat, e: Entry, v: int)
    requires i < 5
  {
    var first := First(i, e);
    && Least(i) <= v <= Most(i) && first <= v
    && (e.span.From? ==> v <= e.span.to)
    && match e.step
       case None => e.span.One? ==> v == first
       case Some(n) => exists k: nat :: v == first + k * n
  }

  function SpanText(s: Span): string {
    match s
    case Every => "*"
    case One(n) => TextOf(n)
    case From(n, to) => TextOf(n) + "-" + TextOf(to)
  }

  function EntryText(e: Entry): string {
    SpanText(e.span) + if e.step.Some? then "/" + TextOf(e.step.value) else ""
  }

  function ListText(es: seq<Entry>): string {
    if es == [] then ""
    else if |es| == 1 then EntryText(es[0])
    else EntryText(es[0]) + "," + ListText(es[1..])
  }

  // The text of numbers.

  lemma IndexPast(s: string, t: string, c: char)
    requires c !in s
    ensures IndexOf(s + t, c) == |s| + IndexOf(t, c)
  {
    var j := IndexOf(t, c);
    assert forall k :: 0 <= k < |s| ==> (s + t)[k] == s[k];
    assert forall k :: 0 <= k < |t| ==> (s + t)[|s| + k] == t[k];
    IndexIs(s + t, c, |s| + j);
  }

  lemma NoIndex(s: string, c: char)
    requires c !in s
    ensures IndexOf(s, c) == |s|
  {
  }

  lemma CutThere(s: string, t: string, c: char)
    requires c !in s
    ensures IndexOf(s + [c] + t, c) == |s| && (s + [c] + t)[..|s|] == s && (s + [c] + t)[|s| + 1..] == t
  {
    assert s + [c] + t == s + ([c] + t);
    IndexPast(s, [c] + t, c);
  }

  lemma NumberText(n: nat, c: char)
    requires !('0' <= c <= '9')
    ensures c !in TextOf(n) && TextOf(n) != []
  {
  }

  lemma NoName(names: seq<string>, s: string)
    requires Digits(s) && (forall name :: name in names ==> name != "" && 'A' <= name[0] <= 'Z')
    ensures NameIn(names, s) == |names|
  {
    forall name | name in names
      ensures !EqualFold(s, name)
    {
      assert Fold(s[0]) != Fold(name[0]);
    }
  }

  lemma NamesAreLetters(i: nat)
    requires i < 5
    ensures forall name :: name in FIELDS[i].names ==> name != "" && 'A' <= name[0] <= 'Z'
  {
  }

  /** A number's digits are its value in each field that it is in. */
  lemma NumberIsValue(i: nat, n: nat)
    requires i < 5
    ensures forall v :: IsValue(FIELDS[i], TextOf(n), v) <==> v == n && InField(i, n)
  {
    NamesAreLetters(i);
    NoName(FIELDS[i].names, TextOf(n));
    NumberOfText(n);
  }

  // Items.

  function ItemOf(i: nat, e: Entry): Item
    requires i < 5
  {
    var step := if e.step.Some? then e.step.value else 1;
    match e.span
    case Every => Item(Least(i), Most(i), step)
    case One(n) => Item(n, if e.step.Some? then Most(i) else n, step)
    case From(n, to) => Item(n, to, step)
  }

  lemma SpanIsSaid(i: nat, e: Entry)
    requires i < 5 && Good(i, e)
    ensures var it := ItemOf(i, e); SpanSays(FIELDS[i], SpanText(e.span), e.step.Some?, it.lo, it.hi)
  {
    match e.span
    case Every =>
    case One(n) =>
      NumberText(n, '-');
      NumberText(n, '*');
      NoIndex(TextOf(n), '-');
      NumberIsValue(i, n);
      assert TextOf(n)[..|TextOf(n)|] == TextOf(n);
    case From(n, to) =>
      NumberText(n, '-');
      CutThere(TextOf(n), TextOf(to), '-');
      NumberIsValue(i, n);
      NumberIsValue(i, to);
      assert '-' in SpanText(e.span);
  }

  lemma SpanHasNone(s: Span, c: char)
    requires c == '/' || c == ','
    ensures c !in SpanText(s)
  {
    match s
    case Every =>
    case One(n) => NumberText(n, c);
    case From(n, to) =>
      NumberText(n, c);
      NumberText(to, c);
  }

  lemma EntryIsSaid(i: nat, e: Entry)
    requires i < 5 && Good(i, e)
    ensures Says(FIELDS[i], EntryText(e), ItemOf(i, e)) && !Overflows(ItemOf(i, e))
  {
    SpanIsSaid(i, e);
    EntryIsCut(e);
    if e.step.Some? {
      NumberOfText(e.step.value);
    }
  }

  lemma EntryIsCut(e: Entry)
    ensures Cut(EntryText(e)) == (SpanText(e.span), if e.step.Some? then Some(TextOf(e.step.value)) else None)
  {
    var span := SpanText(e.span);
    SpanHasNone(e.span, '/');
    if e.step.Some? {
      assert EntryText(e) == span + ['/'] + TextOf(e.step.value);
      CutThere(span, TextOf(e.step.value), '/');
    } else {
      assert EntryText(e) == span;
      NoIndex(span, '/');
      assert span[..|span|] == span;
    }
  }

  lemma Steps(lo: nat, n: nat, v: int)
    requires n > 0 && v >= lo
    ensures (v - lo) % n == 0 <==> exists k: nat :: v == lo + k * n
  {
    if (v - lo) % n == 0 {
      var k: nat := (v - lo) / n;
      assert v == lo + k * n;
    }
    forall k: nat | v == lo + k * n
      ensures (v - lo) % n == 0
    {
      MultipleIs(k, n);
    }
  }

  lemma CoversWhatItDenotes(i: nat, e: Entry, v: int)
    requires i < 5 && Good(i, e)
    ensures Covers(ItemOf(i, e), v) <==> Denotes(i, e, v)
  {
    if e.step.Some? && v >= First(i, e) {
      Steps(First(i, e), e.step.value, v);
    }
  }

  // Lists.

  lemma EntryHasNoComma(e: Entry)
    ensures ',' !in EntryText(e)
  {
    SpanHasNone(e.span, ',');
    if e.step.Some? {
      NumberText(e.step.value, ',');
    }
  }

  function Texts(es: seq<Entry>): seq<string> {
    seq(|es|, k requires 0 <= k < |es| => EntryText(es[k]))
  }

  lemma SplitOn(first: string, rest: string)
    requires ',' !in first
    ensures Split(first + "," + rest, ',') == [first] + Split(rest, ',')
  {
    CutThere(first, rest, ',');
    assert first + "," + rest == first + [','] + rest;
  }

  lemma TextsOn(es: seq<Entry>)
    requires es != []
    ensures Texts(es) == [EntryText(es[0])] + Texts(es[1..])
  {
  }

  lemma {:induction false} ListIsSplit(es: seq<Entry>)
    requires es != []
    ensures Split(ListText(es), ',') == Texts(es)
    decreases |es|
  {
    EntryHasNoComma(es[0]);
    if |es| == 1 {
      NoIndex(EntryText(es[0]), ',');
    } else {
      ListIsSplit(es[1..]);
      SplitOn(EntryText(es[0]), ListText(es[1..]));
      TextsOn(es);
    }
  }

  ghost predicate SomeDenotes(i: nat, es: seq<Entry>, v: int)
    requires i < 5
  {
    exists k :: 0 <= k < |es| && Denotes(i, es[k], v)
  }

  ghost function Said(i: nat, es: seq<Entry>): set<int>
    requires i < 5
  {
    set v | Least(i) <= v <= Most(i) && SomeDenotes(i, es, v)
  }

  function Items(i: nat, es: seq<Entry>): seq<Item>
    requires i < 5
  {
    seq(|es|, k requires 0 <= k < |es| => ItemOf(i, es[k]))
  }

  lemma ItemsRead(i: nat, es: seq<Entry>)
    requires i < 5 && forall k :: 0 <= k < |es| ==> Good(i, es[k])
    ensures ReadSoFar(FIELDS[i], Texts(es), Items(i, es))
  {
    forall k | 0 <= k < |es|
      ensures Says(FIELDS[i], Texts(es)[k], Items(i, es)[k]) && !Overflows(Items(i, es)[k])
    {
      EntryIsSaid(i, es[k]);
    }
  }

  lemma ItemsCover(i: nat, es: seq<Entry>)
    requires i < 5 && forall k :: 0 <= k < |es| ==> Good(i, es[k])
    ensures CoveredBy(Items(i, es), Said(i, es))
  {
    forall v
      ensures v in Said(i, es) <==> SomeCovers(Items(i, es), v)
    {
      forall k | 0 <= k < |es|
        ensures Covers(Items(i, es)[k], v) <==> Denotes(i, es[k], v)
      {
        CoversWhatItDenotes(i, es[k], v);
      }
    }
  }

  /** A field is read as the values that its list says, each by some item of it, and no others. */
  lemma WrittenIsRead(i: nat, es: seq<Entry>)
    requires i < 5 && es != [] && forall k :: 0 <= k < |es| ==> Good(i, es[k])
    ensures Reads(FIELDS[i], ListText(es), Ok(set v | Least(i) <= v <= Most(i) && SomeDenotes(i, es, v)))
  {
    ListIsSplit(es);
    ItemsRead(i, es);
    ItemsCover(i, es);
    assert EndsAs(FIELDS[i], Texts(es), Items(i, es), Ok(Said(i, es)));
  }

  lemma DayIs(s: string, k: nat)
    requires (k == 1 && s == "MON") || (k == 5 && s == "FRI")
    ensures NameIn(DAYS, s) == k
  {
    forall i | 0 <= i < k
      ensures !EqualFold(s, DAYS[i])
    {
      assert Fold(s[0]) != Fold(DAYS[i][0]);
    }
    assert EqualFold(s, DAYS[k]);
  }

  /** The weekdays, by their names. */
  lemma WeekdaysByName()
    ensures Says(FIELDS[4], "MON-FRI", Item(1, 5, 1))
  {
    assert "MON-FRI" == "MON" + ['-'] + "FRI";
    CutThere("MON", "FRI", '-');
    NoIndex("MON-FRI", '/');
    assert "MON-FRI"[..7] == "MON-FRI";
    DayIs("MON", 1);
    DayIs("FRI", 5);
  }
}
