/**
 tugtest/merge.go: the props of the page a client is on after a partial reload, as Inertia's client builds them of what
 it had and what the answer carried.
 */
module PageMerge {
  import opened Options
  import opened PropPaths
  import opened PropTree

  type Fields = map<string, Json>

  /** The value at a dotted path, through the objects on the way. */
  function At(fields: Fields, path: string): Option<Json>
    decreases |path|
  {
    var i := Dot(path);
    var key := path[..i];
    if key !in fields then None
    else if i == |path| then Some(fields[key])
    else if !fields[key].Object? then None
    else At(fields[key].fields, path[i + 1..])
  }

  /** Sets the value at a dotted path, and leaves alone a path that leads through what is not an object. */
  function Put(fields: Fields, path: string, value: Json): Fields
    decreases |path|
  {
    var i := Dot(path);
    var key := path[..i];
    if i == |path| then fields[key := value]
    else if key !in fields || !fields[key].Object? then fields
    else fields[key := Object(Put(fields[key].fields, path[i + 1..], value))]
  }

  /** The name at the top of the props that a path is in. */
  function Top(path: string): string {
    path[..Dot(path)]
  }

  /** A list of items, or none for what is not one; null is a list of none, as it is to a decoder. */
  function AsList(j: Json): Option<seq<Json>> {
    match j
    case List(items) => Some(items)
    case Null => Some([])
    case _ => None
  }

  /** The field that the items at path are the same item by, or "". */
  function MatchField(matchOn: seq<string>, path: string): string {
    if matchOn == [] then ""
    else if path + "." <= matchOn[0] && '.' !in matchOn[0][|path| + 1..] then matchOn[0][|path| + 1..]
    else MatchField(matchOn[1..], path)
  }

  predicate HasField(item: Json, field: string) {
    item.Object? && field in item.fields
  }

  predicate Same(one: Json, other: Json, field: string) {
    HasField(one, field) && HasField(other, field) && one.fields[field] == other.fields[field]
  }

  predicate Among(item: Json, items: seq<Json>, field: string) {
    exists i :: 0 <= i < |items| && Same(item, items[i], field)
  }

  /** The items that none of the ones now is the same as. */
  function Survivors(was: seq<Json>, now: seq<Json>, field: string): seq<Json> {
    if was == [] then []
    else
      var before := Survivors(was[..|was| - 1], now, field);
      if Among(was[|was| - 1], now, field) then before else before + [was[|was| - 1]]
  }

  function Together(was: seq<Json>, now: seq<Json>, field: string, prepend: bool): seq<Json> {
    var kept := if field == "" then was else Survivors(was, now, field);
    if prepend then now + kept else kept + now
  }

  /** The lists at a path put together, as the page's label says, where both the client and the answer have one. */
  function JoinedAt(before: Fields, after: Fields, path: string, matchOn: seq<string>, prepend: bool): Option<Json> {
    var had, has := At(before, path), At(after, path);
    if had.None? || has.None? then None
    else
      var was, now := AsList(had.value), AsList(has.value);
      if was.None? || now.None? then None
      else Some(List(Together(was.value, now.value, MatchField(matchOn, path), prepend)))
  }

  function PutIf(out: Fields, path: string, value: Option<Json>): Fields {
    if value.None? then out else Put(out, path, value.value)
  }

  function JoinAt(out: Fields, before: Fields, after: Fields, path: string, matchOn: seq<string>, prepend: bool): Fields {
    PutIf(out, path, JoinedAt(before, after, path, matchOn, prepend))
  }

  /** Two objects one over the other, each key at every depth. */
  function DeepMerged(was: Json, now: Json): Json
    decreases now
  {
    if !was.Object? || !now.Object? then now
    else
      Object(map key | key in was.fields.Keys + now.fields.Keys ::
               if key !in now.fields then was.fields[key]
               else if key !in was.fields then now.fields[key]
               else DeepMerged(was.fields[key], now.fields[key]))
  }

  function DeepMergedAt(before: Fields, after: Fields, path: string): Option<Json> {
    var had, has := At(before, path), At(after, path);
    if had.None? || has.None? then None else Some(DeepMerged(had.value, has.value))
  }

  function DeepAt(out: Fields, before: Fields, after: Fields, path: string): Fields {
    PutIf(out, path, DeepMergedAt(before, after, path))
  }

  function JoinAll(out: Fields, before: Fields, after: Fields, paths: seq<string>, matchOn: seq<string>, prepend: bool): Fields {
    if paths == [] then out
    else
      JoinAt(JoinAll(out, before, after, paths[..|paths| - 1], matchOn, prepend),
             before, after, paths[|paths| - 1], matchOn, prepend)
  }

  function DeepAll(out: Fields, before: Fields, after: Fields, paths: seq<string>): Fields {
    if paths == [] then out
    else DeepAt(DeepAll(out, before, after, paths[..|paths| - 1]), before, after, paths[|paths| - 1])
  }

  function MergedFields(before: Fields, after: Fields, page: Labels): Fields {
    var appended := JoinAll(before + after, before, after, page.merge, page.matchOn, false);
    DeepAll(JoinAll(appended, before, after, page.prepends, page.matchOn, true), before, after, page.deepMerge)
  }

  function Merged(have: Json, got: Json, page: Labels, partial: bool): Json {
    if !partial || !have.Object? || !got.Object? then got else Object(MergedFields(have.fields, got.fields, page))
  }

  /** What the client's code does, which builds a new object over the two. */
  method Merge(have: Json, got: Json, page: Labels, partial: bool) returns (r: Json)
    ensures r == Merged(have, got, page, partial)
  {
    if !partial {
      return got;
    }
    if !have.Object? || !got.Object? {
      return got;
    }
    var before, after := have.fields, got.fields;
    var out := before + after;
    for i := 0 to |page.merge|
      invariant out == JoinAll(before + after, before, after, page.merge[..i], page.matchOn, false)
    {
      assert page.merge[..i + 1][..i] == page.merge[..i];
      out := JoinOne(out, before, after, page.merge[i], page.matchOn, false);
    }
    assert page.merge[..|page.merge|] == page.merge;
    ghost var appended := out;
    for i := 0 to |page.prepends|
      invariant out == JoinAll(appended, before, after, page.prepends[..i], page.matchOn, true)
    {
      assert page.prepends[..i + 1][..i] == page.prepends[..i];
      out := JoinOne(out, before, after, page.prepends[i], page.matchOn, true);
    }
    assert page.prepends[..|page.prepends|] == page.prepends;
    ghost var joined := out;
    for i := 0 to |page.deepMerge|
      invariant out == DeepAll(joined, before, after, page.deepMerge[..i])
    {
      assert page.deepMerge[..i + 1][..i] == page.deepMerge[..i];
      out := DeepAt(out, before, after, page.deepMerge[i]);
    }
    assert page.deepMerge[..|page.deepMerge|] == page.deepMerge;
    r := Object(out);
  }

  /** join, which deletes from the client's list the items that come again. */
  method JoinOne(out: Fields, before: Fields, after: Fields, path: string, matchOn: seq<string>, prepend: bool)
    returns (r: Fields)
    ensures r == JoinAt(out, before, after, path, matchOn, prepend)
  {
    var had, has := At(before, path), At(after, path);
    if had.None? || has.None? {
      return out;
    }
    var was, now := AsList(had.value), AsList(has.value);
    if was.None? || now.None? {
      return out;
    }
    var field := MatchField(matchOn, path);
    var kept := was.value;
    if field != "" {
      kept := [];
      for i := 0 to |was.value|
        invariant kept == Survivors(was.value[..i], now.value, field)
      {
        assert was.value[..i + 1][..i] == was.value[..i];
        if !Among(was.value[i], now.value, field) {
          kept := kept + [was.value[i]];
        }
      }
      assert was.value[..|was.value|] == was.value;
    }
    r := Put(out, path, List(if prepend then now.value + kept else kept + now.value));
  }

  // A reload changes only what it carries.

  predicate LeavesAlone(out: Fields, from: Fields, key: string) {
    (key in out <==> key in from) && (key in from ==> out[key] == from[key])
  }

  lemma {:induction false} JoinLeavesAlone(out: Fields, before: Fields, after: Fields, paths: seq<string>,
                                           matchOn: seq<string>, prepend: bool, key: string)
    requires key !in after || forall i :: 0 <= i < |paths| ==> Top(paths[i]) != key
    ensures LeavesAlone(JoinAll(out, before, after, paths, matchOn, prepend), out, key)
    decreases |paths|
  {
    if paths != [] {
      JoinLeavesAlone(out, before, after, paths[..|paths| - 1], matchOn, prepend, key);
    }
  }

  lemma {:induction false} DeepLeavesAlone(out: Fields, before: Fields, after: Fields, paths: seq<string>, key: string)
    requires key !in after || forall i :: 0 <= i < |paths| ==> Top(paths[i]) != key
    ensures LeavesAlone(DeepAll(out, before, after, paths), out, key)
    decreases |paths|
  {
    if paths != [] {
      DeepLeavesAlone(out, before, after, paths[..|paths| - 1], key);
    }
  }

  predicate NoLabelIn(page: Labels, key: string) {
    && (forall i :: 0 <= i < |page.merge| ==> Top(page.merge[i]) != key)
    && (forall i :: 0 <= i < |page.prepends| ==> Top(page.prepends[i]) != key)
    && (forall i :: 0 <= i < |page.deepMerge| ==> Top(page.deepMerge[i]) != key)
  }

  /** A partial reload changes only the props at the top that its answer carries; one it labels no path of, it replaces. */
  lemma OnlyWhatCame(have: Json, got: Json, page: Labels, key: string)
    requires have.Object? && got.Object?
    ensures var r := Merged(have, got, page, true);
      && r.Object?
      && (key !in got.fields ==> LeavesAlone(r.fields, have.fields, key))
      && (key in got.fields && NoLabelIn(page, key) ==> LeavesAlone(r.fields, got.fields, key))
  {
    var before, after := have.fields, got.fields;
    var out := before + after;
    if key !in after || NoLabelIn(page, key) {
      JoinLeavesAlone(out, before, after, page.merge, page.matchOn, false, key);
      var appended := JoinAll(out, before, after, page.merge, page.matchOn, false);
      JoinLeavesAlone(appended, before, after, page.prepends, page.matchOn, true, key);
      DeepLeavesAlone(JoinAll(appended, before, after, page.prepends, page.matchOn, true), before, after, page.deepMerge, key);
    }
  }

  // A list put together.

  /** No two items of a list are the same by a field. */
  predicate NoRepeat(items: seq<Json>, field: string) {
    forall i, j :: 0 <= i < j < |items| ==> !Same(items[i], items[j], field)
  }

  /** One list is another without some of its items. */
  predicate PartOf(part: seq<Json>, whole: seq<Json>)
    decreases |whole|
  {
    if whole == [] then part == []
    else
      PartOf(part, whole[..|whole| - 1])
      || (part != [] && part[|part| - 1] == whole[|whole| - 1] && PartOf(part[..|part| - 1], whole[..|whole| - 1]))
  }

  lemma {:induction false} SurvivorsInOrder(was: seq<Json>, now: seq<Json>, field: string)
    ensures PartOf(Survivors(was, now, field), was)
    ensures forall item :: item in Survivors(was, now, field) <==> item in was && !Among(item, now, field)
    decreases |was|
  {
    if was != [] {
      var front, last := was[..|was| - 1], was[|was| - 1];
      SurvivorsInOrder(front, now, field);
      assert was == front + [last];
      var before := Survivors(front, now, field);
      assert (before + [last])[..|before|] == before;
    }
  }

  lemma {:induction false} SurvivorsDoNotRepeat(was: seq<Json>, now: seq<Json>, field: string)
    requires NoRepeat(was, field)
    ensures NoRepeat(Survivors(was, now, field), field)
    decreases |was|
  {
    if was != [] {
      var front, last := was[..|was| - 1], was[|was| - 1];
      SurvivorsDoNotRepeat(front, now, field);
      SurvivorsInOrder(front, now, field);
      var before := Survivors(front, now, field);
      forall i | 0 <= i < |before|
        ensures !Same(before[i], last, field)
      {
        assert before[i] in front;
        var k :| 0 <= k < |front| && front[k] == before[i];
        assert was[k] == front[k];
      }
    }
  }

  /**
   The list put together has the answer's items, all of them and in their order, and those of the client's that none of
   them is the same as, in theirs; and it repeats no item by its field, when neither list did.
   */
  lemma PutTogether(was: seq<Json>, now: seq<Json>, field: string, prepend: bool)
    requires field != ""
    ensures var r := Together(was, now, field, prepend);
      && (exists kept :: PartOf(kept, was) && r == (if prepend then now + kept else kept + now)
                         && forall item :: item in kept <==> item in was && !Among(item, now, field))
      && (NoRepeat(was, field) && NoRepeat(now, field) ==> NoRepeat(r, field))
  {
    var kept := Survivors(was, now, field);
    SurvivorsInOrder(was, now, field);
    if NoRepeat(was, field) && NoRepeat(now, field) {
      SurvivorsDoNotRepeat(was, now, field);
      forall i, j | 0 <= i < |kept| && 0 <= j < |now|
        ensures !Same(kept[i], now[j], field) && !Same(now[j], kept[i], field)
      {
        assert kept[i] in kept;
      }
    }
  }

  // Paths are lists of keys.

  function PutKeys(fields: Fields, ks: Keys, value: Json): Fields
    requires ks != []
    decreases |ks|
  {
    if |ks| == 1 then fields[ks[0] := value]
    else if ks[0] !in fields || !fields[ks[0]].Object? then fields
    else fields[ks[0] := Object(PutKeys(fields[ks[0]].fields, ks[1..], value))]
  }

  lemma {:induction false} PathsAreKeys(fields: Fields, ks: Keys, value: Json)
    requires ks != [] && DotFree(ks)
    ensures At(fields, Join(ks)) == AtKeys(fields, ks)
    ensures Put(fields, Join(ks), value) == PutKeys(fields, ks, value)
    decreases |ks|
  {
    if |ks| == 1 {
      OnlyKey(ks[0]);
      assert ks[0][..|ks[0]|] == ks[0];
    } else {
      FirstKey(ks[0], Join(ks[1..]));
      if ks[0] in fields && fields[ks[0]].Object? {
        PathsAreKeys(fields[ks[0]].fields, ks[1..], value);
      }
    }
  }

  // What is at each path that is labeled.

  /** Neither of two paths is the other, or inside it. */
  predicate Apart(p: string, q: string) {
    !(Split(p) <= Split(q)) && !(Split(q) <= Split(p))
  }

  predicate AllApart(paths: seq<string>, q: string) {
    forall i :: 0 <= i < |paths| ==> Apart(paths[i], q)
  }

  /** The path at a place is apart from all the others of a list. */
  predicate ApartFromOthers(paths: seq<string>, i: nat)
    requires i < |paths|
  {
    forall j :: 0 <= j < |paths| && j != i ==> Apart(paths[j], paths[i])
  }

  lemma {:induction false} PutElsewhere(fields: Fields, ks: Keys, qs: Keys, value: Json)
    requires ks != [] && qs != [] && !(ks <= qs) && !(qs <= ks)
    ensures AtKeys(PutKeys(fields, ks, value), qs) == AtKeys(fields, qs)
    decreases |ks|
  {
    assert ks == [ks[0]] + ks[1..] && qs == [qs[0]] + qs[1..];
    if |ks| > 1 && ks[0] in fields && fields[ks[0]].Object? && qs[0] == ks[0] {
      PutElsewhere(fields[ks[0]].fields, ks[1..], qs[1..], value);
    }
  }

  lemma {:induction false} PutThere(fields: Fields, ks: Keys, value: Json)
    requires ks != [] && AtKeys(fields, ks).Some?
    ensures AtKeys(PutKeys(fields, ks, value), ks) == Some(value)
    decreases |ks|
  {
    if |ks| > 1 {
      PutThere(fields[ks[0]].fields, ks[1..], value);
    }
  }

  /** Setting at a path sets the value there, where there is one, and at no path apart from it. */
  lemma PutAt(fields: Fields, path: string, value: Json)
    ensures At(fields, path).Some? ==> At(Put(fields, path, value), path) == Some(value)
    ensures forall q :: Apart(path, q) ==> At(Put(fields, path, value), q) == At(fields, q)
  {
    var ks, out := Split(path), Put(fields, path, value);
    PathsAreKeys(fields, ks, value);
    PathsAreKeys(out, ks, value);
    if At(fields, path).Some? {
      PutThere(fields, ks, value);
    }
    forall q | Apart(path, q)
      ensures At(out, q) == At(fields, q)
    {
      PathsAreKeys(fields, Split(q), value);
      PathsAreKeys(out, Split(q), value);
      PutElsewhere(fields, ks, Split(q), value);
    }
  }

  /** What is at a path once a value is put there, where there is one to put. */
  function Or(value: Option<Json>, otherwise: Option<Json>): Option<Json> {
    if value.Some? then value else otherwise
  }

  lemma PutIfAt(fields: Fields, path: string, value: Option<Json>)
    ensures (value.Some? ==> At(fields, path).Some?) ==> At(PutIf(fields, path, value), path) == Or(value, At(fields, path))
    ensures forall q :: Apart(path, q) ==> At(PutIf(fields, path, value), q) == At(fields, q)
  {
    if value.Some? {
      PutAt(fields, path, value.value);
    }
  }

  /** Where the answer has something, what it is laid over the client's has it. */
  lemma AnswerIsOver(before: Fields, after: Fields, path: string)
    requires At(after, path).Some?
    ensures At(before + after, path) == At(after, path)
  {
  }

  lemma {:induction false} JoinElsewhere(out: Fields, before: Fields, after: Fields, paths: seq<string>,
                                         matchOn: seq<string>, prepend: bool, q: string)
    requires AllApart(paths, q)
    ensures At(JoinAll(out, before, after, paths, matchOn, prepend), q) == At(out, q)
    decreases |paths|
  {
    if paths != [] {
      var front, path := paths[..|paths| - 1], paths[|paths| - 1];
      JoinElsewhere(out, before, after, front, matchOn, prepend, q);
      PutIfAt(JoinAll(out, before, after, front, matchOn, prepend), path, JoinedAt(before, after, path, matchOn, prepend));
    }
  }

  lemma {:induction false} JoinThere(out: Fields, before: Fields, after: Fields, paths: seq<string>,
                                     matchOn: seq<string>, prepend: bool, i: nat)
    requires i < |paths| && ApartFromOthers(paths, i) && (At(after, paths[i]).Some? ==> At(out, paths[i]).Some?)
    ensures At(JoinAll(out, before, after, paths, matchOn, prepend), paths[i]) ==
            Or(JoinedAt(before, after, paths[i], matchOn, prepend), At(out, paths[i]))
    decreases |paths|
  {
    var front, path := paths[..|paths| - 1], paths[|paths| - 1];
    if i < |paths| - 1 {
      JoinThere(out, before, after, front, matchOn, prepend, i);
    } else {
      JoinElsewhere(out, before, after, front, matchOn, prepend, path);
    }
    PutIfAt(JoinAll(out, before, after, front, matchOn, prepend), path, JoinedAt(before, after, path, matchOn, prepend));
  }

  lemma {:induction false} DeepElsewhere(out: Fields, before: Fields, after: Fields, paths: seq<string>, q: string)
    requires AllApart(paths, q)
    ensures At(DeepAll(out, before, after, paths), q) == At(out, q)
    decreases |paths|
  {
    if paths != [] {
      var front, path := paths[..|paths| - 1], paths[|paths| - 1];
      DeepElsewhere(out, before, after, front, q);
      PutIfAt(DeepAll(out, before, after, front), path, DeepMergedAt(before, after, path));
    }
  }

  lemma {:induction false} DeepThere(out: Fields, before: Fields, after: Fields, paths: seq<string>, i: nat)
    requires i < |paths| && ApartFromOthers(paths, i) && (At(after, paths[i]).Some? ==> At(out, paths[i]).Some?)
    ensures At(DeepAll(out, before, after, paths), paths[i]) == Or(DeepMergedAt(before, after, paths[i]), At(out, paths[i]))
    decreases |paths|
  {
    var front, path := paths[..|paths| - 1], paths[|paths| - 1];
    if i < |paths| - 1 {
      DeepThere(out, before, after, front, i);
    } else {
      DeepElsewhere(out, before, after, front, path);
    }
    PutIfAt(DeepAll(out, before, after, front), path, DeepMergedAt(before, after, path));
  }

  lemma OverHasIt(have: Json, got: Json, path: string)
    requires have.Object? && got.Object?
    ensures At(got.fields, path).Some? ==> At(have.fields + got.fields, path).Some?
  {
    if At(got.fields, path).Some? {
      AnswerIsOver(have.fields, got.fields, path);
    }
  }

  /**
   After a reload, a path that is labeled once, and that no other label is at, inside or around, has the lists put
   together, or the answer's value where they are no lists.
   */
  lemma AppendedThere(have: Json, got: Json, page: Labels, i: nat)
    requires have.Object? && got.Object? && i < |page.merge| && ApartFromOthers(page.merge, i)
    requires AllApart(page.prepends, page.merge[i]) && AllApart(page.deepMerge, page.merge[i])
    ensures var path, was, now := page.merge[i], have.fields, got.fields;
      At(Merged(have, got, page, true).fields, path) == Or(JoinedAt(was, now, path, page.matchOn, false), At(was + now, path))
  {
    var path, was, now := page.merge[i], have.fields, got.fields;
    var appended := JoinAll(was + now, was, now, page.merge, page.matchOn, false);
    OverHasIt(have, got, path);
    JoinThere(was + now, was, now, page.merge, page.matchOn, false, i);
    JoinElsewhere(appended, was, now, page.prepends, page.matchOn, true, path);
    DeepElsewhere(JoinAll(appended, was, now, page.prepends, page.matchOn, true), was, now, page.deepMerge, path);
  }

  lemma PrependedThere(have: Json, got: Json, page: Labels, i: nat)
    requires have.Object? && got.Object? && i < |page.prepends| && ApartFromOthers(page.prepends, i)
    requires AllApart(page.merge, page.prepends[i]) && AllApart(page.deepMerge, page.prepends[i])
    ensures var path, was, now := page.prepends[i], have.fields, got.fields;
      At(Merged(have, got, page, true).fields, path) == Or(JoinedAt(was, now, path, page.matchOn, true), At(was + now, path))
  {
    var path, was, now := page.prepends[i], have.fields, got.fields;
    var appended := JoinAll(was + now, was, now, page.merge, page.matchOn, false);
    OverHasIt(have, got, path);
    JoinElsewhere(was + now, was, now, page.merge, page.matchOn, false, path);
    JoinThere(appended, was, now, page.prepends, page.matchOn, true, i);
    DeepElsewhere(JoinAll(appended, was, now, page.prepends, page.matchOn, true), was, now, page.deepMerge, path);
  }

  /** Or it has the objects merged at every depth. */
  lemma DeepMergedThere(have: Json, got: Json, page: Labels, i: nat)
    requires have.Object? && got.Object? && i < |page.deepMerge| && ApartFromOthers(page.deepMerge, i)
    requires AllApart(page.merge, page.deepMerge[i]) && AllApart(page.prepends, page.deepMerge[i])
    ensures var path, was, now := page.deepMerge[i], have.fields, got.fields;
      At(Merged(have, got, page, true).fields, path) == Or(DeepMergedAt(was, now, path), At(was + now, path))
  {
    var path, was, now := page.deepMerge[i], have.fields, got.fields;
    var appended := JoinAll(was + now, was, now, page.merge, page.matchOn, false);
    OverHasIt(have, got, path);
    JoinElsewhere(was + now, was, now, page.merge, page.matchOn, false, path);
    JoinElsewhere(appended, was, now, page.prepends, page.matchOn, true, path);
    DeepThere(JoinAll(appended, was, now, page.prepends, page.matchOn, true), was, now, page.deepMerge, i);
  }

  /** And a path apart from all labels is the answer's, over the client's. */
  lemma UnlabeledStands(have: Json, got: Json, page: Labels, q: string)
    requires have.Object? && got.Object? && AllApart(page.merge, q) && AllApart(page.prepends, q) && AllApart(page.deepMerge, q)
    ensures At(Merged(have, got, page, true).fields, q) == At(have.fields + got.fields, q)
  {
    var was, now := have.fields, got.fields;
    var appended := JoinAll(was + now, was, now, page.merge, page.matchOn, false);
    JoinElsewhere(was + now, was, now, page.merge, page.matchOn, false, q);
    JoinElsewhere(appended, was, now, page.prepends, page.matchOn, true, q);
    DeepElsewhere(JoinAll(appended, was, now, page.prepends, page.matchOn, true), was, now, page.deepMerge, q);
  }

  /** The keys lead through a value that is no object. */
  predicate Stops(fields: Fields, ks: Keys) {
    exists m :: 0 < m < |ks| && AtKeys(fields, ks[..m]).Some? && !AtKeys(fields, ks[..m]).value.Object?
  }

  lemma StopsBelow(fields: Fields, ks: Keys)
    requires |ks| > 1 && ks[0] in fields
    ensures Stops(fields, ks) <==> !fields[ks[0]].Object? || Stops(fields[ks[0]].fields, ks[1..])
  {
    assert ks[..1] == [ks[0]];
    if fields[ks[0]].Object? {
      forall m | 1 < m < |ks|
        ensures AtKeys(fields, ks[..m]) == AtKeys(fields[ks[0]].fields, ks[1..][..m - 1])
      {
        assert ks[..m][1..] == ks[1..][..m - 1];
      }
      if Stops(fields[ks[0]].fields, ks[1..]) {
        var m :| 0 < m < |ks[1..]| && AtKeys(fields[ks[0]].fields, ks[1..][..m]).Some?
                 && !AtKeys(fields[ks[0]].fields, ks[1..][..m]).value.Object?;
        assert AtKeys(fields, ks[..m + 1]) == AtKeys(fields[ks[0]].fields, ks[1..][..m]);
      }
    } else {
      assert AtKeys(fields, ks[..1]).Some?;
    }
  }

  /** Merged at every depth: what the newer says stands, down to where it says nothing, and there the older stands. */
  lemma {:induction false} DeepMergedByKeys(was: Fields, now: Fields, ks: Keys)
    requires ks != []
    ensures var r, newer := DeepMerged(Object(was), Object(now)).fields, AtKeys(now, ks);
      && (newer.None? ==> AtKeys(r, ks) == if Stops(now, ks) then None else AtKeys(was, ks))
      && (newer.Some? ==> AtKeys(r, ks).Some?)
      && (newer.Some? && !newer.value.Object? ==> AtKeys(r, ks) == newer)
    decreases |ks|
  {
    if |ks| > 1 && ks[0] in now {
      StopsBelow(now, ks);
      if ks[0] in was && now[ks[0]].Object? && was[ks[0]].Object? {
        DeepMergedByKeys(was[ks[0]].fields, now[ks[0]].fields, ks[1..]);
      }
    } else if |ks| > 1 {
      NotThere(now, ks);
    }
  }

  lemma NotThere(fields: Fields, ks: Keys)
    requires |ks| > 1 && ks[0] !in fields
    ensures !Stops(fields, ks) && AtKeys(fields, ks).None?
  {
    assert forall m :: 0 < m < |ks| ==> ks[..m][0] == ks[0];
  }

  // Of the page itself: what a labeled list comes to, by the labels' own text.

  /** A label names a field of the items at a path, with no path below it. */
  predicate NamesField(on: string, path: string, field: string) {
    on == path + "." + field && '.' !in field
  }

  /** The first label that names a field of the items at a path names this one. */
  ghost predicate FirstField(matchOn: seq<string>, path: string, field: string) {
    exists k :: 0 <= k < |matchOn| && NamesField(matchOn[k], path, field) &&
                forall j, other :: 0 <= j < k ==> !NamesField(matchOn[j], path, other)
  }

  ghost predicate NoField(matchOn: seq<string>, path: string) {
    forall j, other :: 0 <= j < |matchOn| ==> !NamesField(matchOn[j], path, other)
  }

  lemma {:induction false} FieldFound(matchOn: seq<string>, path: string, field: string)
    requires FirstField(matchOn, path, field)
    ensures MatchField(matchOn, path) == field
    decreases |matchOn|
  {
    var k :| 0 <= k < |matchOn| && NamesField(matchOn[k], path, field) && forall j, other :: 0 <= j < k ==> !NamesField(matchOn[j], path, other);
    if k == 0 {
      assert (path + "." + field)[|path| + 1..] == field;
    } else {
      NotNamed(matchOn[0], path);
      assert NamesField(matchOn[1..][k - 1], path, field);
      forall j, other | 0 <= j < k - 1
        ensures !NamesField(matchOn[1..][j], path, other)
      {
        assert matchOn[1..][j] == matchOn[j + 1];
      }
      FieldFound(matchOn[1..], path, field);
    }
  }

  lemma NotNamed(on: string, path: string)
    requires forall other :: !NamesField(on, path, other)
    ensures !(path + "." <= on && '.' !in on[|path| + 1..])
  {
    if path + "." <= on {
      var rest := on[|path| + 1..];
      assert on == path + "." + rest;
      assert !NamesField(on, path, rest);
    }
  }

  lemma {:induction false} NoneFound(matchOn: seq<string>, path: string)
    requires NoField(matchOn, path)
    ensures MatchField(matchOn, path) == ""
    decreases |matchOn|
  {
    if matchOn != [] {
      NotNamed(matchOn[0], path);
      assert forall j :: 0 <= j < |matchOn| - 1 ==> matchOn[1..][j] == matchOn[j + 1];
      NoneFound(matchOn[1..], path);
    }
  }

  /** Two items have a field of one value. */
  predicate ShareValue(item: Json, other: Json, field: string) {
    item.Object? && other.Object? && field in item.fields && field in other.fields && item.fields[field] == other.fields[field]
  }

  /** What is left of a list: all its items that share no field's value with one that is fresh, in their order. */
  ghost predicate Left(kept: seq<Json>, was: seq<Json>, now: seq<Json>, field: string) {
    && PartOf(kept, was)
    && forall item :: multiset(kept)[item] ==
                      if exists i :: 0 <= i < |now| && ShareValue(item, now[i], field) then 0 else multiset(was)[item]
  }

  lemma {:induction false} SurvivorsAreLeft(was: seq<Json>, now: seq<Json>, field: string)
    ensures Left(Survivors(was, now, field), was, now, field)
    decreases |was|
  {
    if was != [] {
      var front, last := was[..|was| - 1], was[|was| - 1];
      SurvivorsAreLeft(front, now, field);
      SurvivorsInOrder(was, now, field);
      assert was == front + [last];
      forall item
        ensures Among(item, now, field) <==> exists i :: 0 <= i < |now| && ShareValue(item, now[i], field)
      {
        if Among(item, now, field) {
          var i :| 0 <= i < |now| && Same(item, now[i], field);
          assert ShareValue(item, now[i], field);
        }
        if i :| 0 <= i < |now| && ShareValue(item, now[i], field) {
          assert Same(item, now[i], field);
        }
      }
    }
  }

  /** No two items of a list have a field of one value. */
  predicate NoneShare(items: seq<Json>, field: string) {
    forall i, j :: 0 <= i < j < |items| ==> !ShareValue(items[i], items[j], field)
  }

  lemma LeftOfThese(was: seq<Json>, now: seq<Json>, field: string, prepend: bool)
    requires field != ""
    ensures var r := Together(was, now, field, prepend);
      && (exists kept :: Left(kept, was, now, field) && r == if prepend then now + kept else kept + now)
      && (NoneShare(was, field) && NoneShare(now, field) ==> NoneShare(r, field))
  {
    var r, kept := Together(was, now, field, prepend), Survivors(was, now, field);
    SurvivorsAreLeft(was, now, field);
    PutTogether(was, now, field, prepend);
    assert r == if prepend then now + kept else kept + now;
    if NoneShare(was, field) && NoneShare(now, field) {
      SharedIsSame(was, field);
      SharedIsSame(now, field);
      SharedIsSame(r, field);
    }
  }

  lemma SharedIsSame(items: seq<Json>, field: string)
    ensures NoneShare(items, field) <==> NoRepeat(items, field)
  {
    forall i, j | 0 <= i < j < |items|
      ensures ShareValue(items[i], items[j], field) <==> Same(items[i], items[j], field)
    {
    }
  }

  /** A label is the only one at, inside or around its path. */
  predicate OnlyAt(paths: seq<string>, i: nat, others: seq<string>, more: seq<string>)
    requires i < |paths|
  {
    ApartFromOthers(paths, i) && AllApart(others, paths[i]) && AllApart(more, paths[i])
  }

  /** The list on the page at a path, of the client's and the answer's: matched by a field, or just put together. */
  ghost predicate ListsTogether(out: Fields, was: Fields, now: Fields, path: string, matchOn: seq<string>, prepend: bool) {
    At(was, path).Some? && At(was, path).value.List? && At(now, path).Some? && At(now, path).value.List? ==>
      var had, came := At(was, path).value.items, At(now, path).value.items;
      && At(out, path).Some? && At(out, path).value.List?
      && (NoField(matchOn, path) || FirstField(matchOn, path, "") ==> At(out, path).value.items == if prepend then came + had else had + came)
      && forall field :: field != "" && FirstField(matchOn, path, field) ==>
           && (exists kept :: Left(kept, had, came, field) &&
                              At(out, path).value.items == if prepend then came + kept else kept + came)
           && (NoneShare(had, field) && NoneShare(came, field) ==> NoneShare(At(out, path).value.items, field))
  }

  lemma JoinedSays(out: Fields, was: Fields, now: Fields, path: string, matchOn: seq<string>, prepend: bool)
    requires At(out, path) == Or(JoinedAt(was, now, path, matchOn, prepend), At(was + now, path))
    ensures ListsTogether(out, was, now, path, matchOn, prepend)
  {
    if At(was, path).Some? && At(was, path).value.List? && At(now, path).Some? && At(now, path).value.List? {
      var had, came := At(was, path).value.items, At(now, path).value.items;
      if NoField(matchOn, path) {
        NoneFound(matchOn, path);
      } else if FirstField(matchOn, path, "") {
        FieldFound(matchOn, path, "");
      }
      forall field | field != "" && FirstField(matchOn, path, field)
        ensures MatchField(matchOn, path) == field
        ensures (exists kept :: Left(kept, had, came, field) &&
                                Together(had, came, field, prepend) == if prepend then came + kept else kept + came)
        ensures NoneShare(had, field) && NoneShare(came, field) ==> NoneShare(Together(had, came, field, prepend), field)
      {
        FieldFound(matchOn, path, field);
        LeftOfThese(had, came, field, prepend);
      }
    }
  }

  /**
   After a reload, a list at a path that is labeled once has the answer's items whole, after those of the client's, or
   before them as the label says; and where the labels name a field of its items, without those of the client's that come
   again by it.
   */
  lemma ListsMerged(have: Json, got: Json, page: Labels, i: nat)
    requires have.Object? && got.Object?
    ensures var out, was, now := Merged(have, got, page, true).fields, have.fields, got.fields;
      && (i < |page.merge| && OnlyAt(page.merge, i, page.prepends, page.deepMerge) ==>
            ListsTogether(out, was, now, page.merge[i], page.matchOn, false))
      && (i < |page.prepends| && OnlyAt(page.prepends, i, page.merge, page.deepMerge) ==>
            ListsTogether(out, was, now, page.prepends[i], page.matchOn, true))
  {
    var out := Merged(have, got, page, true).fields;
    if i < |page.merge| && OnlyAt(page.merge, i, page.prepends, page.deepMerge) {
      AppendedThere(have, got, page, i);
      JoinedSays(out, have.fields, got.fields, page.merge[i], page.matchOn, false);
    }
    if i < |page.prepends| && OnlyAt(page.prepends, i, page.merge, page.deepMerge) {
      PrependedThere(have, got, page, i);
      JoinedSays(out, have.fields, got.fields, page.prepends[i], page.matchOn, true);
    }
  }
}
