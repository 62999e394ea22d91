/**
 inertia/props.go: which labels an answer has. Each list of them is exactly what the props noted, each at its place in
 the tree: worked out, or left out of a full visit, and asked for.
 */
module LabelPlaces {
  import opened Options
  import opened PropPaths
  import opened PropTree
  import opened PartialReloads

  /** A label of an answer, and the list it is in. */
  datatype Note =
    | Appends(name: string)
    | Prepends(name: string)
    | Deepens(name: string)
    | MatchesOn(name: string)
    | Defers(group: string, name: string)
    | Rescues(name: string)
    | Names(key: string)
    | NamesAs(key: string, once: Once)

  predicate Has(l: Labels, note: Note) {
    match note
    case Appends(name) => name in l.merge
    case Prepends(name) => name in l.prepends
    case Deepens(name) => name in l.deepMerge
    case MatchesOn(name) => name in l.matchOn
    case Defers(group, name) => group in l.deferred && name in l.deferred[group]
    case Rescues(name) => name in l.rescued
    case Names(key) => key in l.once
    case NamesAs(key, once) => key in l.once && l.once[key] == once
  }

  // What a prop notes, by what its app said of it.

  predicate AtOne(name: string, path: string, fields: seq<string>) {
    exists i :: 0 <= i < |fields| && name == path + "." + fields[i]
  }

  /** It merges as a whole: it is no scroll prop, and names no paths in it. */
  predicate Whole(b: Behavior) {
    !b.scroll && b.appendAt == [] && b.prependAt == []
  }

  /** How a merge prop at a path is merged: deep, or after or before what the client has, as a whole or at paths in it. */
  predicate HowMerged(rq: Request, b: Behavior, path: string, note: Note) {
    match note
    case Deepens(name) => b.deep && name == path
    case Appends(name) =>
      !b.deep &&
      if Whole(b) then !b.prepend && name == path
      else if b.scroll && !rq.prepend then name == path + ".data"
      else AtOne(name, path, b.appendAt)
    case Prepends(name) =>
      !b.deep &&
      if Whole(b) then b.prepend && name == path
      else if b.scroll && rq.prepend then name == path + ".data"
      else AtOne(name, path, b.prependAt)
    case MatchesOn(name) => AtOne(name, path, b.matchOn)
    case _ => false
  }

  function NameOf(b: Behavior, path: string): string {
    if b.onceKey != "" then b.onceKey else path
  }

  predicate HowNamed(b: Behavior, path: string, note: Note) {
    match note
    case Names(key) => b.once && key == NameOf(b, path)
    case NamesAs(key, once) => b.once && key == NameOf(b, path) && once == Once(path, b.expires)
    case _ => false
  }

  /** The client said it has the prop, and may keep it. */
  predicate MayKeep(rq: Request, b: Behavior, path: string) {
    b.once && !b.isFresh && NameOf(b, path) in rq.loaded
  }

  /** What a prop that is worked out, or left out of the first load alone, notes when it was asked for. */
  predicate NotesAsked(rq: Request, b: Behavior, path: string, note: Note) {
    Labeled(rq, path) && ((b.merge && path !in rq.reset && HowMerged(rq, b, path, note)) || HowNamed(b, path, note))
  }

  /** What a prop that a full visit leaves out notes. */
  predicate NotesLeftOut(rq: Request, e: Entry, path: string, note: Note) {
    && !rq.partial && e.node.Prop? && !e.node.made.Missing?
    && if e.node.b.firstLoad == Sent then
         rq.inertia && MayKeep(rq, e.node.b, path) && Labeled(rq, path) && HowNamed(e.node.b, path, note)
       else
         NotesAsked(rq, e.node.b, path, note)
         || (e.node.b.firstLoad == Deferred && !MayKeep(rq, e.node.b, path) && note == Defers(e.node.b.group, path))
  }

  predicate NotesWorked(rq: Request, e: Entry, path: string, whole: bool, note: Note) {
    && Kept(rq, e, path, whole) && e.node.Prop?
    && ((e.node.made.Made? && NotesAsked(rq, e.node.b, path, note)) || (e.node.made.Failed? && note == Rescues(path)))
  }

  /** What nests in a node: the props of a branch, or of what a prop is worked out to be. */
  function Nested(node: Node): (r: Option<Value>)
    ensures r.Some? ==> r.value.Branch?
  {
    match node
    case Plain(value) => if value.Branch? then Some(value) else None
    case Prop(_, Made(value)) => if value.Branch? then Some(value) else None
    case _ => None
  }

  /** A prop at a place notes it: in each level one of its entries, which is worked out on the way. */
  ghost predicate NotesAt(rq: Request, v: Value, prefix: string, whole: bool, place: seq<nat>, note: Note)
    requires v.Branch?
    decreases |place|
  {
    && place != [] && place[0] < |v.entries|
    && var e := v.entries[place[0]];
    var path := PathIn(prefix, e.key);
    if |place| == 1 then NotesLeftOut(rq, e, path, note) || NotesWorked(rq, e, path, whole, note)
    else
      && Kept(rq, e, path, whole) && Nested(e.node).Some?
      && NotesAt(rq, Nested(e.node).value, path, whole || e.node.Prop?, place[1..], note)
  }

  ghost predicate Somewhere(rq: Request, v: Value, prefix: string, whole: bool, note: Note)
    requires v.Branch?
  {
    exists place :: NotesAt(rq, v, prefix, whole, place, note)
  }

  // What each function that notes adds.

  /** after has what before has, and what is so noted; of the names of once props with what they name, at most that. */
  ghost predicate Adds(before: Labels, after: Labels, notes: Note -> bool) {
    && (forall note: Note :: Has(after, note) ==> Has(before, note) || notes(note))
    && (forall note: Note :: !note.NamesAs? && (Has(before, note) || notes(note)) ==> Has(after, note))
  }

  lemma AddsBoth(a: Labels, b: Labels, c: Labels, first: Note -> bool, second: Note -> bool, both: Note -> bool)
    requires Adds(a, b, first) && Adds(b, c, second) && forall note: Note :: both(note) <==> first(note) || second(note)
    ensures Adds(a, c, both)
  {
  }

  lemma InJoined(name: string, list: seq<string>, path: string, fields: seq<string>)
    ensures name in list + Joined(path, fields) <==> name in list || AtOne(name, path, fields)
    ensures name in list + [path] <==> name in list || name == path
  {
    var all := list + Joined(path, fields);
    if name in all {
      var k :| 0 <= k < |all| && all[k] == name;
      if k >= |list| {
        assert name == path + "." + fields[k - |list|];
      }
    }
    if AtOne(name, path, fields) {
      var i :| 0 <= i < |fields| && name == path + "." + fields[i];
      assert all[|list| + i] == name;
    }
  }

  lemma MergeAdds(rq: Request, b: Behavior, path: string, l: Labels)
    ensures Adds(l, MergeNoted(rq, b, path, l),
                 note => b.merge && path !in rq.reset && Labeled(rq, path) && HowMerged(rq, b, path, note))
  {
    if b.merge && path !in rq.reset && Labeled(rq, path) {
      forall note: Note
        ensures Has(MergeNoted(rq, b, path, l), note) <==> Has(l, note) || HowMerged(rq, b, path, note)
      {
        match note
        case Appends(name) => MergeAppends(rq, b, path, l, name);
        case Prepends(name) => MergePrepends(rq, b, path, l, name);
        case _ => MergeOther(rq, b, path, l, note);
      }
    }
  }

  lemma MergeAppends(rq: Request, b: Behavior, path: string, l: Labels, name: string)
    requires b.merge && path !in rq.reset && Labeled(rq, path)
    ensures name in MergeNoted(rq, b, path, l).merge <==> name in l.merge || HowMerged(rq, b, path, Appends(name))
  {
    InJoined(name, l.merge, path, if b.scroll && !rq.prepend then ["data"] else b.appendAt);
    DataPath(name, path);
  }

  lemma MergePrepends(rq: Request, b: Behavior, path: string, l: Labels, name: string)
    requires b.merge && path !in rq.reset && Labeled(rq, path)
    ensures name in MergeNoted(rq, b, path, l).prepends <==> name in l.prepends || HowMerged(rq, b, path, Prepends(name))
  {
    InJoined(name, l.prepends, path, if b.scroll && rq.prepend then ["data"] else b.prependAt);
    DataPath(name, path);
  }

  lemma MergeOther(rq: Request, b: Behavior, path: string, l: Labels, note: Note)
    requires b.merge && path !in rq.reset && Labeled(rq, path) && !note.Appends? && !note.Prepends?
    ensures Has(MergeNoted(rq, b, path, l), note) <==> Has(l, note) || HowMerged(rq, b, path, note)
  {
    if note.Deepens? {
      InJoined(note.name, l.deepMerge, path, []);
    } else if note.MatchesOn? {
      InJoined(note.name, l.matchOn, path, b.matchOn);
    }
  }

  lemma DataPath(name: string, path: string)
    ensures AtOne(name, path, ["data"]) <==> name == path + ".data"
    ensures !AtOne(name, path, [])
  {
    assert path + "." + "data" == path + ".data";
    if name == path + ".data" {
      assert ["data"][0] == "data";
    }
  }

  lemma OnceAdds(rq: Request, b: Behavior, path: string, l: Labels)
    ensures Adds(l, OnceNoted(rq, b, path, l), note => Labeled(rq, path) && HowNamed(b, path, note))
  {
  }

  lemma NotedAdds(rq: Request, b: Behavior, path: string, l: Labels)
    ensures Adds(l, PropTree.Noted(rq, b, path, l), note => NotesAsked(rq, b, path, note))
  {
    var m := MergeNoted(rq, b, path, l);
    MergeAdds(rq, b, path, l);
    OnceAdds(rq, b, path, m);
    AddsBoth(l, m, PropTree.Noted(rq, b, path, l),
             note => b.merge && path !in rq.reset && Labeled(rq, path) && HowMerged(rq, b, path, note),
             note => Labeled(rq, path) && HowNamed(b, path, note), note => NotesAsked(rq, b, path, note));
  }

  lemma DeferredAdds(rq: Request, b: Behavior, path: string, l: Labels)
    ensures Adds(l, DeferredNoted(rq, b, path, l),
                 note => b.firstLoad == Deferred && !MayKeep(rq, b, path) && note == Defers(b.group, path))
  {
    var m := DeferredNoted(rq, b, path, l);
    forall note: Note
      ensures Has(m, note) <==> Has(l, note) || (b.firstLoad == Deferred && !MayKeep(rq, b, path) && note == Defers(b.group, path))
    {
      if note.Defers? {
        InJoined(note.name, if b.group in l.deferred then l.deferred[b.group] else [], path, []);
      }
    }
  }

  lemma LeftOutAdds(rq: Request, e: Entry, path: string, l: Labels)
    ensures Adds(l, EntryLeftOut(rq, e, path, l), note => NotesLeftOut(rq, e, path, note))
  {
    if !rq.partial && e.node.Prop? && !e.node.made.Missing? {
      var b := e.node.b;
      if b.firstLoad == Sent {
        OnceAdds(rq, b, path, l);
      } else {
        var m := DeferredNoted(rq, b, path, l);
        DeferredAdds(rq, b, path, l);
        NotedAdds(rq, b, path, m);
        AddsBoth(l, m, PropTree.Noted(rq, b, path, m),
                 note => b.firstLoad == Deferred && !MayKeep(rq, b, path) && note == Defers(b.group, path),
                 note => NotesAsked(rq, b, path, note), note => NotesLeftOut(rq, e, path, note));
      }
    }
  }

  // Level by level.

  ghost predicate LeftOutIn(rq: Request, v: Value, prefix: string, n: nat, note: Note)
    requires v.Branch? && n <= |v.entries|
  {
    exists i :: 0 <= i < n && NotesLeftOut(rq, v.entries[i], PathIn(prefix, v.entries[i].key), note)
  }

  /** An entry notes it as it is worked out, or what nests in it does. */
  ghost predicate NotesInside(rq: Request, e: Entry, path: string, whole: bool, note: Note) {
    || NotesWorked(rq, e, path, whole, note)
    || (Kept(rq, e, path, whole) && Nested(e.node).Some?
        && Somewhere(rq, Nested(e.node).value, path, whole || e.node.Prop?, note))
  }

  ghost predicate InsideIn(rq: Request, v: Value, prefix: string, whole: bool, n: nat, note: Note)
    requires v.Branch? && n <= |v.entries|
  {
    exists i :: 0 <= i < n && NotesInside(rq, v.entries[i], PathIn(prefix, v.entries[i].key), whole, note)
  }

  lemma LeftOutInMore(rq: Request, v: Value, prefix: string, n: nat, note: Note)
    requires v.Branch? && n < |v.entries|
    ensures LeftOutIn(rq, v, prefix, n + 1, note) <==>
            LeftOutIn(rq, v, prefix, n, note) || NotesLeftOut(rq, v.entries[n], PathIn(prefix, v.entries[n].key), note)
  {
  }

  lemma InsideInMore(rq: Request, v: Value, prefix: string, whole: bool, n: nat, note: Note)
    requires v.Branch? && n < |v.entries|
    ensures InsideIn(rq, v, prefix, whole, n + 1, note) <==>
            InsideIn(rq, v, prefix, whole, n, note) || NotesInside(rq, v.entries[n], PathIn(prefix, v.entries[n].key), whole, note)
  {
  }

  lemma {:induction false} AllLeftOutAdd(rq: Request, v: Value, n: nat, prefix: string, l: Labels)
    requires v.Branch? && n <= |v.entries|
    ensures Adds(l, LeftOutLabels(rq, v, n, prefix, l), note => LeftOutIn(rq, v, prefix, n, note))
    decreases n
  {
    if n > 0 {
      var e := v.entries[n - 1];
      var m := LeftOutLabels(rq, v, n - 1, prefix, l);
      AllLeftOutAdd(rq, v, n - 1, prefix, l);
      LeftOutAdds(rq, e, PathIn(prefix, e.key), m);
      forall note: Note
        ensures LeftOutIn(rq, v, prefix, n, note) <==>
                LeftOutIn(rq, v, prefix, n - 1, note) || NotesLeftOut(rq, e, PathIn(prefix, e.key), note)
      {
        LeftOutInMore(rq, v, prefix, n - 1, note);
      }
      AddsBoth(l, m, LeftOutLabels(rq, v, n, prefix, l), note => LeftOutIn(rq, v, prefix, n - 1, note),
               note => NotesLeftOut(rq, e, PathIn(prefix, e.key), note), note => LeftOutIn(rq, v, prefix, n, note));
    }
  }

  lemma {:induction false} LevelAdds(rq: Request, v: Value, n: nat, prefix: string, whole: bool, l: Labels)
    requires v.Branch? && n <= |v.entries|
    ensures Adds(l, LevelLabels(rq, v, n, prefix, whole, l), note => InsideIn(rq, v, prefix, whole, n, note))
    decreases v, 0, n
  {
    if n > 0 {
      var e := v.entries[n - 1];
      var m := LevelLabels(rq, v, n - 1, prefix, whole, l);
      LevelAdds(rq, v, n - 1, prefix, whole, l);
      EntryAdds(rq, v, n - 1, prefix, whole, m);
      forall note: Note
        ensures InsideIn(rq, v, prefix, whole, n, note) <==>
                InsideIn(rq, v, prefix, whole, n - 1, note) || NotesInside(rq, e, PathIn(prefix, e.key), whole, note)
      {
        InsideInMore(rq, v, prefix, whole, n - 1, note);
      }
      AddsBoth(l, m, LevelLabels(rq, v, n, prefix, whole, l), note => InsideIn(rq, v, prefix, whole, n - 1, note),
               note => NotesInside(rq, e, PathIn(prefix, e.key), whole, note), note => InsideIn(rq, v, prefix, whole, n, note));
    }
  }

  lemma {:induction false} EntryAdds(rq: Request, v: Value, i: nat, prefix: string, whole: bool, l: Labels)
    requires v.Branch? && i < |v.entries|
    ensures var e := v.entries[i];
      Adds(l, EntryLabels(rq, v, i, prefix, whole, l), note => NotesInside(rq, e, PathIn(prefix, e.key), whole, note))
    decreases v, 0, 0
  {
    var e := v.entries[i];
    var path := PathIn(prefix, e.key);
    if Kept(rq, e, path, whole) {
      var inner := whole || e.node.Prop?;
      var m := if e.node.Prop? && e.node.made.Made? then PropTree.Noted(rq, e.node.b, path, l) else l;
      if e.node.Prop? && e.node.made.Made? {
        NotedAdds(rq, e.node.b, path, l);
      }
      if e.node.Prop? && e.node.made.Failed? {
        RescueAdds(path, l);
      } else if Nested(e.node).Some? {
        var under := Nested(e.node).value;
        ValueAdds(rq, under, path, inner, m);
        AddsBoth(l, m, ValueLabels(rq, under, path, inner, m), note => NotesWorked(rq, e, path, whole, note),
                 note => Somewhere(rq, under, path, inner, note),
                 note => NotesInside(rq, e, path, whole, note));
      } else {
        forall note: Note
          ensures NotesInside(rq, e, path, whole, note) <==> e.node.Prop? && NotesAsked(rq, e.node.b, path, note)
        {
        }
        assert EntryLabels(rq, v, i, prefix, whole, l) == m;
        if e.node.Prop? {
          AddsBoth(l, m, m, note => NotesAsked(rq, e.node.b, path, note), note => false,
                   note => NotesInside(rq, e, path, whole, note));
        }
      }
    }
  }

  lemma RescueAdds(path: string, l: Labels)
    ensures Adds(l, l.(rescued := l.rescued + [path]), note => note == Rescues(path))
  {
    forall note: Note
      ensures Has(l.(rescued := l.rescued + [path]), note) <==> Has(l, note) || note == Rescues(path)
    {
      if note.Rescues? {
        InJoined(note.name, l.rescued, path, []);
      }
    }
  }

  lemma PlaceIsIn(rq: Request, v: Value, prefix: string, whole: bool, place: seq<nat>, note: Note)
    requires v.Branch? && NotesAt(rq, v, prefix, whole, place, note)
    ensures LeftOutIn(rq, v, prefix, |v.entries|, note) || InsideIn(rq, v, prefix, whole, |v.entries|, note)
  {
    var e := v.entries[place[0]];
    var path := PathIn(prefix, e.key);
    if |place| > 1 {
      assert NotesAt(rq, Nested(e.node).value, path, whole || e.node.Prop?, place[1..], note);
      assert NotesInside(rq, e, path, whole, note);
    } else if NotesLeftOut(rq, e, path, note) {
      assert LeftOutIn(rq, v, prefix, |v.entries|, note);
    } else {
      assert NotesInside(rq, e, path, whole, note);
    }
  }

  lemma InsideIsPlace(rq: Request, v: Value, prefix: string, whole: bool, i: nat, note: Note)
    requires v.Branch? && i < |v.entries| && NotesInside(rq, v.entries[i], PathIn(prefix, v.entries[i].key), whole, note)
    ensures Somewhere(rq, v, prefix, whole, note)
  {
    var e := v.entries[i];
    var path := PathIn(prefix, e.key);
    if NotesWorked(rq, e, path, whole, note) {
      assert NotesAt(rq, v, prefix, whole, [i], note);
    } else {
      var place :| NotesAt(rq, Nested(e.node).value, path, whole || e.node.Prop?, place, note);
      assert ([i] + place)[1..] == place;
      assert NotesAt(rq, v, prefix, whole, [i] + place, note);
    }
  }

  /** A place of a level is one of its entries', or a place inside one. */
  lemma PlacesOf(rq: Request, v: Value, prefix: string, whole: bool, note: Note)
    requires v.Branch?
    ensures Somewhere(rq, v, prefix, whole, note) <==>
            LeftOutIn(rq, v, prefix, |v.entries|, note) || InsideIn(rq, v, prefix, whole, |v.entries|, note)
  {
    if Somewhere(rq, v, prefix, whole, note) {
      var place :| NotesAt(rq, v, prefix, whole, place, note);
      PlaceIsIn(rq, v, prefix, whole, place, note);
    }
    if LeftOutIn(rq, v, prefix, |v.entries|, note) {
      var i :| 0 <= i < |v.entries| && NotesLeftOut(rq, v.entries[i], PathIn(prefix, v.entries[i].key), note);
      assert NotesAt(rq, v, prefix, whole, [i], note);
    }
    if InsideIn(rq, v, prefix, whole, |v.entries|, note) {
      var i :| 0 <= i < |v.entries| && NotesInside(rq, v.entries[i], PathIn(prefix, v.entries[i].key), whole, note);
      InsideIsPlace(rq, v, prefix, whole, i, note);
    }
  }

  lemma {:induction false} ValueAdds(rq: Request, v: Value, prefix: string, whole: bool, l: Labels)
    requires v.Branch?
    ensures Adds(l, ValueLabels(rq, v, prefix, whole, l), note => Somewhere(rq, v, prefix, whole, note))
    decreases v, 1, 0
  {
    var m := LeftOutLabels(rq, v, |v.entries|, prefix, l);
    AllLeftOutAdd(rq, v, |v.entries|, prefix, l);
    LevelAdds(rq, v, |v.entries|, prefix, whole, m);
    forall note: Note
      ensures Somewhere(rq, v, prefix, whole, note) <==>
              LeftOutIn(rq, v, prefix, |v.entries|, note) || InsideIn(rq, v, prefix, whole, |v.entries|, note)
    {
      PlacesOf(rq, v, prefix, whole, note);
    }
    AddsBoth(l, m, ValueLabels(rq, v, prefix, whole, l), note => LeftOutIn(rq, v, prefix, |v.entries|, note),
             note => InsideIn(rq, v, prefix, whole, |v.entries|, note),
             note => Somewhere(rq, v, prefix, whole, note));
  }

  /**
   Every label of an answer is noted by a prop at a place of its tree, and every label that is noted there is one of the
   answer's, in the list that its app's word for it says; and what is named of a once prop is so at its path.
   */
  lemma LabelsExactly(rq: Request, v: Value, note: Note)
    requires v.Branch?
    ensures var noted := Somewhere(rq, v, "", false, note);
      && (Has(ValueLabels(rq, v, "", false, NONE), note) ==> noted)
      && (noted && !note.NamesAs? ==> Has(ValueLabels(rq, v, "", false, NONE), note))
  {
    ValueAdds(rq, v, "", false, NONE);
    ghost var notes: Note -> bool := n => Somewhere(rq, v, "", false, n);
    assert Has(ValueLabels(rq, v, "", false, NONE), note) ==> Has(NONE, note) || notes(note);
    assert !note.NamesAs? && notes(note) ==> Has(ValueLabels(rq, v, "", false, NONE), note);
  }

  // Of a partial reload, by keys.

  /** The node at a place of a tree: in each level, one of its entries. */
  function NodeOn(v: Value, place: seq<nat>): Option<Node>
    requires v.Branch?
    decreases |place|
  {
    if place == [] || place[0] >= |v.entries| then None
    else
      var node := v.entries[place[0]].node;
      if |place| == 1 then Some(node)
      else if Nested(node).None? then None
      else NodeOn(Nested(node).value, place[1..])
  }

  /** The keys on the way to a place, and the path that the resolver makes of them. */
  function KeysTo(v: Value, place: seq<nat>): Keys
    requires v.Branch? && NodeOn(v, place).Some?
    decreases |place|
  {
    var e := v.entries[place[0]];
    [e.key] + if |place| == 1 then [] else KeysTo(Nested(e.node).value, place[1..])
  }

  function PathTo(v: Value, place: seq<nat>, prefix: string): string
    requires v.Branch? && NodeOn(v, place).Some?
    decreases |place|
  {
    var e := v.entries[place[0]];
    var path := PathIn(prefix, e.key);
    if |place| == 1 then path else PathTo(Nested(e.node).value, place[1..], path)
  }

  /** The path of a place is its keys joined, where they have no dots and the first is not empty. */
  lemma {:induction false} PathIsKeys(v: Value, place: seq<nat>, pre: Keys)
    requires v.Branch? && NodeOn(v, place).Some? && (pre + KeysTo(v, place))[0] != ""
    ensures PathTo(v, place, Join(pre)) == Join(pre + KeysTo(v, place))
    decreases |place|
  {
    var e := v.entries[place[0]];
    var here := pre + [e.key];
    assert pre != [] ==> (pre + KeysTo(v, place))[0] == pre[0];
    PathJoins(pre, e.key);
    if |place| > 1 {
      var inner := Nested(e.node).value;
      assert here + KeysTo(inner, place[1..]) == pre + KeysTo(v, place);
      PathIsKeys(inner, place[1..], here);
    } else {
      assert KeysTo(v, place) == [e.key];
    }
  }

  /** What is noted at a place of how a prop is merged, or what it is named by, its prop was asked for. */
  lemma {:induction false} NotesAsAsked(rq: Request, v: Value, prefix: string, whole: bool, place: seq<nat>, note: Note)
    requires v.Branch? && NotesAt(rq, v, prefix, whole, place, note) && !note.Defers? && !note.Rescues?
    ensures NodeOn(v, place).Some? && NodeOn(v, place).value.Prop?
    ensures NotesAsked(rq, NodeOn(v, place).value.b, PathTo(v, place, prefix), note)
    decreases |place|
  {
    if |place| > 1 {
      var e := v.entries[place[0]];
      NotesAsAsked(rq, Nested(e.node).value, PathIn(prefix, e.key), whole || e.node.Prop?, place[1..], note);
    }
  }

  ghost predicate KeysAsked(rq: Request, v: Value, place: seq<nat>)
    requires v.Branch? && NodeOn(v, place).Some?
  {
    var ks := KeysTo(v, place);
    DotFree(ks) && ks[0] != "" ==> Asked(rq.only, ks) && !Excepted(rq.except, ks)
  }

  /** A label of a partial reload that says how a prop is merged, or names it, is of a prop of the tree whose keys were asked for. */
  lemma LabelsByKeys(rq: Request, v: Value, note: Note)
    requires rq.partial && v.Branch? && !note.Defers? && !note.Rescues? && Has(ValueLabels(rq, v, "", false, NONE), note)
    ensures exists place :: NotesAt(rq, v, "", false, place, note) && NodeOn(v, place).Some? && KeysAsked(rq, v, place)
  {
    LabelsExactly(rq, v, note);
    var place :| NotesAt(rq, v, "", false, place, note);
    NotesAsAsked(rq, v, "", false, place, note);
    var ks := KeysTo(v, place);
    if DotFree(ks) && ks[0] != "" {
      assert [] + ks == ks;
      PathIsKeys(v, place, []);
      LabeledByKeys(rq, ks);
    }
  }

  /** A prop that goes out notes what it was asked for. */
  lemma {:induction false} GoesNotes(rq: Request, v: Value, pre: Keys, ks: Keys, note: Note)
    requires rq.partial && v.Branch? && Tidy(v, |v.entries|) && ks != [] && NodeAt(v, ks).Some? && AllGo(rq, v, pre, ks)
    requires Passed(rq, pre) && DotFree(pre) && (if pre == [] then |ks| == 1 || ks[0] != "" else pre[0] != "")
    requires NodeAt(v, ks).value.Prop? && NodeAt(v, ks).value.made.Made?
    requires NotesAsked(rq, NodeAt(v, ks).value.b, Join(pre + ks), note)
    ensures Somewhere(rq, v, Join(pre), false, note)
    decreases |ks|
  {
    var i := IndexOf(v, ks[0], |v.entries|).value;
    var e := v.entries[i];
    var here := pre + [ks[0]];
    KeptOnTheWay(rq, v, pre, i);
    if |ks| == 1 {
      assert ks == [ks[0]];
      assert NotesAt(rq, v, Join(pre), false, [i], note);
    } else {
      assert pre + ks == here + ks[1..];
      PassedHere(rq, here, e.node);
      GoesNotes(rq, e.node.value, here, ks[1..], note);
      InsideIsPlace(rq, v, Join(pre), false, i, note);
    }
  }

  lemma KeptOnTheWay(rq: Request, v: Value, pre: Keys, i: nat)
    requires rq.partial && v.Branch? && Tidy(v, |v.entries|) && i < |v.entries|
    requires Passed(rq, pre) && DotFree(pre) && (pre != [] ==> pre[0] != "")
    ensures var e := v.entries[i];
      var here := pre + [e.key];
      && '.' !in e.key && TidyEntry(v, i) && PathIn(Join(pre), e.key) == Join(here)
      && (Kept(rq, e, Join(here), false) <==> Goes(rq, here, e.node))
  {
    TidyBelow(v, |v.entries|, i);
    KeptJudged(rq, v.entries[i], pre);
    PathJoins(pre, v.entries[i].key);
  }

  /** So a merge prop that goes out, was asked for and is not being reset has its labels, each in the list it is for. */
  lemma AskedForIsLabeled(rq: Request, v: Value, ks: Keys, note: Note)
    requires rq.partial && v.Branch? && Tidy(v, |v.entries|) && ks != [] && NodeAt(v, ks).Some? && (|ks| == 1 || ks[0] != "")
    requires NodeAt(v, ks).value.Prop? && NodeAt(v, ks).value.made.Made? && Goes(rq, ks, NodeAt(v, ks).value) && DotFree(ks)
    requires Asked(rq.only, ks) && !Excepted(rq.except, ks)
    ensures var b, l := NodeAt(v, ks).value.b, ValueLabels(rq, v, "", false, NONE);
      && (b.merge && Join(ks) !in rq.reset && HowMerged(rq, b, Join(ks), note) ==> Has(l, note))
      && (b.once ==> (if b.onceKey != "" then b.onceKey else Join(ks)) in l.once)
  {
    assert [] + ks == ks;
    AllGoJudgedAlone(rq, v, [], ks);
    LabeledByKeys(rq, ks);
    var b := NodeAt(v, ks).value.b;
    if b.merge && Join(ks) !in rq.reset && HowMerged(rq, b, Join(ks), note) {
      GoesNotes(rq, v, [], ks, note);
      LabelsExactly(rq, v, note);
    }
    if b.once {
      var named := Names(if b.onceKey != "" then b.onceKey else Join(ks));
      GoesNotes(rq, v, [], ks, named);
      LabelsExactly(rq, v, named);
    }
  }

  /**
   What a full visit sends under a key: data as it is, and a prop that is part of the first load, unless the client said it
   has it and may keep it; and no other.
   */
  lemma VisitSends(rq: Request, v: Value, prefix: string, i: nat, out: map<string, Json>)
    requires !rq.partial && v.Branch? && KeysApart(v) && i < |v.entries| && LevelOut(rq, v, |v.entries|, prefix, false) == Some(out)
    ensures var key := v.entries[i].key;
      match v.entries[i].node
      case Plain(Data(json)) => key in out && out[key] == json
      case Plain(Branch(_)) => key in out && out[key].Object?
      case Prop(b, Made(Data(json))) =>
        var named := if b.onceKey != "" then b.onceKey else PathIn(prefix, key);
        if b.firstLoad == Sent && !(rq.inertia && b.once && !b.isFresh && named in rq.loaded) then key in out && out[key] == json
        else key !in out
      case Prop(b, Made(Branch(_))) =>
        b.firstLoad != Sent ==> key !in out
      case Prop(_, _) => key !in out
  {
    SentUnderKey(rq, v, |v.entries|, prefix, false, i);
  }
}
