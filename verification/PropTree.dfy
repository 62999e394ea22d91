/**
 inertia/props.go: a page's props, a tree of plain data and props that say how they take part, and the resolver that
 works them out level by level for one request.
 */
module PropTree {
  import opened Options
  import opened PropPaths

  datatype Json = Null | Atom(n: int) | List(items: seq<Json>) | Object(fields: map<string, Json>)

  datatype FirstLoad = Sent | Optional | Deferred

  datatype Behavior = Behavior(firstLoad: FirstLoad, always: bool, group: string, rescue: bool,
                               merge: bool, deep: bool, prepend: bool, appendAt: seq<string>, prependAt: seq<string>,
                               matchOn: seq<string>, once: bool, onceKey: string, expires: Option<int>, isFresh: bool,
                               scroll: bool)

  /** What a prop's function gives: nothing to call, an error, or a value. */
  datatype Made = Missing | Failed | Made(value: Value)

  datatype Node = Plain(value: Value) | Prop(b: Behavior, made: Made)

  datatype Entry = Entry(key: string, node: Node)

  /** Data goes out as it is; a branch is a map or a struct that props nest in. */
  datatype Value = Data(json: Json) | Branch(entries: seq<Entry>)

  datatype Request = Request(partial: bool, inertia: bool, only: Option<seq<string>>, except: Option<seq<string>>,
                             reset: seq<string>, loaded: seq<string>, prepend: bool)

  datatype Once = Once(path: string, expires: Option<int>)

  datatype Labels = Labels(deferred: map<string, seq<string>>, rescued: seq<string>, merge: seq<string>,
                           prepends: seq<string>, deepMerge: seq<string>, matchOn: seq<string>, once: map<string, Once>)

  const NONE: Labels := Labels(map[], [], [], [], [], [], map[])

  predicate PathWanted(rq: Request, path: string) {
    && (rq.only.Some? ==> Within(path, rq.only.value) || LeadsTo(path, rq.only.value))
    && (rq.except.Some? ==> !Within(path, rq.except.value))
  }

  predicate Labeled(rq: Request, path: string) {
    rq.partial ==>
      && (rq.only.Some? ==> Within(path, rq.only.value))
      && (rq.except.Some? ==> !Within(path, rq.except.value))
  }

  function OnceKey(b: Behavior, path: string): string {
    if b.onceKey != "" then b.onceKey else path
  }

  predicate ClientHas(rq: Request, b: Behavior, path: string) {
    b.once && !b.isFresh && OnceKey(b, path) in rq.loaded
  }

  /** leftOutOfFirstLoad, of a full visit. */
  predicate LeftOut(rq: Request, b: Behavior, path: string) {
    b.firstLoad != Sent || (rq.inertia && ClientHas(rq, b, path))
  }

  /** Whether an entry of a level is kept, to be worked out. */
  predicate Kept(rq: Request, e: Entry, path: string, whole: bool) {
    && !(e.node.Prop? && e.node.made.Missing?)
    && (rq.partial && !whole ==> (e.node.Prop? && e.node.b.always) || path == "errors" || PathWanted(rq, path))
    && (!rq.partial && e.node.Prop? ==> !LeftOut(rq, e.node.b, path))
  }

  // What goes out.

  /** What comes of an entry: the page fails, or nothing goes out, or its value. */
  datatype Outcome = Fails | Nothing | Sends(json: Json)

  function EntryOut(rq: Request, v: Value, i: nat, prefix: string, whole: bool): Outcome
    requires v.Branch? && i < |v.entries|
    decreases v, 0, 0
  {
    var e := v.entries[i];
    var path := PathIn(prefix, e.key);
    if !Kept(rq, e, path, whole) then Nothing
    else
      match e.node
      case Plain(value) => ValueOut(rq, value, path, whole)
      case Prop(b, made) =>
        if made.Failed? then if b.rescue then Nothing else Fails
        else ValueOut(rq, made.value, path, true)
  }

  function ValueOut(rq: Request, v: Value, path: string, whole: bool): Outcome
    decreases v, 2, 0
  {
    if v.Data? then Sends(v.json)
    else
      var out := LevelOut(rq, v, |v.entries|, path, whole);
      if out.None? then Fails else Sends(Object(out.value))
  }

  /** The first n entries of a level, worked out; none when one fails. */
  function LevelOut(rq: Request, v: Value, n: nat, prefix: string, whole: bool): Option<map<string, Json>>
    requires v.Branch? && n <= |v.entries|
    decreases v, 1, n
  {
    if n == 0 then Some(map[])
    else
      var before := LevelOut(rq, v, n - 1, prefix, whole);
      var last := EntryOut(rq, v, n - 1, prefix, whole);
      if before.None? || last.Fails? then None
      else if last.Nothing? then before
      else Some(before.value[v.entries[n - 1].key := last.json])
  }

  // The labels the client gets with it.

  function Joined(path: string, fields: seq<string>): (s: seq<string>)
    ensures |s| == |fields| && forall i :: 0 <= i < |s| ==> s[i] == path + "." + fields[i]
  {
    if fields == [] then [] else [path + "." + fields[0]] + Joined(path, fields[1..])
  }

  function MergeNoted(rq: Request, b: Behavior, path: string, l: Labels): Labels {
    if !b.merge || path in rq.reset || !Labeled(rq, path) then l
    else
      var appendAt := if b.scroll && !rq.prepend then ["data"] else b.appendAt;
      var prependAt := if b.scroll && rq.prepend then ["data"] else b.prependAt;
      var l1 :=
        if b.deep then l.(deepMerge := l.deepMerge + [path])
        else if appendAt != [] || prependAt != [] then
          l.(merge := l.merge + Joined(path, appendAt), prepends := l.prepends + Joined(path, prependAt))
        else if b.prepend then l.(prepends := l.prepends + [path])
        else l.(merge := l.merge + [path]);
      l1.(matchOn := l1.matchOn + Joined(path, b.matchOn))
  }

  function OnceNoted(rq: Request, b: Behavior, path: string, l: Labels): Labels {
    if !b.once || !Labeled(rq, path) then l else l.(once := l.once[OnceKey(b, path) := Once(path, b.expires)])
  }

  function Noted(rq: Request, b: Behavior, path: string, l: Labels): Labels {
    OnceNoted(rq, b, path, MergeNoted(rq, b, path, l))
  }

  /** A deferred prop that the client has yet to get is named for it to fetch. */
  function DeferredNoted(rq: Request, b: Behavior, path: string, l: Labels): Labels {
    if b.firstLoad != Deferred || ClientHas(rq, b, path) then l
    else l.(deferred := l.deferred[b.group := (if b.group in l.deferred then l.deferred[b.group] else []) + [path]])
  }

  /** What is noted of a prop that a full visit leaves out. */
  function LeftOutNoted(rq: Request, b: Behavior, path: string, l: Labels): Labels {
    if b.firstLoad == Sent then OnceNoted(rq, b, path, l) else Noted(rq, b, path, DeferredNoted(rq, b, path, l))
  }

  function EntryLeftOut(rq: Request, e: Entry, path: string, l: Labels): Labels {
    if !rq.partial && e.node.Prop? && !e.node.made.Missing? && LeftOut(rq, e.node.b, path)
    then LeftOutNoted(rq, e.node.b, path, l)
    else l
  }

  /** The labels after the first n entries of a level were kept or left out. */
  function LeftOutLabels(rq: Request, v: Value, n: nat, prefix: string, l: Labels): Labels
    requires v.Branch? && n <= |v.entries|
  {
    if n == 0 then l
    else
      var e := v.entries[n - 1];
      EntryLeftOut(rq, e, PathIn(prefix, e.key), LeftOutLabels(rq, v, n - 1, prefix, l))
  }

  function EntryLabels(rq: Request, v: Value, i: nat, prefix: string, whole: bool, l: Labels): Labels
    requires v.Branch? && i < |v.entries|
    decreases v, 0, 0
  {
    var e := v.entries[i];
    var path := PathIn(prefix, e.key);
    if !Kept(rq, e, path, whole) then l
    else
      match e.node
      case Plain(value) => ValueLabels(rq, value, path, whole, l)
      case Prop(b, made) =>
        if made.Failed? then l.(rescued := l.rescued + [path])
        else ValueLabels(rq, made.value, path, true, Noted(rq, b, path, l))
  }

  function ValueLabels(rq: Request, v: Value, path: string, whole: bool, l: Labels): Labels
    decreases v, 2, 0
  {
    if v.Data? then l
    else LevelLabels(rq, v, |v.entries|, path, whole, LeftOutLabels(rq, v, |v.entries|, path, l))
  }

  /** The labels after the first n entries of a level were worked out. */
  function LevelLabels(rq: Request, v: Value, n: nat, prefix: string, whole: bool, l: Labels): Labels
    requires v.Branch? && n <= |v.entries|
    decreases v, 1, n
  {
    if n == 0 then l else EntryLabels(rq, v, n - 1, prefix, whole, LevelLabels(rq, v, n - 1, prefix, whole, l))
  }

  /** The resolver, which appends to its labels as it works a page's props out. */
  class Resolver {
    const rq: Request
    var deferred: map<string, seq<string>>
    var rescued: seq<string>
    var merge: seq<string>
    var prepends: seq<string>
    var deepMerge: seq<string>
    var matchOn: seq<string>
    var once: map<string, Once>

    ghost function Noted(): Labels
      reads this
    {
      Labels(deferred, rescued, merge, prepends, deepMerge, matchOn, once)
    }

    constructor (rq: Request)
      ensures this.rq == rq && Noted() == NONE
    {
      this.rq := rq;
      deferred, rescued, merge, prepends, deepMerge, matchOn, once := map[], [], [], [], [], [], map[];
    }

    method CollectMerge(b: Behavior, path: string)
      modifies this
      ensures Noted() == MergeNoted(rq, b, path, old(Noted()))
    {
      if !b.merge || path in rq.reset || !Labeled(rq, path) {
        return;
      }
      var appendAt, prependAt := b.appendAt, b.prependAt;
      if b.scroll {
        if rq.prepend {
          prependAt := ["data"];
        } else {
          appendAt := ["data"];
        }
      }
      if b.deep {
        deepMerge := deepMerge + [path];
      } else if appendAt == [] && prependAt == [] && !b.prepend {
        merge := merge + [path];
      } else if appendAt == [] && prependAt == [] {
        prepends := prepends + [path];
      } else {
        merge := merge + Joined(path, appendAt);
        prepends := prepends + Joined(path, prependAt);
      }
      matchOn := matchOn + Joined(path, b.matchOn);
    }

    method CollectOnce(b: Behavior, path: string)
      modifies this
      ensures Noted() == OnceNoted(rq, b, path, old(Noted()))
    {
      if b.once && Labeled(rq, path) {
        once := once[OnceKey(b, path) := Once(path, b.expires)];
      }
    }

    method LeftOutOfFirstLoad(b: Behavior, path: string) returns (left: bool)
      modifies this
      ensures left == LeftOut(rq, b, path)
      ensures Noted() == if left then LeftOutNoted(rq, b, path, old(Noted())) else old(Noted())
    {
      if b.firstLoad == Optional || b.firstLoad == Deferred {
        if b.firstLoad == Deferred && !ClientHas(rq, b, path) {
          deferred := deferred[b.group := (if b.group in deferred then deferred[b.group] else []) + [path]];
        }
        CollectMerge(b, path);
        CollectOnce(b, path);
        return true;
      }
      if rq.inertia && ClientHas(rq, b, path) {
        CollectOnce(b, path);
        return true;
      }
      return false;
    }

    /** Works out the props at one level of the tree, below prefix. */
    method Level(v: Value, prefix: string, whole: bool) returns (out: Option<map<string, Json>>)
      requires v.Branch?
      modifies this
      ensures out == LevelOut(rq, v, |v.entries|, prefix, whole)
      ensures out.Some? ==> Noted() == ValueLabels(rq, v, prefix, whole, old(Noted()))
      decreases v, 1
    {
      var kept: seq<bool> := [];
      for i := 0 to |v.entries|
        invariant |kept| == i
        invariant forall k :: 0 <= k < i ==> kept[k] == Kept(rq, v.entries[k], PathIn(prefix, v.entries[k].key), whole)
        invariant Noted() == LeftOutLabels(rq, v, i, prefix, old(Noted()))
      {
        var keep := Keep(v.entries[i], PathIn(prefix, v.entries[i].key), whole);
        kept := kept + [keep];
      }
      ghost var noted := Noted();
      var fields: map<string, Json> := map[];
      for i := 0 to |v.entries|
        invariant LevelOut(rq, v, i, prefix, whole) == Some(fields)
        invariant Noted() == LevelLabels(rq, v, i, prefix, whole, noted)
      {
        if kept[i] {
          var sent := Work(v, i, prefix, whole);
          if sent.Fails? {
            LevelFails(rq, v, i + 1, prefix, whole);
            return None;
          }
          if sent.Sends? {
            fields := fields[v.entries[i].key := sent.json];
          }
        }
      }
      out := Some(fields);
    }

    /** The checks an entry passes to be kept, and what is noted of a prop that is not. */
    method Keep(e: Entry, path: string, whole: bool) returns (keep: bool)
      modifies this
      ensures keep == Kept(rq, e, path, whole)
      ensures Noted() == EntryLeftOut(rq, e, path, old(Noted()))
    {
      if e.node.Prop? && e.node.made.Missing? {
        return false;
      }
      if rq.partial && !whole && !(e.node.Prop? && e.node.b.always) && path != "errors" && !PathWanted(rq, path) {
        return false;
      }
      if !rq.partial && e.node.Prop? {
        var left := LeftOutOfFirstLoad(e.node.b, path);
        return !left;
      }
      return true;
    }

    /** An entry that is kept, worked out. */
    method Work(v: Value, i: nat, prefix: string, whole: bool) returns (sent: Outcome)
      requires v.Branch? && i < |v.entries| && Kept(rq, v.entries[i], PathIn(prefix, v.entries[i].key), whole)
      modifies this
      ensures sent == EntryOut(rq, v, i, prefix, whole)
      ensures !sent.Fails? ==> Noted() == EntryLabels(rq, v, i, prefix, whole, old(Noted()))
      decreases v, 0
    {
      var path := PathIn(prefix, v.entries[i].key);
      match v.entries[i].node
      case Plain(value) =>
        sent := Worth(value, path, whole);
      case Prop(b, made) =>
        if made.Failed? {
          if !b.rescue {
            return Fails;
          }
          rescued := rescued + [path];
          return Nothing;
        }
        CollectMerge(b, path);
        CollectOnce(b, path);
        sent := Worth(made.value, path, true);
    }

    /** A value as it goes out, with the props nested in it worked out. */
    method Worth(v: Value, path: string, whole: bool) returns (sent: Outcome)
      modifies this
      ensures sent == ValueOut(rq, v, path, whole)
      ensures !sent.Fails? ==> Noted() == ValueLabels(rq, v, path, whole, old(Noted()))
      decreases v, 2
    {
      if v.Data? {
        return Sends(v.json);
      }
      var out := Level(v, path, whole);
      sent := if out.None? then Fails else Sends(Object(out.value));
    }
  }

  lemma {:induction false} LevelFails(rq: Request, v: Value, n: nat, prefix: string, whole: bool)
    requires v.Branch? && n <= |v.entries| && LevelOut(rq, v, n, prefix, whole).None?
    ensures LevelOut(rq, v, |v.entries|, prefix, whole).None?
    decreases |v.entries| - n
  {
    if n < |v.entries| {
      LevelFails(rq, v, n + 1, prefix, whole);
    }
  }

  // What is at a key.

  /** The value at a list of keys of what went out. */
  function AtKeys(fields: map<string, Json>, ks: Keys): Option<Json>
    requires ks != []
    decreases |ks|
  {
    if ks[0] !in fields then None
    else if |ks| == 1 then Some(fields[ks[0]])
    else if fields[ks[0]].Object? then AtKeys(fields[ks[0]].fields, ks[1..])
    else None
  }

  /** No two entries of a level have the same key. */
  predicate KeysApart(v: Value)
    requires v.Branch?
  {
    forall i, j :: 0 <= i < j < |v.entries| ==> v.entries[i].key != v.entries[j].key
  }

  /** What went out under a key is what its entry came to. */
  lemma {:induction false} SentUnderKey(rq: Request, v: Value, n: nat, prefix: string, whole: bool, i: nat)
    requires v.Branch? && KeysApart(v) && i < n <= |v.entries| && LevelOut(rq, v, n, prefix, whole).Some?
    ensures var out, sent, key := LevelOut(rq, v, n, prefix, whole).value, EntryOut(rq, v, i, prefix, whole), v.entries[i].key;
      !sent.Fails? && (key in out <==> sent.Sends?) && (sent.Sends? ==> out[key] == sent.json)
    decreases n
  {
    if i < n - 1 {
      SentUnderKey(rq, v, n - 1, prefix, whole, i);
    } else {
      NothingElseSent(rq, v, n - 1, prefix, whole);
    }
  }

  lemma {:induction false} NothingElseSent(rq: Request, v: Value, n: nat, prefix: string, whole: bool)
    requires v.Branch? && n <= |v.entries| && LevelOut(rq, v, n, prefix, whole).Some?
    ensures forall key :: key in LevelOut(rq, v, n, prefix, whole).value ==> exists i :: 0 <= i < n && v.entries[i].key == key
    decreases n
  {
    if n > 0 {
      NothingElseSent(rq, v, n - 1, prefix, whole);
      assert v.entries[n - 1].key == v.entries[n - 1].key;
    }
  }
}
