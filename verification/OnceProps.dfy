/**
 inertia/props.go and tugtest/tugtest.go: once props, which the client says it has, the server leaves out, and the client
 puts back: a cache, whose pages are those of a client that holds nothing, and exactly when they are.
 */
module OnceProps {
  import opened Options
  import opened PropPaths
  import opened PropTree
  import opened PageMerge
  import PartialReloads

  datatype KeptProp = KeptProp(path: string, value: Json, expires: Option<int>)

  type Held = map<string, KeptProp>

  predicate Expired(it: KeptProp, now: int) {
    it.expires.Some? && it.expires.value <= now
  }

  predicate Live(held: Held, key: string, now: int) {
    key in held && !Expired(held[key], now)
  }

  // The client.

  function RestoredOne(fields: Fields, key: string, once: map<string, Once>, held: Held, now: int): Fields
    requires key in once
  {
    var path := once[key].path;
    if !Live(held, key, now) || path == "" || At(fields, path).Some? then fields else Put(fields, path, held[key].value)
  }

  /** The once props put back, of the keys in an order. */
  function Restored(fields: Fields, order: seq<string>, once: map<string, Once>, held: Held, now: int): Fields
    requires forall i :: 0 <= i < |order| ==> order[i] in once
  {
    if order == [] then fields
    else
      RestoredOne(Restored(fields, order[..|order| - 1], once, held, now), order[|order| - 1], once, held, now)
  }

  lemma RestoredMore(fields: Fields, order: seq<string>, key: string, once: map<string, Once>, held: Held, now: int)
    requires (forall i :: 0 <= i < |order| ==> order[i] in once) && key in once
    ensures Restored(fields, order + [key], once, held, now) ==
            RestoredOne(Restored(fields, order, once, held, now), key, once, held, now)
  {
    assert (order + [key])[..|order|] == order;
  }

  /** Each of a set of keys, once. */
  ghost predicate Lists(order: seq<string>, keys: set<string>) {
    && (forall i :: 0 <= i < |order| ==> order[i] in keys)
    && (forall key :: key in keys ==> key in order)
    && (forall i, j :: 0 <= i < j < |order| ==> order[i] != order[j])
  }

  predicate CameWith(got: Fields, once: map<string, Once>, key: string) {
    key in once && At(got, once[key].path).Some?
  }

  function KeptFrom(got: Fields, once: Once): KeptProp
    requires At(got, once.path).Some?
  {
    KeptProp(once.path, At(got, once.path).value, once.expires)
  }

  function Lookup(held: Held, key: string): Option<KeptProp> {
    if key in held then Some(held[key]) else None
  }

  /** A once prop that came with an answer is held as it came, and any other as it was. */
  function Latest(held: Held, got: Fields, once: map<string, Once>, key: string): Option<KeptProp> {
    if CameWith(got, once, key) then Some(KeptFrom(got, once[key])) else Lookup(held, key)
  }

  ghost predicate Learned(held: Held, got: Fields, once: map<string, Once>, after: Held) {
    forall key :: Lookup(after, key) == Latest(held, got, once, key)
  }

  function Unexpired(held: Held, now: int): Held {
    map key | key in held && !Expired(held[key], now) :: held[key]
  }

  class Client {
    var props: Json
    var page: string
    var once: Held

    /** The keys of the once props the client has, having dropped those that have expired. */
    method Holding(now: int) returns (keys: set<string>)
      modifies this`once
      ensures once == Unexpired(old(once), now) && keys == once.Keys
      ensures forall key :: key in keys <==>
                key in old(once) && (old(once)[key].expires.Some? ==> now < old(once)[key].expires.value)
    {
      var left := once.Keys;
      while left != {}
        invariant left <= old(once).Keys && once.Keys <= old(once).Keys
        invariant forall key :: key in old(once) && key in left ==> key in once
        invariant forall key :: key in old(once) && key !in left ==> (key in once <==> !Expired(old(once)[key], now))
        invariant forall key :: key in once ==> once[key] == old(once)[key]
        decreases |left|
      {
        var key :| key in left;
        if Expired(once[key], now) {
          once := once - {key};
        }
        left := left - {key};
      }
      keys := once.Keys;
    }

    /** Holds an answer's page: merged over the one before, with the once props learned, and those left out put back. */
    method Hold(component: string, got: Fields, labels: Labels, partial: bool, now: int) returns (ghost order: seq<string>)
      modifies this
      ensures page == component && Learned(old(once), got, labels.once, once)
      ensures Lists(order, labels.once.Keys)
      ensures var merged := Merged(if component == old(page) then old(props) else Null, Object(got), labels, partial);
        merged.Object? && props == Object(Restored(merged.fields, order, labels.once, once, now))
    {
      var merged := Merge(if component == page then props else Null, Object(got), labels, partial);
      Learn(got, labels.once);
      var fields;
      fields, order := PutBack(merged.fields, labels.once, now);
      props, page := Object(fields), component;
    }

    method Learn(got: Fields, labels: map<string, Once>)
      modifies this`once
      ensures Learned(old(once), got, labels, once)
    {
      var left := labels.Keys;
      while left != {}
        invariant left <= labels.Keys
        invariant forall key :: Lookup(once, key) ==
                                if key in left then Lookup(old(once), key) else Latest(old(once), got, labels, key)
        decreases |left|
      {
        var key :| key in left;
        var value := At(got, labels[key].path);
        if value.Some? {
          once := once[key := KeptProp(labels[key].path, value.value, labels[key].expires)];
        }
        left := left - {key};
      }
    }

    /** restore: puts back the once props the client holds that the answer left out. */
    method PutBack(fields: Fields, labels: map<string, Once>, now: int) returns (r: Fields, ghost order: seq<string>)
      ensures Lists(order, labels.Keys)
      ensures r == Restored(fields, order, labels, once, now)
    {
      r := fields;
      order := [];
      var left := labels.Keys;
      while left != {}
        invariant left <= labels.Keys && Lists(order, labels.Keys - left)
        invariant r == Restored(fields, order, labels, once, now)
        decreases |left|
      {
        var key :| key in left;
        RestoredMore(fields, order, key, labels, once, now);
        if Live(once, key, now) && labels[key].path != "" {
          var there := At(r, labels[key].path);
          if there.None? {
            r := Put(r, labels[key].path, once[key].value);
          }
        }
        order, left := order + [key], left - {key};
      }
    }
  }

  // The tree, through what a full visit may work out, or any request.

  function Inner(node: Node, all: bool): Option<Value> {
    match node
    case Plain(value) => if value.Branch? then Some(value) else None
    case Prop(b, Made(value)) => if value.Branch? && (all || b.firstLoad == Sent) then Some(value) else None
    case _ => None
  }

  function NodeIn(v: Value, ks: Keys, all: bool): Option<Node>
    requires v.Branch? && ks != []
    decreases |ks|
  {
    var i := PartialReloads.IndexOf(v, ks[0], |v.entries|);
    if i.None? then None
    else if |ks| == 1 then Some(v.entries[i.value].node)
    else
      var inner := Inner(v.entries[i.value].node, all);
      if inner.None? then None else NodeIn(inner.value, ks[1..], all)
  }

  /** Keys have no dots, and no two of a level are the same, everywhere. */
  predicate Neat(v: Value, n: nat)
    requires v.Branch? && n <= |v.entries|
    decreases v, n
  {
    KeysApart(v) && (n == 0 || (Neat(v, n - 1) && NeatEntry(v, n - 1)))
  }

  predicate NeatEntry(v: Value, i: nat)
    requires v.Branch? && i < |v.entries|
    decreases v, i
  {
    var e := v.entries[i];
    '.' !in e.key &&
    match e.node
    case Plain(value) => value.Branch? ==> Neat(value, |value.entries|)
    case Prop(b, Made(value)) => value.Branch? ==> Neat(value, |value.entries|)
    case _ => true
  }

  lemma {:induction false} NeatBelow(v: Value, n: nat, i: nat)
    requires v.Branch? && i < n <= |v.entries| && Neat(v, n)
    ensures NeatEntry(v, i)
    decreases n
  {
    if i < n - 1 {
      NeatBelow(v, n - 1, i);
    }
  }

  /** A level whose props' paths are their keys joined. */
  predicate Placed(v: Value, pre: Keys) {
    v.Branch? && Neat(v, |v.entries|) && DotFree(pre) && if pre == [] then PartialReloads.TopNamed(v) else pre[0] != ""
  }

  lemma PlacedBelow(v: Value, pre: Keys, i: nat)
    requires Placed(v, pre) && i < |v.entries|
    ensures var e := v.entries[i];
      var here := pre + [e.key];
      && PathIn(Join(pre), e.key) == Join(here) && DotFree(here) && here[0] != "" && Join(here) != ""
      && PartialReloads.IndexOf(v, e.key, |v.entries|) == Some(i)
      && forall all :: Inner(e.node, all).Some? ==> Placed(Inner(e.node, all).value, here)
  {
    NeatBelow(v, |v.entries|, i);
    PathJoins(pre, v.entries[i].key);
  }

  /** The once prop at a list of keys, of those a full visit may come to. */
  ghost predicate OnceAt(v: Value, ks: Keys, all: bool)
    requires v.Branch?
  {
    ks != [] && NodeIn(v, ks, all).Some? && NodeIn(v, ks, all).value.Prop? && NodeIn(v, ks, all).value.b.once
  }

  function KeyAt(v: Value, pre: Keys, ks: Keys, all: bool): string
    requires v.Branch? && OnceAt(v, ks, all)
  {
    OnceKey(NodeIn(v, ks, all).value.b, Join(pre + ks))
  }

  lemma OnceBelow(v: Value, pre: Keys, i: nat, ks: Keys, all: bool)
    requires Placed(v, pre) && i < |v.entries| && Inner(v.entries[i].node, all).Some? && ks != []
    ensures var inner, deep := Inner(v.entries[i].node, all).value, [v.entries[i].key] + ks;
      && NodeIn(v, deep, all) == NodeIn(inner, ks, all)
      && pre + deep == pre + [v.entries[i].key] + ks
  {
    PlacedBelow(v, pre, i);
    assert ([v.entries[i].key] + ks)[1..] == ks;
  }

  // A full visit's page, for a client that says it has some of the once props, with some of them there all the same.

  datatype View = View(inertia: bool, loaded: set<string>, shown: set<string>)

  predicate Hidden(w: View, b: Behavior, path: string) {
    var key := OnceKey(b, path);
    !(b.once && key in w.shown)
    && (b.firstLoad != Sent || (w.inertia && b.once && !b.isFresh && key in w.loaded))
  }

  function EntryPage(w: View, v: Value, i: nat, prefix: string): Outcome
    requires v.Branch? && i < |v.entries|
    decreases v, 0, 0
  {
    var e := v.entries[i];
    var path := PathIn(prefix, e.key);
    match e.node
    case Plain(value) => Page(w, value, path)
    case Prop(b, made) =>
      if made.Missing? || Hidden(w, b, path) then Nothing
      else if made.Failed? then if b.rescue then Nothing else Fails
      else Page(w, made.value, path)
  }

  function Page(w: View, v: Value, path: string): Outcome
    decreases v, 2, 0
  {
    if v.Data? then Sends(v.json)
    else
      var out := LevelPage(w, v, |v.entries|, path);
      if out.None? then Fails else Sends(Object(out.value))
  }

  function LevelPage(w: View, v: Value, n: nat, prefix: string): Option<Fields>
    requires v.Branch? && n <= |v.entries|
    decreases v, 1, n
  {
    if n == 0 then Some(map[])
    else
      var before, last := LevelPage(w, v, n - 1, prefix), EntryPage(w, v, n - 1, prefix);
      if before.None? || last.Fails? then None
      else if last.Nothing? then before
      else Some(before.value[v.entries[n - 1].key := last.json])
  }

  function SetOf(s: seq<string>): set<string> {
    set key | key in s
  }

  /** What the server sends a full visit is the page of its request, with nothing shown that it leaves out. */
  lemma {:induction false} ServerPage(rq: Request, v: Value, path: string, whole: bool)
    requires !rq.partial
    ensures ValueOut(rq, v, path, whole) == Page(View(rq.inertia, SetOf(rq.loaded), {}), v, path)
    decreases v, 1, 0
  {
    if v.Branch? {
      ServerLevel(rq, v, |v.entries|, path, whole);
    }
  }

  lemma {:induction false} ServerLevel(rq: Request, v: Value, n: nat, prefix: string, whole: bool)
    requires !rq.partial && v.Branch? && n <= |v.entries|
    ensures LevelOut(rq, v, n, prefix, whole) == LevelPage(View(rq.inertia, SetOf(rq.loaded), {}), v, n, prefix)
    decreases v, 0, n
  {
    if n > 0 {
      ServerLevel(rq, v, n - 1, prefix, whole);
      var e := v.entries[n - 1];
      var path := PathIn(prefix, e.key);
      if e.node.Plain? {
        ServerPage(rq, e.node.value, path, whole);
      } else if e.node.made.Made? {
        ServerPage(rq, e.node.made.value, path, true);
      }
    }
  }

  lemma {:induction false} PageUnderKey(w: View, v: Value, n: nat, prefix: string, i: nat)
    requires v.Branch? && KeysApart(v) && i < n <= |v.entries| && LevelPage(w, v, n, prefix).Some?
    ensures var out, sent, key := LevelPage(w, v, n, prefix).value, EntryPage(w, v, i, prefix), v.entries[i].key;
      !sent.Fails? && (key in out <==> sent.Sends?) && (sent.Sends? ==> out[key] == sent.json)
    decreases n
  {
    if i < n - 1 {
      PageUnderKey(w, v, n - 1, prefix, i);
    } else {
      NothingElseOnPage(w, v, n - 1, prefix);
    }
  }

  lemma {:induction false} NothingElseOnPage(w: View, v: Value, n: nat, prefix: string)
    requires v.Branch? && n <= |v.entries| && LevelPage(w, v, n, prefix).Some?
    ensures forall key :: key in LevelPage(w, v, n, prefix).value ==> exists i :: 0 <= i < n && v.entries[i].key == key
    decreases n
  {
    if n > 0 {
      NothingElseOnPage(w, v, n - 1, prefix);
      assert v.entries[n - 1].key == v.entries[n - 1].key;
    }
  }
}
