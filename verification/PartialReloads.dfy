/**
 inertia/props.go: a partial reload filters the tree of props level by level, with path strings, and never looks below
 what it leaves out. What goes out is the whole tree with each node judged on its own, by its list of keys.
 */
module PartialReloads {
  import opened Options
  import opened PropPaths
  import opened PropTree

  // What a partial reload asks for, said of lists of keys.

  predicate Asked(only: Option<seq<string>>, ks: Keys) {
    only.Some? ==> exists i :: 0 <= i < |only.value| && Split(only.value[i]) <= ks
  }

  predicate OnTheWay(only: Option<seq<string>>, ks: Keys) {
    only.Some? ==> exists i :: 0 <= i < |only.value| && ks < Split(only.value[i])
  }

  predicate Excepted(except: Option<seq<string>>, ks: Keys) {
    except.Some? && exists i :: 0 <= i < |except.value| && Split(except.value[i]) <= ks
  }

  predicate Wanted(rq: Request, ks: Keys) {
    (Asked(rq.only, ks) || OnTheWay(rq.only, ks)) && !Excepted(rq.except, ks)
  }

  lemma WithinByKeys(paths: seq<string>, ks: Keys)
    requires ks != [] && DotFree(ks)
    ensures Within(Join(ks), paths) <==> exists i :: 0 <= i < |paths| && Split(paths[i]) <= ks
  {
    forall i | 0 <= i < |paths|
      ensures IsOrIn(Join(ks), paths[i]) <==> Split(paths[i]) <= ks
    {
      WithinExactly(ks, paths[i]);
    }
  }

  lemma LeadsByKeys(paths: seq<string>, ks: Keys)
    requires ks != [] && DotFree(ks)
    ensures LeadsTo(Join(ks), paths) <==> exists i :: 0 <= i < |paths| && ks < Split(paths[i])
  {
    forall i | 0 <= i < |paths|
      ensures Join(ks) + "." <= paths[i] <==> ks < Split(paths[i])
    {
      LeadsExactly(ks, paths[i]);
    }
  }

  /** Where no key has a dot, the tests of path strings are tests of lists of keys. */
  lemma WantedByKeys(rq: Request, ks: Keys)
    requires ks != [] && DotFree(ks)
    ensures PathWanted(rq, Join(ks)) <==> Wanted(rq, ks)
  {
    if rq.only.Some? {
      WithinByKeys(rq.only.value, ks);
      LeadsByKeys(rq.only.value, ks);
    }
    if rq.except.Some? {
      WithinByKeys(rq.except.value, ks);
    }
  }

  /** A metadata label is for a prop that was asked for, and not one on the way to it. */
  lemma LabeledByKeys(rq: Request, ks: Keys)
    requires rq.partial && ks != [] && DotFree(ks)
    ensures Labeled(rq, Join(ks)) <==> Asked(rq.only, ks) && !Excepted(rq.except, ks)
  {
    if rq.only.Some? {
      WithinByKeys(rq.only.value, ks);
    }
    if rq.except.Some? {
      WithinByKeys(rq.except.value, ks);
    }
  }

  /** What is wanted has everything on the way to it wanted too. */
  lemma WantedBefore(rq: Request, ks: Keys, n: nat)
    requires Wanted(rq, ks) && 0 < n <= |ks|
    ensures Wanted(rq, ks[..n])
  {
    if rq.only.Some? {
      var paths := rq.only.value;
      var i :| 0 <= i < |paths| && (Split(paths[i]) <= ks || ks < Split(paths[i]));
      assert Split(paths[i]) <= ks[..n] || ks[..n] < Split(paths[i]);
    }
  }

  // The tree itself.

  function IndexOf(v: Value, key: string, n: nat): (r: Option<nat>)
    requires v.Branch? && n <= |v.entries|
    ensures r.Some? ==> r.value < n && v.entries[r.value].key == key
    ensures r.None? ==> forall i :: 0 <= i < n ==> v.entries[i].key != key
  {
    if n == 0 then None else if v.entries[n - 1].key == key then Some(n - 1) else IndexOf(v, key, n - 1)
  }

  /** The node at a list of keys, through branches that no prop has to be worked out for. */
  function NodeAt(v: Value, ks: Keys): Option<Node>
    requires v.Branch? && ks != []
    decreases |ks|
  {
    var i := IndexOf(v, ks[0], |v.entries|);
    if i.None? then None
    else
      var node := v.entries[i.value].node;
      if |ks| == 1 then Some(node)
      else if node.Plain? && node.value.Branch? then NodeAt(node.value, ks[1..])
      else None
  }

  /** Keys have no dots, and no two of a level are the same, all the way down to props. */
  predicate Tidy(v: Value, n: nat)
    requires v.Branch? && n <= |v.entries|
    decreases v, n
  {
    KeysApart(v) && (n == 0 || (Tidy(v, n - 1) && TidyEntry(v, n - 1)))
  }

  predicate TidyEntry(v: Value, i: nat)
    requires v.Branch? && i < |v.entries|
    decreases v, i
  {
    var e := v.entries[i];
    '.' !in e.key && (e.node.Plain? && e.node.value.Branch? ==> Tidy(e.node.value, |e.node.value.entries|))
  }

  lemma {:induction false} TidyBelow(v: Value, n: nat, i: nat)
    requires v.Branch? && i < n <= |v.entries| && Tidy(v, n)
    ensures TidyEntry(v, i)
    decreases n
  {
    if i < n - 1 {
      TidyBelow(v, n - 1, i);
    }
  }

  predicate TopNamed(v: Value)
    requires v.Branch?
  {
    forall i :: 0 <= i < |v.entries| ==> v.entries[i].key != ""
  }

  // A value with every prop in it, which is what a prop that is asked for goes out as.

  function EntryOfAll(v: Value, i: nat): Outcome
    requires v.Branch? && i < |v.entries|
    decreases v, 0, 0
  {
    match v.entries[i].node
    case Plain(value) => All(value)
    case Prop(b, made) =>
      match made
      case Missing => Nothing
      case Failed => if b.rescue then Nothing else Fails
      case Made(value) => All(value)
  }

  function All(v: Value): Outcome
    decreases v, 2, 0
  {
    if v.Data? then Sends(v.json)
    else
      var out := AllTo(v, |v.entries|);
      if out.None? then Fails else Sends(Object(out.value))
  }

  function AllTo(v: Value, n: nat): Option<map<string, Json>>
    requires v.Branch? && n <= |v.entries|
    decreases v, 1, n
  {
    if n == 0 then Some(map[])
    else
      var before, last := AllTo(v, n - 1), EntryOfAll(v, n - 1);
      if before.None? || last.Fails? then None
      else if last.Nothing? then before
      else Some(before.value[v.entries[n - 1].key := last.json])
  }

  /** A prop that is worked out goes out whole: no path of the request is looked at inside it. */
  lemma {:induction false} WholeIsAll(rq: Request, v: Value, path: string)
    requires rq.partial
    ensures ValueOut(rq, v, path, true) == All(v)
    decreases v, 1, 0
  {
    if v.Branch? {
      LevelIsAll(rq, v, |v.entries|, path);
    }
  }

  lemma {:induction false} LevelIsAll(rq: Request, v: Value, n: nat, path: string)
    requires rq.partial && v.Branch? && n <= |v.entries|
    ensures LevelOut(rq, v, n, path, true) == AllTo(v, n)
    decreases v, 0, n
  {
    if n > 0 {
      LevelIsAll(rq, v, n - 1, path);
      var e := v.entries[n - 1];
      var inner := PathIn(path, e.key);
      if e.node.Plain? {
        WholeIsAll(rq, e.node.value, inner);
      } else if e.node.made.Made? {
        WholeIsAll(rq, e.node.made.value, inner);
      }
    }
  }

  // The filter.

  predicate Always(node: Node) {
    node.Prop? && node.b.always
  }

  const ERRORS: Keys := ["errors"]

  predicate Passed(rq: Request, ks: Keys) {
    ks == [] || Wanted(rq, ks) || ks == ERRORS
  }

  /** Whether a node goes out, judged alone: asked for or on the way, or the errors, or always there at a level reached. */
  predicate Goes(rq: Request, ks: Keys, node: Node)
    requires ks != []
  {
    && !(node.Prop? && node.made.Missing?)
    && (Wanted(rq, ks) || ks == ERRORS || (Always(node) && Passed(rq, ks[..|ks| - 1])))
  }

  lemma ErrorsPath(ks: Keys)
    requires ks != [] && DotFree(ks)
    ensures Join(ks) == "errors" <==> ks == ERRORS
  {
    SplitJoin(ks);
    OnlyKey("errors");
  }

  lemma KeptJudged(rq: Request, e: Entry, pre: Keys)
    requires rq.partial && Passed(rq, pre) && DotFree(pre) && (pre != [] ==> pre[0] != "") && '.' !in e.key
    ensures Kept(rq, e, PathIn(Join(pre), e.key), false) <==> Goes(rq, pre + [e.key], e.node)
  {
    var ks := pre + [e.key];
    PathJoins(pre, e.key);
    ErrorsPath(ks);
    WantedByKeys(rq, ks);
    assert ks[..|ks| - 1] == pre;
  }

  /** What is below a node that does not go out does not go out either. */
  lemma LeftWithIt(rq: Request, ks: Keys, n: nat, above: Node, node: Node)
    requires 0 < n < |ks| && above.Plain? && !Goes(rq, ks[..n], above)
    ensures !Goes(rq, ks, node)
  {
    if Wanted(rq, ks) {
      WantedBefore(rq, ks, n);
    }
    var parent := ks[..|ks| - 1];
    assert parent[..n] == ks[..n];
    if Wanted(rq, parent) {
      WantedBefore(rq, parent, n);
    }
  }

  /** What a node goes out as. */
  predicate SentAs(at: Option<Json>, node: Node, goes: bool) {
    match node
    case Plain(Data(json)) => at == if goes then Some(json) else None
    case Plain(Branch(_)) => at.Some? == goes && (goes ==> at.value.Object?)
    case Prop(_, Made(value)) => at == if goes && All(value).Sends? then Some(All(value).json) else None
    case Prop(_, _) => at.None?
  }

  /** The entry of a level under a key, judged by its path. */
  lemma EntryJudged(rq: Request, v: Value, pre: Keys, i: nat)
    requires rq.partial && v.Branch? && Tidy(v, |v.entries|) && i < |v.entries|
    requires Passed(rq, pre) && DotFree(pre) && (pre != [] ==> pre[0] != "")
    requires LevelOut(rq, v, |v.entries|, Join(pre), false).Some?
    ensures var e, out := v.entries[i], LevelOut(rq, v, |v.entries|, Join(pre), false).value;
      var here := pre + [e.key];
      && '.' !in e.key && TidyEntry(v, i)
      && (!Goes(rq, here, e.node) ==> e.key !in out)
      && (Goes(rq, here, e.node) && e.node.Plain? ==>
            e.key in out && ValueOut(rq, e.node.value, Join(here), false) == Sends(out[e.key]))
      && (Goes(rq, here, e.node) && e.node.Prop? ==>
            (e.key in out <==> e.node.made.Made? && All(e.node.made.value).Sends?)
            && (e.key in out ==> out[e.key] == All(e.node.made.value).json))
  {
    var e := v.entries[i];
    TidyBelow(v, |v.entries|, i);
    KeptJudged(rq, e, pre);
    PathJoins(pre, e.key);
    SentUnderKey(rq, v, |v.entries|, Join(pre), false, i);
    if e.node.Prop? && e.node.made.Made? {
      WholeIsAll(rq, e.node.made.value, Join(pre + [e.key]));
    }
  }

  /** A node goes out when each node on the way to it does, and it does. */
  predicate AllGo(rq: Request, v: Value, pre: Keys, ks: Keys)
    requires v.Branch? && ks != [] && NodeAt(v, ks).Some?
    decreases |ks|
  {
    var node := v.entries[IndexOf(v, ks[0], |v.entries|).value].node;
    Goes(rq, pre + [ks[0]], node) && (|ks| > 1 ==> AllGo(rq, node.value, pre + [ks[0]], ks[1..]))
  }

  lemma {:induction false} AllGoJudgedAlone(rq: Request, v: Value, pre: Keys, ks: Keys)
    requires v.Branch? && ks != [] && NodeAt(v, ks).Some?
    ensures AllGo(rq, v, pre, ks) <==> Goes(rq, pre + ks, NodeAt(v, ks).value)
    decreases |ks|
  {
    var node := v.entries[IndexOf(v, ks[0], |v.entries|).value].node;
    var here := pre + [ks[0]];
    if |ks| == 1 {
      assert ks == [ks[0]];
    } else {
      assert pre + ks == here + ks[1..] && (pre + ks)[..|here|] == here;
      AllGoJudgedAlone(rq, node.value, here, ks[1..]);
      if !Goes(rq, here, node) {
        LeftWithIt(rq, pre + ks, |here|, node, NodeAt(v, ks).value);
      }
    }
  }

  /** The branch under an empty key at the top, whose paths are those of the top itself. */
  function UnderEmpty(v: Value): (r: Option<Value>)
    requires v.Branch?
    ensures r.Some? ==> r.value.Branch?
  {
    var node := NodeAt(v, [""]);
    if node.Some? && node.value.Plain? && node.value.value.Branch? then Some(node.value.value) else None
  }

  /** Whether it can be told of a node if it goes out: not of a prop that never does, or always does. */
  predicate Noticed(node: Node) {
    match node
    case Plain(_) => true
    case Prop(b, made) => !b.always && made.Made? && All(made.value).Sends?
  }

  predicate NoticedUnderEmpty(v: Value)
    requires v.Branch?
  {
    UnderEmpty(v).Some? && exists j :: 0 <= j < |UnderEmpty(v).value.entries| && Noticed(UnderEmpty(v).value.entries[j].node)
  }

  /** What is under an empty key at the top, where none of it can be noticed, is as its path says. */
  lemma UnnoticedByPath(rq: Request, v: Value, ks: Keys, out: map<string, Json>)
    requires rq.partial && v.Branch? && Tidy(v, |v.entries|) && |ks| > 1 && ks[0] == "" && NodeAt(v, ks).Some?
    requires !NoticedUnderEmpty(v) && LevelOut(rq, v, |v.entries|, "", false) == Some(out)
    ensures SentAs(AtKeys(out, ks), NodeAt(v, ks).value, AllGo(rq, v, [], ks))
  {
    var i := IndexOf(v, "", |v.entries|).value;
    var branch := v.entries[i].node.value;
    EntryJudged(rq, v, [], i);
    assert UnderEmpty(v) == Some(branch);
    var j := IndexOf(branch, ks[1], |branch.entries|).value;
    assert !Noticed(branch.entries[j].node);
    if Goes(rq, [""], v.entries[i].node) {
      SentUnderKey(rq, branch, |branch.entries|, "", false, j);
      assert ks[1..][0] == ks[1] && [""] + [ks[1]] == ["", ks[1]] && ["", ks[1]][..1] == [""];
      var node := branch.entries[j].node;
      if node.made.Made? {
        WholeIsAll(rq, node.made.value, PathIn("", ks[1]));
      }
    }
  }

  lemma {:induction false} ByPathBelow(rq: Request, v: Value, pre: Keys, ks: Keys, out: map<string, Json>)
    requires rq.partial && v.Branch? && Tidy(v, |v.entries|) && ks != [] && NodeAt(v, ks).Some?
    requires Passed(rq, pre) && DotFree(pre) && (pre != [] ==> pre[0] != "")
    requires pre == [] && ks[0] == "" && |ks| > 1 ==> !NoticedUnderEmpty(v) || !Goes(rq, [""], NodeAt(v, [""]).value)
    requires LevelOut(rq, v, |v.entries|, Join(pre), false) == Some(out)
    ensures SentAs(AtKeys(out, ks), NodeAt(v, ks).value, AllGo(rq, v, pre, ks))
    decreases |ks|
  {
    var i := IndexOf(v, ks[0], |v.entries|).value;
    var node := v.entries[i].node;
    var here := pre + [ks[0]];
    EntryJudged(rq, v, pre, i);
    if |ks| > 1 && Goes(rq, here, node) {
      if pre == [] && ks[0] == "" {
        UnnoticedByPath(rq, v, ks, out);
      } else {
        PassedHere(rq, here, node);
        ByPathBelow(rq, node.value, here, ks[1..], out[ks[0]].fields);
      }
    }
  }

  lemma PassedHere(rq: Request, ks: Keys, node: Node)
    requires ks != [] && node.Plain? && Goes(rq, ks, node)
    ensures Passed(rq, ks)
  {
  }

  /** A partial reload's answer has at a path what the node there comes to when it is judged alone, or nothing. */
  predicate JudgedByPath(rq: Request, v: Value, ks: Keys)
    requires v.Branch? && ks != [] && ValueOut(rq, v, "", false).Sends?
  {
    var out := ValueOut(rq, v, "", false).json.fields;
    && (NodeAt(v, ks).Some? ==> SentAs(AtKeys(out, ks), NodeAt(v, ks).value, Goes(rq, ks, NodeAt(v, ks).value)))
    && (NodeAt(v, ks).None? && (|ks| == 1 || IsBranch(NodeAt(v, ks[..|ks| - 1]))) ==> AtKeys(out, ks).None?)
  }

  /**
   A partial reload's answer has, of each node of the tree, what the node comes to when it is judged by its own path
   alone, whatever is above it; and nothing else. It is so of all that is not under an empty key at the top, and of that
   too where none of it can be noticed, or the key is not reached.
   */
  lemma FilteredByPath(rq: Request, v: Value, ks: Keys)
    requires rq.partial && v.Branch? && Tidy(v, |v.entries|) && ks != []
    requires |ks| == 1 || ks[0] != "" || !NoticedUnderEmpty(v) || !PathWanted(rq, "")
    requires ValueOut(rq, v, "", false).Sends?
    ensures JudgedByPath(rq, v, ks)
  {
    if NodeAt(v, ks).Some? {
      assert [] + ks == ks;
      AllGoJudgedAlone(rq, v, [], ks);
      if ks[0] == "" && |ks| > 1 {
        WantedByKeys(rq, [""]);
        assert [""] != ERRORS;
      }
      ByPathBelow(rq, v, [], ks, ValueOut(rq, v, "", false).json.fields);
    } else if |ks| == 1 || IsBranch(NodeAt(v, ks[..|ks| - 1])) {
      NothingElse(rq, v, "", ks);
    }
  }

  predicate IsBranch(node: Option<Node>) {
    node.Some? && node.value.Plain? && node.value.value.Branch?
  }

  lemma {:induction false} NothingElse(rq: Request, v: Value, prefix: string, ks: Keys)
    requires v.Branch? && Tidy(v, |v.entries|) && ks != [] && NodeAt(v, ks).None?
    requires |ks| == 1 || IsBranch(NodeAt(v, ks[..|ks| - 1]))
    requires LevelOut(rq, v, |v.entries|, prefix, false).Some?
    ensures AtKeys(LevelOut(rq, v, |v.entries|, prefix, false).value, ks).None?
    decreases |ks|
  {
    NothingElseSent(rq, v, |v.entries|, prefix, false);
    var i := IndexOf(v, ks[0], |v.entries|);
    if i.Some? && |ks| > 1 {
      TidyBelow(v, |v.entries|, i.value);
      SentUnderKey(rq, v, |v.entries|, prefix, false, i.value);
      var e := v.entries[i.value];
      if ks[0] in LevelOut(rq, v, |v.entries|, prefix, false).value {
        assert ks[..|ks| - 1][1..] == ks[1..][..|ks| - 2];
        NothingElse(rq, e.node.value, PathIn(prefix, e.key), ks[1..]);
      }
    }
  }
}
