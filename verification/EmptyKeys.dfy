/**
 inertia/props.go: the one thing that breaks the filter of a partial reload, where keys have no dots: a branch under an
 empty key at the top, whose paths the resolver takes for those of the top. When it does, and when it does not.
 */
module EmptyKeys {
  import opened Options
  import opened PropPaths
  import opened PropTree
  import opened PartialReloads

  /** A partial reload of what is under a key in the branch under the empty one. */
  function Asking(key: string): Request {
    Request(true, true, Some(["." + key]), None, [], [], false)
  }

  predicate NoDotFirst(path: string) {
    path == "" || path[0] != '.'
  }

  lemma NoDotBelow(prefix: string, key: string)
    requires NoDotFirst(prefix) && '.' !in key
    ensures NoDotFirst(PathIn(prefix, key))
  {
    if prefix == "" && key != "" {
      assert key[0] in key;
    }
  }

  lemma StartApart(path: string, p: string)
    requires path != "" && p != "" && path[0] != p[0]
    ensures !IsOrIn(path, p) && !(path + "." <= p)
  {
    assert (path + ".")[0] == path[0] && (p + ".")[0] == p[0];
  }

  /** It asks for no path that the resolver makes but the empty one, as being on the way. */
  lemma AskingWants(key: string, path: string)
    requires NoDotFirst(path)
    ensures PathWanted(Asking(key), path) <==> path == ""
  {
    var p := "." + key;
    assert Asking(key).only.value[0] == p && p[0] == '.';
    if path == "" {
      assert "" + "." <= p;
    } else {
      StartApart(path, p);
    }
  }

  lemma AskingSplits(key: string)
    requires '.' !in key
    ensures Split("." + key) == ["", key]
  {
    SplitJoin(["", key]);
    assert Join(["", key]) == "." + key;
  }

  /** Where a request gets to the empty key, such a reload works out no more, and fails only if it does. */
  lemma {:induction false} LessWorked(rq: Request, key: string, v: Value, n: nat, prefix: string)
    requires rq.partial && PathWanted(rq, "") && NoDotFirst(prefix)
    requires v.Branch? && n <= |v.entries| && Tidy(v, n) && LevelOut(rq, v, n, prefix, false).Some?
    ensures LevelOut(Asking(key), v, n, prefix, false).Some?
    decreases v, n
  {
    if n > 0 {
      LessWorked(rq, key, v, n - 1, prefix);
      var e := v.entries[n - 1];
      var path := PathIn(prefix, e.key);
      NoDotBelow(prefix, e.key);
      AskingWants(key, path);
      assert TidyEntry(v, n - 1);
      if !Kept(Asking(key), e, path, false) {
        assert EntryOut(Asking(key), v, n - 1, prefix, false) == Nothing;
      } else {
        assert Kept(rq, e, path, false);
        if e.node.Plain? {
          assert EntryOut(rq, v, n - 1, prefix, false) == ValueOut(rq, e.node.value, path, false);
          if e.node.value.Branch? {
            LessWorked(rq, key, e.node.value, |e.node.value.entries|, path);
          }
          assert EntryOut(Asking(key), v, n - 1, prefix, false) == ValueOut(Asking(key), e.node.value, path, false);
        } else if e.node.made.Made? {
          WholeIsAll(rq, e.node.made.value, path);
          WholeIsAll(Asking(key), e.node.made.value, path);
        }
      }
    }
  }

  /** What such a reload sends of the branch, when its page goes out. */
  lemma AskingReaches(key: string, v: Value) returns (inner: map<string, Json>)
    requires v.Branch? && Tidy(v, |v.entries|) && UnderEmpty(v).Some? && ValueOut(Asking(key), v, "", false).Sends?
    ensures var out := ValueOut(Asking(key), v, "", false).json.fields;
      "" in out && out[""] == Object(inner)
    ensures var branch := UnderEmpty(v).value; LevelOut(Asking(key), branch, |branch.entries|, "", false) == Some(inner)
  {
    var rq := Asking(key);
    var i := IndexOf(v, "", |v.entries|).value;
    AskingWants(key, "");
    WantedByKeys(rq, [""]);
    EntryJudged(rq, v, [], i);
    inner := ValueOut(rq, UnderEmpty(v).value, "", false).json.fields;
  }

  /** Whether an entry of the branch goes out, of those that can be noticed. */
  lemma AskingSends(key: string, branch: Value, j: nat, inner: map<string, Json>)
    requires branch.Branch? && j < |branch.entries| && KeysApart(branch) && '.' !in branch.entries[j].key
    requires LevelOut(Asking(key), branch, |branch.entries|, "", false) == Some(inner) && Noticed(branch.entries[j].node)
    ensures branch.entries[j].key in inner <==> branch.entries[j].key == "" || branch.entries[j].key == "errors"
  {
    var e := branch.entries[j];
    SentUnderKey(Asking(key), branch, |branch.entries|, "", false, j);
    NoDotBelow("", e.key);
    AskingWants(key, e.key);
    if e.node.Prop? {
      WholeIsAll(Asking(key), e.node.made.value, e.key);
    }
  }

  /** The reload that shows it: of the node itself, but of another where the resolver takes its path for one always wanted. */
  function Showing(key: string): Request {
    Asking(if key == "" || key == "errors" then "?" else key)
  }

  lemma ShowingGoes(key: string, node: Node)
    requires '.' !in key && Noticed(node)
    ensures Goes(Showing(key), ["", key], node) <==> key != "" && key != "errors"
  {
    var other := if key == "" || key == "errors" then "?" else key;
    var rq := Showing(key);
    AskingSplits(other);
    assert rq.only.value == ["." + other];
    var ks := ["", key];
    assert Split(rq.only.value[0]) == ["", other] && ks[1] == key && ["", other][1] == other;
    assert !(ks < ["", other]) && ks != ERRORS;
    if other == key {
      assert ["", other] <= ks;
    } else {
      assert !(["", other] <= ks);
    }
    assert Wanted(rq, ks) <==> other == key;
  }

  lemma UnderEmptyAt(v: Value, j: nat)
    requires v.Branch? && Tidy(v, |v.entries|) && UnderEmpty(v).Some? && j < |UnderEmpty(v).value.entries|
    ensures var branch := UnderEmpty(v).value;
      && KeysApart(branch) && '.' !in branch.entries[j].key
      && NodeAt(v, ["", branch.entries[j].key]) == Some(branch.entries[j].node)
  {
    var i := IndexOf(v, "", |v.entries|).value;
    var branch := UnderEmpty(v).value;
    TidyBelow(v, |v.entries|, i);
    TidyBelow(branch, |branch.entries|, j);
    assert IndexOf(branch, branch.entries[j].key, |branch.entries|) == Some(j);
    assert ["", branch.entries[j].key][1..] == [branch.entries[j].key];
  }

  /** A node under the empty key that can be noticed is lost, or sent unasked, by some reload. */
  lemma Misjudged(v: Value, j: nat)
    requires v.Branch? && Tidy(v, |v.entries|) && UnderEmpty(v).Some? && j < |UnderEmpty(v).value.entries|
    requires Noticed(UnderEmpty(v).value.entries[j].node)
    requires ValueOut(Showing(UnderEmpty(v).value.entries[j].key), v, "", false).Sends?
    ensures var key := UnderEmpty(v).value.entries[j].key; !JudgedByPath(Showing(key), v, ["", key])
  {
    var branch := UnderEmpty(v).value;
    var key, node := branch.entries[j].key, branch.entries[j].node;
    var rq := Showing(key);
    var asked := if key == "" || key == "errors" then "?" else key;
    var inner := AskingReaches(asked, v);
    UnderEmptyAt(v, j);
    AskingSends(asked, branch, j, inner);
    ShowingGoes(key, node);
    assert ["", key][1..] == [key];
    var out := ValueOut(rq, v, "", false).json.fields;
    assert AtKeys(out, ["", key]) == if key in inner then Some(inner[key]) else None;
  }

  /** Such reloads all work out the same. */
  lemma AskingAlike(a: string, b: string, v: Value)
    requires v.Branch? && Tidy(v, |v.entries|) && ValueOut(Asking(a), v, "", false).Sends?
    ensures ValueOut(Asking(b), v, "", false).Sends?
  {
    AskingWants(a, "");
    LessWorked(Asking(a), b, v, |v.entries|, "");
  }

  ghost predicate AlwaysByPath(v: Value)
    requires v.Branch?
  {
    forall rq: Request, ks: Keys :: rq.partial && ks != [] && ValueOut(rq, v, "", false).Sends? ==> JudgedByPath(rq, v, ks)
  }

  /**
   Every node is judged by its path in every partial reload that goes out, exactly when no branch is under an empty key at
   the top that holds what can be noticed, or else no reload that gets there goes out.
   */
  lemma AlwaysByPathExactly(v: Value)
    requires v.Branch? && Tidy(v, |v.entries|)
    ensures AlwaysByPath(v) <==> !(NoticedUnderEmpty(v) && ValueOut(Asking("?"), v, "", false).Sends?)
  {
    if NoticedUnderEmpty(v) && ValueOut(Asking("?"), v, "", false).Sends? {
      var j :| 0 <= j < |UnderEmpty(v).value.entries| && Noticed(UnderEmpty(v).value.entries[j].node);
      var key := UnderEmpty(v).value.entries[j].key;
      AskingAlike("?", if key == "" || key == "errors" then "?" else key, v);
      Misjudged(v, j);
    } else {
      forall rq: Request, ks: Keys | rq.partial && ks != [] && ValueOut(rq, v, "", false).Sends?
        ensures JudgedByPath(rq, v, ks)
      {
        if NoticedUnderEmpty(v) && PathWanted(rq, "") {
          LessWorked(rq, "?", v, |v.entries|, "");
        }
        FilteredByPath(rq, v, ks);
      }
    }
  }

  /** A tree with an empty key whose inside is asked for and left out. */
  lemma EmptyKeyLosesItsProps()
    ensures var inner := Branch([Entry("a", Plain(Data(Null)))]);
      var v := Branch([Entry("", Plain(inner))]);
      NodeAt(v, ["", "a"]).Some? && ValueOut(Asking("a"), v, "", false) == Sends(Object(map["" := Object(map[])]))
  {
    var inner := Branch([Entry("a", Plain(Data(Null)))]);
    var v := Branch([Entry("", Plain(inner))]);
    var rq := Asking("a");
    AskingWants("a", "");
    AskingWants("a", "a");
    assert LevelOut(rq, inner, 0, "", false) == Some(map[]) && EntryOut(rq, inner, 0, "", false) == Nothing;
    assert LevelOut(rq, v, 0, "", false) == Some(map[]) && EntryOut(rq, v, 0, "", false) == Sends(Object(map[]));
    assert map[]["" := Object(map[])] == map["" := Object(map[])];
    assert IndexOf(v, "", 1) == Some(0) && IndexOf(inner, "a", 1) == Some(0);
    assert ["", "a"][1..] == ["a"];
  }
}
