/**
 inertia/props.go and tugtest/tugtest.go: over any run of visits and reloads, what a client shows after a visit is the
 page with the once props that it holds, which is the page of a client that holds none exactly when no prop that the
 first load leaves out is held, and none the client spoke of has expired since.
 */
module OncePages {
  import opened Options
  import opened PropPaths
  import opened PropTree
  import opened PageMerge
  import opened OnceProps
  import PartialReloads

  function WithShown(w: View, key: string): View {
    w.(shown := w.shown + {key})
  }

  /** Two views leave out the same of a page's once props, which hold no props. */
  ghost predicate SameHidden(w1: View, w2: View, v: Value, pre: Keys)
    requires v.Branch?
  {
    forall ks :: OnceAt(v, ks, false) ==> SameAt(w1, w2, NodeIn(v, ks, false).value, Join(pre + ks))
  }

  predicate SameAt(w1: View, w2: View, node: Node, path: string)
    requires node.Prop?
  {
    && (Hidden(w1, node.b, path) <==> Hidden(w2, node.b, path))
    && !(node.made.Made? && node.made.value.Branch?)
  }

  lemma SameHiddenBelow(w1: View, w2: View, v: Value, pre: Keys, i: nat)
    requires Placed(v, pre) && i < |v.entries| && SameHidden(w1, w2, v, pre) && Inner(v.entries[i].node, false).Some?
    ensures SameHidden(w1, w2, Inner(v.entries[i].node, false).value, pre + [v.entries[i].key])
  {
    var inner, here := Inner(v.entries[i].node, false).value, pre + [v.entries[i].key];
    forall ks | OnceAt(inner, ks, false)
      ensures SameAt(w1, w2, NodeIn(inner, ks, false).value, Join(here + ks))
    {
      OnceBelow(v, pre, i, ks, false);
      var deep := [v.entries[i].key] + ks;
      assert OnceAt(v, deep, false);
    }
  }

  lemma {:induction false} SamePage(w1: View, w2: View, v: Value, pre: Keys, n: nat)
    requires Placed(v, pre) && n <= |v.entries| && SameHidden(w1, w2, v, pre)
    ensures LevelPage(w1, v, n, Join(pre)) == LevelPage(w2, v, n, Join(pre))
    decreases v, n
  {
    if n > 0 {
      SamePage(w1, w2, v, pre, n - 1);
      SameEntry(w1, w2, v, pre, n - 1);
    }
  }

  lemma {:induction false} SameEntry(w1: View, w2: View, v: Value, pre: Keys, i: nat)
    requires Placed(v, pre) && i < |v.entries| && SameHidden(w1, w2, v, pre)
    ensures EntryPage(w1, v, i, Join(pre)) == EntryPage(w2, v, i, Join(pre))
    decreases v, i
  {
    var e := v.entries[i];
    var here := pre + [e.key];
    PlacedBelow(v, pre, i);
    assert NodeIn(v, [e.key], false) == Some(e.node);
    if e.node.Prop? && e.node.b.once {
      assert OnceAt(v, [e.key], false);
    } else if Inner(e.node, false).Some? {
      SameHiddenBelow(w1, w2, v, pre, i);
      var inner := Inner(e.node, false).value;
      SamePage(w1, w2, inner, here, |inner.entries|);
    }
  }

  // One once prop.

  /** A once prop of a page that comes to data is on it when the view does not leave it out. */
  lemma {:induction false} OnPage(w: View, v: Value, pre: Keys, ks: Keys, out: Fields, json: Json)
    requires Placed(v, pre) && OnceAt(v, ks, false) && LevelPage(w, v, |v.entries|, Join(pre)) == Some(out)
    requires NodeIn(v, ks, false).value.made == Made(Data(json)) && NothingNested(v, pre)
    ensures AtKeys(out, ks) == if Hidden(w, NodeIn(v, ks, false).value.b, Join(pre + ks)) then None else Some(json)
    decreases |ks|
  {
    var i := PartialReloads.IndexOf(v, ks[0], |v.entries|).value;
    var e := v.entries[i];
    PlacedBelow(v, pre, i);
    PageUnderKey(w, v, |v.entries|, Join(pre), i);
    if |ks| == 1 {
      assert ks == [ks[0]];
    } else {
      NothingNestedBelow(v, pre, i);
      assert ks == [e.key] + ks[1..];
      OnceBelow(v, pre, i, ks[1..], false);
      OnPage(w, Inner(e.node, false).value, pre + [e.key], ks[1..], out[e.key].fields, json);
    }
  }

  /** No once prop of a page holds props. */
  ghost predicate NothingNested(v: Value, pre: Keys)
    requires v.Branch?
  {
    forall ks :: OnceAt(v, ks, false) ==> Inner(NodeIn(v, ks, false).value, true).None?
  }

  lemma NothingNestedBelow(v: Value, pre: Keys, i: nat)
    requires Placed(v, pre) && i < |v.entries| && NothingNested(v, pre) && Inner(v.entries[i].node, false).Some?
    ensures NothingNested(Inner(v.entries[i].node, false).value, pre + [v.entries[i].key])
    ensures v.entries[i].node.Prop? ==> !v.entries[i].node.b.once
  {
    var e := v.entries[i];
    PlacedBelow(v, pre, i);
    assert NodeIn(v, [e.key], false) == Some(e.node);
    assert e.node.Prop? && e.node.b.once ==> OnceAt(v, [e.key], false);
    var inner := Inner(e.node, false).value;
    forall ks | OnceAt(inner, ks, false)
      ensures Inner(NodeIn(inner, ks, false).value, true).None?
    {
      OnceBelow(v, pre, i, ks, false);
      assert OnceAt(v, [e.key] + ks, false);
    }
  }

  /** No other once prop of a page has a key. */
  ghost predicate OnlyOneNamed(v: Value, pre: Keys, ks: Keys, key: string)
    requires v.Branch?
  {
    forall other :: OnceAt(v, other, false) && KeyAt(v, pre, other, false) == key ==> other == ks
  }

  lemma OnlyOneBelow(v: Value, pre: Keys, ks: Keys, key: string, i: nat)
    requires Placed(v, pre) && ks != [] && i < |v.entries| && Inner(v.entries[i].node, false).Some?
    requires OnlyOneNamed(v, pre, ks, key)
    ensures var inner, here := Inner(v.entries[i].node, false).value, pre + [v.entries[i].key];
      if v.entries[i].key == ks[0] then OnlyOneNamed(inner, here, ks[1..], key)
      else forall other :: OnceAt(inner, other, false) ==> KeyAt(inner, here, other, false) != key
  {
    var inner, here := Inner(v.entries[i].node, false).value, pre + [v.entries[i].key];
    forall other | OnceAt(inner, other, false) && KeyAt(inner, here, other, false) == key
      ensures v.entries[i].key == ks[0] && other == ks[1..]
    {
      var deep := [v.entries[i].key] + other;
      OnceBelow(v, pre, i, other, false);
      assert OnceAt(v, deep, false) && KeyAt(v, pre, deep, false) == key;
      assert deep == ks && deep[1..] == other;
    }
  }

  /** An entry that holds props and is no once prop comes to the page of them. */
  lemma InnerPage(w: View, v: Value, i: nat, prefix: string)
    requires v.Branch? && i < |v.entries| && Inner(v.entries[i].node, false).Some?
    requires v.entries[i].node.Prop? ==> !v.entries[i].node.b.once
    ensures EntryPage(w, v, i, prefix) == Page(w, Inner(v.entries[i].node, false).value, PathIn(prefix, v.entries[i].key))
  {
  }

  lemma InnerSame(w: View, v: Value, pre: Keys, key: string)
    requires Placed(v, pre) && NothingNested(v, pre)
    requires forall ks :: OnceAt(v, ks, false) ==> KeyAt(v, pre, ks, false) != key
    ensures Page(WithShown(w, key), v, Join(pre)) == Page(w, v, Join(pre))
  {
    assert SameHidden(WithShown(w, key), w, v, pre);
    SamePage(WithShown(w, key), w, v, pre, |v.entries|);
  }

  /** An entry that the once prop is not in is the same with it shown. */
  lemma OthersSame(w: View, v: Value, pre: Keys, ks: Keys, key: string, i: nat)
    requires Placed(v, pre) && ks != [] && i < |v.entries| && v.entries[i].key != ks[0]
    requires NothingNested(v, pre) && OnlyOneNamed(v, pre, ks, key)
    ensures EntryPage(WithShown(w, key), v, i, Join(pre)) == EntryPage(w, v, i, Join(pre))
  {
    var e := v.entries[i];
    PlacedBelow(v, pre, i);
    assert NodeIn(v, [e.key], false) == Some(e.node);
    if e.node.Prop? && e.node.b.once {
      assert OnceAt(v, [e.key], false);
      assert KeyAt(v, pre, [e.key], false) != key;
    } else if Inner(e.node, false).Some? {
      var inner, here := Inner(e.node, false).value, pre + [e.key];
      OnlyOneBelow(v, pre, ks, key, i);
      NothingNestedBelow(v, pre, i);
      InnerSame(w, inner, here, key);
      InnerPage(w, v, i, Join(pre));
      InnerPage(WithShown(w, key), v, i, Join(pre));
    }
  }

  /** A level of which one entry comes to something else. */
  lemma {:induction false} OneEntryElse(w1: View, w2: View, v: Value, n: nat, prefix: string, i: nat, json: Json)
    requires v.Branch? && KeysApart(v) && n <= |v.entries| && i < |v.entries| && LevelPage(w1, v, n, prefix).Some?
    requires forall j :: 0 <= j < |v.entries| && j != i ==> EntryPage(w2, v, j, prefix) == EntryPage(w1, v, j, prefix)
    requires EntryPage(w2, v, i, prefix) == Sends(json)
    ensures var out := LevelPage(w1, v, n, prefix).value;
      LevelPage(w2, v, n, prefix) == Some(if i < n then out[v.entries[i].key := json] else out)
    decreases n
  {
    if n > 0 {
      OneEntryElse(w1, w2, v, n - 1, prefix, i, json);
      var before, key, last := LevelPage(w1, v, n - 1, prefix).value, v.entries[i].key, EntryPage(w1, v, n - 1, prefix);
      if last.Sends? {
        var at := v.entries[n - 1].key;
        if i == n - 1 {
          assert before[at := last.json][key := json] == before[key := json];
        } else {
          assert before[key := json][at := last.json] == before[at := last.json][key := json];
        }
      }
    }
  }

  /** A once prop put back at its place is the page with it shown; where it is there already, nothing is different. */
  lemma {:induction false} PutBackShows(w: View, v: Value, pre: Keys, ks: Keys, key: string, out: Fields, json: Json)
    requires Placed(v, pre) && OnceAt(v, ks, false) && KeyAt(v, pre, ks, false) == key
    requires NothingNested(v, pre) && OnlyOneNamed(v, pre, ks, key)
    requires NodeIn(v, ks, false).value.made == Made(Data(json))
    requires LevelPage(w, v, |v.entries|, Join(pre)) == Some(out)
    ensures LevelPage(WithShown(w, key), v, |v.entries|, Join(pre)) ==
            Some(if AtKeys(out, ks).Some? then out else PutKeys(out, ks, json))
    decreases |ks|
  {
    var i := PartialReloads.IndexOf(v, ks[0], |v.entries|).value;
    var e := v.entries[i];
    PlacedBelow(v, pre, i);
    forall j | 0 <= j < |v.entries| && j != i
      ensures EntryPage(WithShown(w, key), v, j, Join(pre)) == EntryPage(w, v, j, Join(pre))
    {
      OthersSame(w, v, pre, ks, key, j);
    }
    PageUnderKey(w, v, |v.entries|, Join(pre), i);
    if |ks| == 1 {
      assert ks == [e.key];
      assert OnceKey(e.node.b, PathIn(Join(pre), e.key)) == key;
      OneEntryElse(w, WithShown(w, key), v, |v.entries|, Join(pre), i, json);
      if e.key in out {
        assert out[e.key := json] == out;
      }
    } else {
      var inner := Inner(e.node, false).value;
      assert ks == [e.key] + ks[1..];
      OnceBelow(v, pre, i, ks[1..], false);
      OnlyOneBelow(v, pre, ks, key, i);
      NothingNestedBelow(v, pre, i);
      InnerPage(w, v, i, Join(pre));
      var below := out[e.key].fields;
      PutBackShows(w, inner, pre + [e.key], ks[1..], key, below, json);
      var shown := if AtKeys(below, ks[1..]).Some? then below else PutKeys(below, ks[1..], json);
      InnerPage(WithShown(w, key), v, i, Join(pre));
      OneEntryElse(w, WithShown(w, key), v, |v.entries|, Join(pre), i, Object(shown));
      assert out[e.key := out[e.key]] == out;
    }
  }
}
