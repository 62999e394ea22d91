/**
 inertia/props.go: the once labels of an answer name once props of the tree, at their paths; and those of a full visit
 name every one that it comes to, left out or not.
 */
module OnceLabels {
  import opened Options
  import opened PropPaths
  import opened PropTree
  import opened PageMerge
  import opened OnceProps
  import opened OncePages
  import PartialReloads

  type Onces = map<string, Once>

  lemma {:induction false} VisitedIsThere(v: Value, ks: Keys)
    requires v.Branch? && ks != [] && NodeIn(v, ks, false).Some?
    ensures NodeIn(v, ks, true) == NodeIn(v, ks, false)
    decreases |ks|
  {
    var i := PartialReloads.IndexOf(v, ks[0], |v.entries|).value;
    if |ks| > 1 {
      VisitedIsThere(Inner(v.entries[i].node, false).value, ks[1..]);
    }
  }

  /** A label is of a once prop, which a full visit may come to if the request is one. */
  ghost predicate NamedAt(rq: Request, v: Value, pre: Keys, ks: Keys, key: string, o: Once)
    requires v.Branch?
  {
    && OnceAt(v, ks, true) && KeyAt(v, pre, ks, true) == key
    && o == Once(Join(pre + ks), NodeIn(v, ks, true).value.b.expires)
    && (!rq.partial ==> NodeIn(v, ks, false) == NodeIn(v, ks, true))
  }

  /** The labels that are new are of once props of a level, or below it. */
  ghost predicate Sound(rq: Request, v: Value, pre: Keys, before: Onces, after: Onces)
    requires v.Branch?
  {
    forall key :: key in after ==> (key in before && before[key] == after[key]) || exists ks :: NamedAt(rq, v, pre, ks, key, after[key])
  }

  lemma SoundTwice(rq: Request, v: Value, pre: Keys, l0: Onces, l1: Onces, l2: Onces)
    requires v.Branch? && Sound(rq, v, pre, l0, l1) && Sound(rq, v, pre, l1, l2)
    ensures Sound(rq, v, pre, l0, l2)
  {
  }

  lemma NotedSound(rq: Request, v: Value, pre: Keys, i: nat, l: Labels)
    requires Placed(v, pre) && i < |v.entries| && v.entries[i].node.Prop?
    ensures var e := v.entries[i];
      Sound(rq, v, pre, l.once, OnceNoted(rq, e.node.b, PathIn(Join(pre), e.key), l).once)
  {
    var e := v.entries[i];
    PlacedBelow(v, pre, i);
    if e.node.b.once {
      assert NodeIn(v, [e.key], true) == Some(e.node) && NodeIn(v, [e.key], false) == Some(e.node);
      var path := Join(pre + [e.key]);
      assert NamedAt(rq, v, pre, [e.key], OnceKey(e.node.b, path), Once(path, e.node.b.expires));
    }
  }

  lemma SoundAbove(rq: Request, v: Value, pre: Keys, i: nat, before: Onces, after: Onces)
    requires Placed(v, pre) && i < |v.entries| && Inner(v.entries[i].node, true).Some?
    requires !rq.partial ==> Inner(v.entries[i].node, false).Some?
    requires Sound(rq, Inner(v.entries[i].node, true).value, pre + [v.entries[i].key], before, after)
    ensures Sound(rq, v, pre, before, after)
  {
    var inner, here := Inner(v.entries[i].node, true).value, pre + [v.entries[i].key];
    forall key | key in after && !(key in before && before[key] == after[key])
      ensures exists ks :: NamedAt(rq, v, pre, ks, key, after[key])
    {
      var ks :| NamedAt(rq, inner, here, ks, key, after[key]);
      OnceBelow(v, pre, i, ks, true);
      if !rq.partial {
        OnceBelow(v, pre, i, ks, false);
      }
      assert NamedAt(rq, v, pre, [v.entries[i].key] + ks, key, after[key]);
    }
  }

  lemma OnceOfNoted(rq: Request, b: Behavior, path: string, l: Labels)
    ensures LeftOutNoted(rq, b, path, l).once == Noted(rq, b, path, l).once == OnceNoted(rq, b, path, l).once
  {
  }

  lemma EntryLeftOutSound(rq: Request, v: Value, pre: Keys, i: nat, l: Labels)
    requires Placed(v, pre) && i < |v.entries|
    ensures Sound(rq, v, pre, l.once, EntryLeftOut(rq, v.entries[i], PathIn(Join(pre), v.entries[i].key), l).once)
  {
    var e := v.entries[i];
    if e.node.Prop? {
      NotedSound(rq, v, pre, i, l);
      var path := PathIn(Join(pre), e.key);
      OnceOfNoted(rq, e.node.b, path, l);
    }
  }

  lemma {:induction false} LeftOutSound(rq: Request, v: Value, n: nat, pre: Keys, l: Labels)
    requires Placed(v, pre) && n <= |v.entries|
    ensures Sound(rq, v, pre, l.once, LeftOutLabels(rq, v, n, Join(pre), l).once)
    decreases n
  {
    if n > 0 {
      LeftOutSound(rq, v, n - 1, pre, l);
      var before := LeftOutLabels(rq, v, n - 1, Join(pre), l);
      EntryLeftOutSound(rq, v, pre, n - 1, before);
      SoundTwice(rq, v, pre, l.once, before.once, LeftOutLabels(rq, v, n, Join(pre), l).once);
    }
  }

  lemma {:induction false} LevelSound(rq: Request, v: Value, n: nat, pre: Keys, whole: bool, l: Labels)
    requires Placed(v, pre) && n <= |v.entries|
    ensures Sound(rq, v, pre, l.once, LevelLabels(rq, v, n, Join(pre), whole, l).once)
    decreases v, 1, n
  {
    if n > 0 {
      LevelSound(rq, v, n - 1, pre, whole, l);
      var before := LevelLabels(rq, v, n - 1, Join(pre), whole, l);
      EntrySound(rq, v, n - 1, pre, whole, before);
      SoundTwice(rq, v, pre, l.once, before.once, LevelLabels(rq, v, n, Join(pre), whole, l).once);
    }
  }

  lemma {:induction false} EntrySound(rq: Request, v: Value, i: nat, pre: Keys, whole: bool, l: Labels)
    requires Placed(v, pre) && i < |v.entries|
    ensures Sound(rq, v, pre, l.once, EntryLabels(rq, v, i, Join(pre), whole, l).once)
    decreases v, 0, 0
  {
    var e := v.entries[i];
    var path := PathIn(Join(pre), e.key);
    if Kept(rq, e, path, whole) {
      if e.node.Plain? {
        if e.node.value.Branch? {
          InnerSound(rq, v, i, pre, whole, l);
        }
      } else if e.node.made.Made? {
        NotedSound(rq, v, pre, i, l);
        var noted := Noted(rq, e.node.b, path, l);
        OnceOfNoted(rq, e.node.b, path, l);
        if e.node.made.value.Branch? {
          InnerSound(rq, v, i, pre, true, noted);
          SoundTwice(rq, v, pre, l.once, noted.once, ValueLabels(rq, e.node.made.value, path, true, noted).once);
        }
      }
    }
  }

  lemma {:induction false} InnerSound(rq: Request, v: Value, i: nat, pre: Keys, whole: bool, l: Labels)
    requires Placed(v, pre) && i < |v.entries| && Inner(v.entries[i].node, true).Some?
    requires !rq.partial ==> Inner(v.entries[i].node, false).Some?
    ensures var inner, path := Inner(v.entries[i].node, true).value, PathIn(Join(pre), v.entries[i].key);
      Sound(rq, v, pre, l.once, ValueLabels(rq, inner, path, whole, l).once)
    decreases Inner(v.entries[i].node, true).value, 3, 0
  {
    PlacedBelow(v, pre, i);
    var inner, here := Inner(v.entries[i].node, true).value, pre + [v.entries[i].key];
    ValueSound(rq, inner, here, whole, l);
    SoundAbove(rq, v, pre, i, l.once, ValueLabels(rq, inner, Join(here), whole, l).once);
  }

  /** The once labels of an answer are of once props of its tree. */
  lemma {:induction false} ValueSound(rq: Request, v: Value, pre: Keys, whole: bool, l: Labels)
    requires Placed(v, pre)
    ensures Sound(rq, v, pre, l.once, ValueLabels(rq, v, Join(pre), whole, l).once)
    decreases v, 2, 0
  {
    var before := LeftOutLabels(rq, v, |v.entries|, Join(pre), l);
    LeftOutSound(rq, v, |v.entries|, pre, l);
    LevelSound(rq, v, |v.entries|, pre, whole, before);
    SoundTwice(rq, v, pre, l.once, before.once, ValueLabels(rq, v, Join(pre), whole, l).once);
  }

  // Every once prop that a full visit comes to is named.

  lemma {:induction false} LeftOutGrows(rq: Request, v: Value, n: nat, prefix: string, l: Labels)
    requires v.Branch? && n <= |v.entries|
    ensures l.once.Keys <= LeftOutLabels(rq, v, n, prefix, l).once.Keys
    decreases n
  {
    if n > 0 {
      LeftOutGrows(rq, v, n - 1, prefix, l);
    }
  }

  lemma {:induction false} ValueGrows(rq: Request, v: Value, path: string, whole: bool, l: Labels)
    ensures l.once.Keys <= ValueLabels(rq, v, path, whole, l).once.Keys
    decreases v, 1, 0
  {
    if v.Branch? {
      LeftOutGrows(rq, v, |v.entries|, path, l);
      LevelGrows(rq, v, 0, |v.entries|, path, whole, LeftOutLabels(rq, v, |v.entries|, path, l));
    }
  }

  lemma EntryGrows(rq: Request, v: Value, i: nat, prefix: string, whole: bool, l: Labels)
    requires v.Branch? && i < |v.entries|
    ensures l.once.Keys <= EntryLabels(rq, v, i, prefix, whole, l).once.Keys
    decreases v, 0, 0
  {
    var e := v.entries[i];
    var path := PathIn(prefix, e.key);
    if e.node.Plain? {
      ValueGrows(rq, e.node.value, path, whole, l);
    } else if e.node.made.Made? {
      ValueGrows(rq, e.node.made.value, path, true, Noted(rq, e.node.b, path, l));
    }
  }

  lemma {:induction false} LevelGrows(rq: Request, v: Value, from: nat, n: nat, prefix: string, whole: bool, l: Labels)
    requires v.Branch? && from <= n <= |v.entries|
    ensures LevelLabels(rq, v, from, prefix, whole, l).once.Keys <= LevelLabels(rq, v, n, prefix, whole, l).once.Keys
    decreases v, 0, n
  {
    if from < n {
      LevelGrows(rq, v, from, n - 1, prefix, whole, l);
      EntryGrows(rq, v, n - 1, prefix, whole, LevelLabels(rq, v, n - 1, prefix, whole, l));
    }
  }

  lemma {:induction false} LeftOutIsNamed(rq: Request, v: Value, n: nat, prefix: string, i: nat, l: Labels)
    requires !rq.partial && v.Branch? && i < n <= |v.entries| && v.entries[i].node.Prop? && v.entries[i].node.made.Made?
    requires v.entries[i].node.b.once && LeftOut(rq, v.entries[i].node.b, PathIn(prefix, v.entries[i].key))
    ensures OnceKey(v.entries[i].node.b, PathIn(prefix, v.entries[i].key)) in LeftOutLabels(rq, v, n, prefix, l).once
    decreases n
  {
    if i < n - 1 {
      LeftOutIsNamed(rq, v, n - 1, prefix, i, l);
    }
  }

  lemma {:induction false} VisitNames(rq: Request, v: Value, pre: Keys, whole: bool, l: Labels, ks: Keys)
    requires !rq.partial && Placed(v, pre) && NothingNested(v, pre) && OnceAt(v, ks, false) && NodeIn(v, ks, false).value.made.Made?
    ensures KeyAt(v, pre, ks, false) in ValueLabels(rq, v, Join(pre), whole, l).once
    decreases |ks|
  {
    var i := PartialReloads.IndexOf(v, ks[0], |v.entries|).value;
    var e := v.entries[i];
    var prefix := Join(pre);
    var path := PathIn(prefix, e.key);
    PlacedBelow(v, pre, i);
    var left := LeftOutLabels(rq, v, |v.entries|, prefix, l);
    var before := LevelLabels(rq, v, i, prefix, whole, left);
    LevelGrows(rq, v, 0, |v.entries|, prefix, whole, left);
    LevelGrows(rq, v, i + 1, |v.entries|, prefix, whole, left);
    if |ks| == 1 {
      assert ks == [e.key];
      if LeftOut(rq, e.node.b, path) {
        LeftOutIsNamed(rq, v, |v.entries|, prefix, i, l);
      } else {
        ValueGrows(rq, e.node.made.value, path, true, Noted(rq, e.node.b, path, before));
      }
    } else {
      assert ks == [e.key] + ks[1..];
      OnceBelow(v, pre, i, ks[1..], false);
      NothingNestedBelow(v, pre, i);
      var inner := Inner(e.node, false).value;
      VisitNames(rq, inner, pre + [e.key], whole || e.node.Prop?,
                 if e.node.Prop? then Noted(rq, e.node.b, path, before) else before, ks[1..]);
    }
  }
}
