/**
 inertia/props.go and tugtest/merge.go: what the client shows of a merge prop that a partial reload asked for, by what the
 app said of the prop: the client's list then the answer's, or the answer's first, or two objects merged at every depth.
 */
module MergedProps {
  import opened Options
  import opened PropPaths
  import opened PropTree
  import opened PageMerge
  import PartialReloads
  import LabelPlaces

  function PathsOf(l: Labels): seq<string> {
    l.merge + l.prepends + l.deepMerge
  }

  /** A path is labeled once, and no other label is at it, inside it or around it. */
  ghost predicate Lone(l: Labels, path: string) {
    multiset(PathsOf(l))[path] == 1 && forall other :: other in PathsOf(l) && other != path ==> Apart(other, path)
  }

  lemma OnceInAll(a: seq<string>, b: seq<string>, c: seq<string>, path: string)
    requires multiset(a + b + c)[path] == 1
    ensures multiset(a)[path] + multiset(b)[path] + multiset(c)[path] == 1
  {
    assert multiset(a + b + c) == multiset(a) + multiset(b) + multiset(c);
  }

  lemma TwiceCounts(list: seq<string>, i: nat, j: nat)
    requires i < j < |list| && list[i] == list[j]
    ensures multiset(list)[list[i]] >= 2
  {
    var front, back := list[..i + 1], list[i + 1..];
    assert list == front + back;
    assert front[i] == list[i] && back[j - i - 1] == list[j];
    assert list[i] in multiset(front) && list[i] in multiset(back);
  }

  /** A path that is labeled once is the only one at its place in its list, and in none of the others. */
  lemma LoneIsOnly(list: seq<string>, others: seq<string>, more: seq<string>, path: string) returns (i: nat)
    requires path in list && multiset(list)[path] + multiset(others)[path] + multiset(more)[path] == 1
    requires forall other :: (other in list || other in others || other in more) && other != path ==> Apart(other, path)
    ensures i < |list| && list[i] == path && OnlyAt(list, i, others, more)
  {
    i :| 0 <= i < |list| && list[i] == path;
    assert path in multiset(list);
    assert path !in multiset(others) && path !in multiset(more);
    forall j | 0 <= j < |list| && j != i
      ensures Apart(list[j], path)
    {
      if list[j] == path {
        TwiceCounts(list, if i < j then i else j, if i < j then j else i);
      }
      assert list[j] in list;
    }
    assert path !in others && path !in more;
    forall j | 0 <= j < |others|
      ensures Apart(others[j], path)
    {
      assert others[j] in others;
    }
    forall j | 0 <= j < |more|
      ensures Apart(more[j], path)
    {
      assert more[j] in more;
    }
  }

  /** What the client shows at a path that a label names alone. */
  lemma NotedShows(have: Json, got: Json, l: Labels, path: string)
    requires have.Object? && got.Object? && Lone(l, path)
    ensures var out := Merged(have, got, l, true).fields;
      && (path in l.merge ==> ListsTogether(out, have.fields, got.fields, path, l.matchOn, false))
      && (path in l.prepends ==> ListsTogether(out, have.fields, got.fields, path, l.matchOn, true))
      && (path in l.deepMerge && At(have.fields, path).Some? && At(got.fields, path).Some? ==>
            At(out, path) == Some(DeepMerged(At(have.fields, path).value, At(got.fields, path).value)))
  {
    OnceInAll(l.merge, l.prepends, l.deepMerge, path);
    forall other | (other in l.merge || other in l.prepends || other in l.deepMerge) && other != path
      ensures Apart(other, path)
    {
      assert other in PathsOf(l);
    }
    if path in l.merge {
      var i := LoneIsOnly(l.merge, l.prepends, l.deepMerge, path);
      ListsMerged(have, got, l, i);
    }
    if path in l.prepends {
      var i := LoneIsOnly(l.prepends, l.merge, l.deepMerge, path);
      ListsMerged(have, got, l, i);
    }
    if path in l.deepMerge {
      var i := LoneIsOnly(l.deepMerge, l.merge, l.prepends, path);
      DeepMergedThere(have, got, l, i);
    }
  }

  /** What the client shows of a merge prop, by what the app said of it. */
  ghost predicate Shown(rq: Request, b: Behavior, path: string, l: Labels, out: Fields, was: Fields, now: Fields) {
    && (b.deep && Lone(l, path) && At(was, path).Some? && At(now, path).Some? ==>
          At(out, path) == Some(DeepMerged(At(was, path).value, At(now, path).value)))
    && (!b.deep && !b.scroll && b.appendAt == [] && b.prependAt == [] && Lone(l, path) ==>
          ListsTogether(out, was, now, path, l.matchOn, b.prepend))
    && (!b.deep && b.scroll && Lone(l, path + ".data") ==> ListsTogether(out, was, now, path + ".data", l.matchOn, rq.prepend))
    && (!b.deep && !b.scroll ==> forall i :: 0 <= i < |b.appendAt| && Lone(l, path + "." + b.appendAt[i]) ==>
          ListsTogether(out, was, now, path + "." + b.appendAt[i], l.matchOn, false))
    && (!b.deep && !b.scroll ==> forall i :: 0 <= i < |b.prependAt| && Lone(l, path + "." + b.prependAt[i]) ==>
          ListsTogether(out, was, now, path + "." + b.prependAt[i], l.matchOn, true))
    && forall i :: 0 <= i < |b.matchOn| ==> path + "." + b.matchOn[i] in l.matchOn
  }

  /**
   A merge prop that goes out in a partial reload, was asked for and is not being reset, is shown by the client as the app
   said: with the lists put together one way or the other, at its path or at those in it, or merged at every depth.
   */
  lemma MergedAsSaid(rq: Request, v: Value, ks: Keys, have: Json)
    requires rq.partial && v.Branch? && PartialReloads.Tidy(v, |v.entries|) && ks != [] && DotFree(ks) && (|ks| == 1 || ks[0] != "")
    requires PartialReloads.NodeAt(v, ks).Some? && PartialReloads.Goes(rq, ks, PartialReloads.NodeAt(v, ks).value)
    requires PartialReloads.NodeAt(v, ks).value.Prop? && PartialReloads.NodeAt(v, ks).value.made.Made?
    requires PartialReloads.NodeAt(v, ks).value.b.merge && Join(ks) !in rq.reset
    requires PartialReloads.Asked(rq.only, ks) && !PartialReloads.Excepted(rq.except, ks)
    requires have.Object? && ValueOut(rq, v, "", false).Sends?
    ensures var got, l := ValueOut(rq, v, "", false).json, ValueLabels(rq, v, "", false, NONE);
      Shown(rq, PartialReloads.NodeAt(v, ks).value.b, Join(ks), l, Merged(have, got, l, true).fields, have.fields, got.fields)
  {
    var b, path, got, l := PartialReloads.NodeAt(v, ks).value.b, Join(ks), ValueOut(rq, v, "", false).json, ValueLabels(rq, v, "", false, NONE);
    forall note | LabelPlaces.HowMerged(rq, b, path, note)
      ensures LabelPlaces.Has(l, note)
    {
      LabelPlaces.AskedForIsLabeled(rq, v, ks, note);
    }
    forall name | Lone(l, name)
      ensures var out := Merged(have, got, l, true).fields;
        && (name in l.merge ==> ListsTogether(out, have.fields, got.fields, name, l.matchOn, false))
        && (name in l.prepends ==> ListsTogether(out, have.fields, got.fields, name, l.matchOn, true))
        && (name in l.deepMerge && At(have.fields, name).Some? && At(got.fields, name).Some? ==>
              At(out, name) == Some(DeepMerged(At(have.fields, name).value, At(got.fields, name).value)))
    {
      NotedShows(have, got, l, name);
    }
    HasAll(rq, b, path, l);
  }

  /** The labels that a merge prop has, each in the list that it is for. */
  lemma HasAll(rq: Request, b: Behavior, path: string, l: Labels)
    requires forall note :: LabelPlaces.HowMerged(rq, b, path, note) ==> LabelPlaces.Has(l, note)
    ensures b.deep ==> path in l.deepMerge
    ensures !b.deep && !b.scroll && b.appendAt == [] && b.prependAt == [] ==> if b.prepend then path in l.prepends else path in l.merge
    ensures !b.deep && b.scroll ==> if rq.prepend then path + ".data" in l.prepends else path + ".data" in l.merge
    ensures !b.deep && !b.scroll ==> forall i :: 0 <= i < |b.appendAt| ==> path + "." + b.appendAt[i] in l.merge
    ensures !b.deep && !b.scroll ==> forall i :: 0 <= i < |b.prependAt| ==> path + "." + b.prependAt[i] in l.prepends
    ensures forall i :: 0 <= i < |b.matchOn| ==> path + "." + b.matchOn[i] in l.matchOn
  {
    if b.deep {
      assert LabelPlaces.Has(l, LabelPlaces.Deepens(path));
    } else if LabelPlaces.Whole(b) {
      assert LabelPlaces.Has(l, if b.prepend then LabelPlaces.Prepends(path) else LabelPlaces.Appends(path));
    } else if b.scroll {
      assert LabelPlaces.Has(l, if rq.prepend then LabelPlaces.Prepends(path + ".data") else LabelPlaces.Appends(path + ".data"));
    } else {
      forall i | 0 <= i < |b.appendAt|
        ensures path + "." + b.appendAt[i] in l.merge
      {
        assert LabelPlaces.Has(l, LabelPlaces.Appends(path + "." + b.appendAt[i]));
      }
      forall i | 0 <= i < |b.prependAt|
        ensures path + "." + b.prependAt[i] in l.prepends
      {
        assert LabelPlaces.Has(l, LabelPlaces.Prepends(path + "." + b.prependAt[i]));
      }
    }
    forall i | 0 <= i < |b.matchOn|
      ensures path + "." + b.matchOn[i] in l.matchOn
    {
      assert LabelPlaces.Has(l, LabelPlaces.MatchesOn(path + "." + b.matchOn[i]));
    }
  }
}
