/**
 The dotted paths that inertia/props.go and tugtest/merge.go name props by, and the lists of keys they stand for: where
 no key has a dot, a path is one list of keys, and being inside a path is being inside its list.
 */
module PropPaths {
  type Keys = seq<string>

  /** The keys of a list, with a dot between each two. */
  function Join(ks: Keys): string {
    if ks == [] then "" else if |ks| == 1 then ks[0] else ks[0] + "." + Join(ks[1..])
  }

  /** strings.Cut at a dot: what is before the first one, or all of it. */
  function Dot(s: string): (i: nat)
    ensures i <= |s| && '.' !in s[..i] && (i < |s| ==> s[i] == '.')
  {
    if s == "" || s[0] == '.' then 0 else 1 + Dot(s[1..])
  }

  function Split(s: string): (ks: Keys)
    ensures ks != [] && DotFree(ks) && Join(ks) == s
    decreases |s|
  {
    var i := Dot(s);
    if i == |s| then [s] else [s[..i]] + Split(s[i + 1..])
  }

  predicate DotFree(ks: Keys) {
    forall i :: 0 <= i < |ks| ==> '.' !in ks[i]
  }

  /** The path of a prop in one at a prefix, as the resolver's level makes it. */
  function PathIn(prefix: string, key: string): string {
    if prefix == "" then key else prefix + "." + key
  }

  predicate Within(path: string, paths: seq<string>) {
    exists i :: 0 <= i < |paths| && IsOrIn(path, paths[i])
  }

  predicate IsOrIn(path: string, p: string) {
    path == p || p + "." <= path
  }

  predicate LeadsTo(path: string, paths: seq<string>) {
    exists i :: 0 <= i < |paths| && path + "." <= paths[i]
  }

  // Paths are lists of keys.

  lemma DotAt(a: string, x: string, i: nat)
    requires '.' !in a && i <= |a| + 1 + |x|
    requires '.' !in (a + "." + x)[..i] && (i < |a| + 1 + |x| ==> (a + "." + x)[i] == '.')
    ensures i == |a|
  {
    var s := a + "." + x;
    assert s[|a|] == '.' && forall j :: 0 <= j < |a| ==> s[j] == a[j] && a[j] in a;
    assert forall j :: 0 <= j < i ==> s[..i][j] == s[j];
  }

  /** The first key of a path is what is before its first dot. */
  lemma FirstKey(a: string, x: string)
    requires '.' !in a
    ensures Dot(a + "." + x) == |a| && (a + "." + x)[..|a|] == a && (a + "." + x)[|a| + 1..] == x
  {
    DotAt(a, x, Dot(a + "." + x));
  }

  lemma OnlyKey(a: string)
    requires '.' !in a
    ensures Dot(a) == |a| && Split(a) == [a]
  {
    assert forall i :: 0 <= i < |a| ==> a[i] in a;
  }

  lemma {:induction false} SplitJoin(ks: Keys)
    requires ks != [] && DotFree(ks)
    ensures Split(Join(ks)) == ks
  {
    if |ks| == 1 {
      OnlyKey(ks[0]);
    } else {
      FirstKey(ks[0], Join(ks[1..]));
      SplitJoin(ks[1..]);
      assert ks == [ks[0]] + ks[1..];
    }
  }

  lemma {:induction false} JoinMore(ks: Keys, key: string)
    requires ks != []
    ensures Join(ks + [key]) == Join(ks) + "." + key
  {
    if |ks| == 1 {
      assert (ks + [key])[1..] == [key];
    } else {
      assert (ks + [key])[1..] == ks[1..] + [key];
      JoinMore(ks[1..], key);
      assert ks[0] + "." + (Join(ks[1..]) + "." + key) == ks[0] + "." + Join(ks[1..]) + "." + key;
    }
  }

  /** At the top, where a key is not empty, or below, a prop's path is its keys joined. */
  lemma PathJoins(ks: Keys, key: string)
    requires ks == [] || ks[0] != ""
    ensures PathIn(Join(ks), key) == Join(ks + [key])
  {
    if ks != [] {
      assert Join(ks) != "";
      JoinMore(ks, key);
    }
  }

  lemma {:induction false} InsideIsLonger(qs: Keys, ks: Keys)
    requires qs != [] && ks != [] && DotFree(qs) && DotFree(ks)
    ensures Join(qs) + "." <= Join(ks) <==> qs < ks
  {
    var p, path := Join(qs), Join(ks);
    if |ks| == 1 {
      assert (p + ".")[|p|] == '.' && forall i :: 0 <= i < |path| ==> path[i] in ks[0];
    } else {
      var more := Join(ks[1..]);
      FirstKey(ks[0], more);
      if |qs| == 1 {
        OneKeyInside(qs[0], ks[0], more);
        assert qs < ks <==> qs[0] == ks[0];
      } else {
        var rest := Join(qs[1..]);
        InsideIsLonger(qs[1..], ks[1..]);
        JoinedApart(qs[0], rest + ".", ks[0], more);
        assert p + "." == qs[0] + "." + (rest + ".");
        assert qs == [qs[0]] + qs[1..] && ks == [ks[0]] + ks[1..];
      }
    }
  }

  lemma OneKeyInside(q: string, k: string, more: string)
    requires '.' !in q && '.' !in k
    ensures q + "." <= k + "." + more <==> q == k
  {
    JoinedApart(q, "", k, more);
    assert q + "." + "" == q + ".";
  }

  lemma JoinedApart(a: string, x: string, b: string, y: string)
    requires '.' !in a && '.' !in b
    ensures a + "." + x <= b + "." + y <==> a == b && x <= y
  {
    var s, t := a + "." + x, b + "." + y;
    if s <= t {
      assert t[..|a|] == s[..|a|] == a && t[|a|] == s[|a|] == '.';
      DotAt(b, y, |a|);
      assert t[..|s|][|a| + 1..] == x && t[|a| + 1..] == y;
    }
    if a == b && x <= y {
      assert t[..|s|] == s;
    }
  }

  /** Being at a path, or inside it, is having its keys first. */
  lemma WithinExactly(ks: Keys, p: string)
    requires ks != [] && DotFree(ks)
    ensures IsOrIn(Join(ks), p) <==> Split(p) <= ks
  {
    var qs := Split(p);
    InsideIsLonger(qs, ks);
    SplitJoin(ks);
    assert qs <= ks <==> qs == ks || qs < ks;
  }

  lemma LeadsExactly(ks: Keys, p: string)
    requires ks != [] && DotFree(ks)
    ensures Join(ks) + "." <= p <==> ks < Split(p)
  {
    InsideIsLonger(ks, Split(p));
  }
}
