/**
 jsonform.go: of the fields with one name that a struct's objects could be decoded into, the one that wins: alone at the
 least depth, or the one with a tag there; and none where two share that.
 */
module JsonDominance {
  import opened Options
  import opened JsonFields

  // Sorting, by keys that are compared number by number.

  predicate Le(a: seq<int>, b: seq<int>) {
    a == [] || (b != [] && (a[0] < b[0] || (a[0] == b[0] && Le(a[1..], b[1..]))))
  }

  lemma {:induction false} LeTotal(a: seq<int>, b: seq<int>)
    ensures Le(a, b) || Le(b, a)
    decreases |a|
  {
    if a != [] && b != [] && a[0] == b[0] {
      LeTotal(a[1..], b[1..]);
    }
  }

  lemma {:induction false} LeChain(a: seq<int>, b: seq<int>, c: seq<int>)
    requires Le(a, b) && Le(b, c)
    ensures Le(a, c)
    decreases |a|
  {
    if a != [] && a[0] == b[0] == c[0] {
      LeChain(a[1..], b[1..], c[1..]);
    }
  }

  type Key = Field -> seq<int>

  predicate Sorted(s: seq<Field>, rank: Key) {
    forall i, j :: 0 <= i < j < |s| ==> Le(rank(s[i]), rank(s[j]))
  }

  function Insert(f: Field, s: seq<Field>, rank: Key): (r: seq<Field>)
    ensures multiset(r) == multiset(s) + multiset{f}
  {
    if s == [] then [f]
    else if Le(rank(f), rank(s[0])) then [f] + s
    else
      assert s == [s[0]] + s[1..];
      [s[0]] + Insert(f, s[1..], rank)
  }

  /** slices.SortFunc. */
  function Sort(s: seq<Field>, rank: Key): (r: seq<Field>)
    ensures multiset(r) == multiset(s)
  {
    if s == [] then []
    else
      assert s == [s[0]] + s[1..];
      Insert(s[0], Sort(s[1..], rank), rank)
  }

  lemma {:induction false} InsertSorts(f: Field, s: seq<Field>, rank: Key)
    requires Sorted(s, rank)
    ensures Sorted(Insert(f, s, rank), rank)
    decreases |s|
  {
    var r := Insert(f, s, rank);
    if s != [] {
      if Le(rank(f), rank(s[0])) {
        forall j | 0 <= j < |s|
          ensures Le(rank(f), rank(s[j]))
        {
          if j > 0 {
            LeChain(rank(f), rank(s[0]), rank(s[j]));
          }
        }
      } else {
        InsertSorts(f, s[1..], rank);
        LeTotal(rank(f), rank(s[0]));
        var rest := Insert(f, s[1..], rank);
        forall j | 0 <= j < |rest|
          ensures Le(rank(s[0]), rank(rest[j]))
        {
          assert rest[j] in multiset(rest);
          assert rest[j] == f || rest[j] in s[1..];
        }
      }
    }
  }

  lemma {:induction false} SortSorts(s: seq<Field>, rank: Key)
    ensures Sorted(Sort(s, rank), rank)
    decreases |s|
  {
    if s != [] {
      SortSorts(s[1..], rank);
      InsertSorts(s[0], Sort(s[1..], rank), rank);
    }
  }

  function Codes(s: string): (r: seq<int>)
    ensures |r| == |s| && forall i :: 0 <= i < |s| ==> r[i] == s[i] as int
  {
    if s == "" then [] else [s[0] as int] + Codes(s[1..])
  }

  /** By name, then the shallowest first, then those with a tag, then in the order they are declared. */
  function ByName(f: Field): seq<int> {
    Codes(f.name) + ([-1] + ([|f.index|, if f.tagged then 0 else 1] + f.index))
  }

  function ByIndex(f: Field): seq<int> {
    f.index
  }

  lemma {:induction false} AfterPrefix(p: seq<int>, x: seq<int>, y: seq<int>)
    ensures Le(p + x, p + y) <==> Le(x, y)
    decreases |p|
  {
    if p == [] {
      assert p + x == x && p + y == y;
    } else {
      assert (p + x)[1..] == p[1..] + x && (p + y)[1..] == p[1..] + y;
      AfterPrefix(p[1..], x, y);
    }
  }

  /** Between two fields of a name there is no field of another. */
  lemma {:induction false} NamesTogether(a: string, x: seq<int>, b: string, y: seq<int>, z: seq<int>)
    requires Le(Codes(a) + ([-1] + x), Codes(b) + ([-1] + y)) && Le(Codes(b) + ([-1] + y), Codes(a) + ([-1] + z))
    ensures a == b
    decreases |a|
  {
    var p, q, r := Codes(a) + ([-1] + x), Codes(b) + ([-1] + y), Codes(a) + ([-1] + z);
    if a != "" && b != "" {
      assert p[1..] == Codes(a[1..]) + ([-1] + x) && r[1..] == Codes(a[1..]) + ([-1] + z);
      assert q[1..] == Codes(b[1..]) + ([-1] + y);
      NamesTogether(a[1..], x, b[1..], y, z);
    }
  }

  /** One field wins over another of its name: it is shallower, or has a tag where the other, as deep, has none. */
  predicate Beats(f: Field, g: Field) {
    |f.index| < |g.index| || (|f.index| == |g.index| && f.tagged && !g.tagged)
  }

  /** Of two fields of a name, the first does not lose. */
  lemma FirstDoesNotLose(f: Field, g: Field)
    requires f.name == g.name && Le(ByName(f), ByName(g))
    ensures Beats(f, g) || (|f.index| == |g.index| && f.tagged == g.tagged)
  {
    var x, y := [|f.index|, if f.tagged then 0 else 1] + f.index, [|g.index|, if g.tagged then 0 else 1] + g.index;
    AfterPrefix(Codes(f.name), [-1] + x, [-1] + y);
    AfterPrefix([-1], x, y);
    assert x[1..] == [if f.tagged then 0 else 1] + f.index && y[1..] == [if g.tagged then 0 else 1] + g.index;
  }

  // The fields that win.

  /** A field is there once, and wins over every other of its name. */
  ghost predicate Alone(fields: multiset<Field>, f: Field) {
    fields[f] == 1 && forall g :: g in fields && g != f && g.name == f.name ==> Beats(f, g)
  }

  predicate AloneAt(s: seq<Field>, i: nat)
    requires i < |s|
  {
    forall j :: 0 <= j < |s| && j != i && s[j].name == s[i].name ==> Beats(s[i], s[j])
  }

  function Without(s: seq<Field>, i: nat): seq<Field>
    requires i < |s|
  {
    s[..i] + s[i + 1..]
  }

  lemma Others(s: seq<Field>, i: nat)
    requires i < |s|
    ensures multiset(s) == multiset(Without(s, i)) + multiset{s[i]}
    ensures forall g :: g in Without(s, i) <==> exists j :: 0 <= j < |s| && j != i && s[j] == g
  {
    var others := Without(s, i);
    assert s == s[..i] + [s[i]] + s[i + 1..];
    forall j | 0 <= j < |s| && j != i
      ensures s[j] in others
    {
      assert others[if j < i then j else j - 1] == s[j];
    }
    forall g | g in others
      ensures exists j :: 0 <= j < |s| && j != i && s[j] == g
    {
      var k :| 0 <= k < |others| && others[k] == g;
      assert s[if k < i then k else k + 1] == g;
    }
  }

  lemma AloneByPlace(s: seq<Field>, i: nat)
    requires i < |s|
    ensures AloneAt(s, i) <==> Alone(multiset(s), s[i])
  {
    var f, others := s[i], Without(s, i);
    Others(s, i);
    assert AloneAt(s, i) <==> forall g :: g in others && g.name == f.name ==> Beats(f, g);
    assert f !in others <==> multiset(s)[f] == 1;
    assert forall g :: g != f ==> (g in multiset(s) <==> g in others);
  }

  function KeptTo(s: seq<Field>, n: nat): seq<Field>
    requires n <= |s|
  {
    if n == 0 then [] else if AloneAt(s, n - 1) then KeptTo(s, n - 1) + [s[n - 1]] else KeptTo(s, n - 1)
  }

  lemma {:induction false} NoneKept(s: seq<Field>, i: nat, j: nat)
    requires i <= j <= |s| && forall k :: i <= k < j ==> !AloneAt(s, k)
    ensures KeptTo(s, j) == KeptTo(s, i)
    decreases j
  {
    if i < j {
      NoneKept(s, i, j - 1);
    }
  }

  /** A group of a sorted list: the fields of a name, from the i-th up to the j-th. */
  predicate Group(s: seq<Field>, i: nat, j: nat)
    requires i < j <= |s|
  {
    && (forall k :: i <= k < j ==> s[k].name == s[i].name)
    && (forall k :: 0 <= k < |s| && !(i <= k < j) ==> s[k].name != s[i].name)
  }

  lemma GroupKeeps(s: seq<Field>, i: nat, j: nat)
    requires Sorted(s, ByName) && i < j <= |s| && Group(s, i, j)
    ensures KeptTo(s, j) == KeptTo(s, i) +
            if j == i + 1 || |s[i].index| != |s[i + 1].index| || s[i].tagged != s[i + 1].tagged then [s[i]] else []
  {
    OthersLose(s, i, j);
    NoneKept(s, i + 1, j);
    if j > i + 1 {
      SecondDecides(s, i, j);
    }
  }

  lemma OthersLose(s: seq<Field>, i: nat, j: nat)
    requires Sorted(s, ByName) && i < j <= |s| && Group(s, i, j)
    ensures forall k :: i < k < j ==> !AloneAt(s, k)
  {
    forall k | i < k < j
      ensures !AloneAt(s, k)
    {
      FirstDoesNotLose(s[i], s[k]);
      assert s[i].name == s[k].name && !Beats(s[k], s[i]);
    }
  }

  /** The first of a group wins when it wins over the second. */
  lemma SecondDecides(s: seq<Field>, i: nat, j: nat)
    requires Sorted(s, ByName) && i + 1 < j <= |s| && Group(s, i, j)
    ensures AloneAt(s, i) <==> |s[i].index| != |s[i + 1].index| || s[i].tagged != s[i + 1].tagged
  {
    assert s[i + 1].name == s[i].name;
    FirstDoesNotLose(s[i], s[i + 1]);
    if Beats(s[i], s[i + 1]) {
      forall k | 0 <= k < |s| && k != i && s[k].name == s[i].name
        ensures Beats(s[i], s[k])
      {
        assert i < k < j;
        if k > i + 1 {
          FirstDoesNotLose(s[i + 1], s[k]);
        }
      }
    }
  }

  /** The fields that win, of all that are sorted by name. */
  method Winners(s: seq<Field>) returns (kept: seq<Field>)
    requires Sorted(s, ByName)
    ensures kept == KeptTo(s, |s|)
  {
    kept := [];
    var i := 0;
    while i < |s|
      invariant 0 <= i <= |s| && kept == KeptTo(s, i)
      invariant 0 < i < |s| ==> s[i - 1].name != s[i].name
    {
      var j := i + 1;
      while j < |s| && s[j].name == s[i].name
        invariant i < j <= |s| && forall k :: i <= k < j ==> s[k].name == s[i].name
      {
        j := j + 1;
      }
      GroupsApart(s, i, j);
      GroupKeeps(s, i, j);
      if j == i + 1 || |s[i].index| != |s[i + 1].index| || s[i].tagged != s[i + 1].tagged {
        kept := kept + [s[i]];
      }
      i := j;
    }
  }

  lemma GroupsApart(s: seq<Field>, i: nat, j: nat)
    requires Sorted(s, ByName) && i < j <= |s| && forall k :: i <= k < j ==> s[k].name == s[i].name
    requires (i > 0 ==> s[i - 1].name != s[i].name) && (j < |s| ==> s[j].name != s[i].name)
    ensures Group(s, i, j)
  {
    forall k | 0 <= k < i || j <= k < |s|
      ensures s[k].name != s[i].name
    {
      if s[k].name == s[i].name {
        if k < i {
          Between(s, k, i - 1, i);
        } else {
          Between(s, i, j, k);
        }
      }
    }
  }

  lemma Between(s: seq<Field>, i: nat, j: nat, k: nat)
    requires Sorted(s, ByName) && i <= j <= k < |s| && s[i].name == s[k].name
    ensures s[j].name == s[i].name
  {
    if i < j < k {
      var f, g, h := s[i], s[j], s[k];
      NamesTogether(f.name, [|f.index|, if f.tagged then 0 else 1] + f.index,
                    g.name, [|g.index|, if g.tagged then 0 else 1] + g.index,
                    [|h.index|, if h.tagged then 0 else 1] + h.index);
    }
  }

  lemma {:induction false} KeptAreAlone(s: seq<Field>, n: nat)
    requires n <= |s|
    ensures forall f :: f in KeptTo(s, n) <==> exists i :: 0 <= i < n && s[i] == f && AloneAt(s, i)
    ensures forall i, j :: 0 <= i < j < |KeptTo(s, n)| ==> KeptTo(s, n)[i] != KeptTo(s, n)[j]
    decreases n
  {
    if n > 0 {
      KeptAreAlone(s, n - 1);
      var before := KeptTo(s, n - 1);
      if AloneAt(s, n - 1) {
        forall k | 0 <= k < |before|
          ensures before[k] != s[n - 1]
        {
          assert before[k] in before;
          var i :| 0 <= i < n - 1 && s[i] == before[k] && AloneAt(s, i);
          assert s[i].name == s[n - 1].name ==> Beats(s[n - 1], s[i]);
        }
      }
    }
  }

  // The candidates.

  /**
   A field of a struct that the search came to, where the struct is: exported, or an embedded struct, and not left out, and
   no embedded struct without a name in its tag, whose fields are there for it.
   */
  predicate IsCandidate(types: Types, where: map<Id, Place>, f: Field, t: Id, i: nat) {
    && t in where && t in types && i < |types[t]|
    && var d := types[t][i];
       var embedded := d.anonymous && d.struct.Some?;
       && !d.dash && (d.exported || embedded) && !(embedded && d.tag == "")
       && f == Field(if d.tag != "" then d.tag else d.name, d.tag != "", where[t].path + [i], d.typ, d.quoted)
  }

  lemma {:induction false} GivenOnce(ds: seq<Declared>, place: Place, n: nat, f: Field)
    requires n <= |ds|
    ensures multiset(Given(ds, place, n))[f] ==
            if |f.index| == |place.path| + 1 && f.index[|place.path|] < n && GivesAt(ds, place, f.index[|place.path|], f)
            then if place.twice then 2 else 1
            else 0
    decreases n
  {
    if n > 0 {
      GivenOnce(ds, place, n - 1, f);
      assert FieldAt(ds[n - 1], place.path + [n - 1]).index == place.path + [n - 1];
    }
  }

  predicate GivesAt(ds: seq<Declared>, place: Place, i: nat, f: Field)
    requires i < |ds|
  {
    Plain(ds[i]) && f == FieldAt(ds[i], place.path + [i])
  }

  /** Two structs that the search came to are not at one place. */
  lemma PlacesApart(types: Types, root: Id, order: seq<Id>, where: map<Id, Place>, f: Field, t: Id, i: nat, u: Id, j: nat)
    requires root in types && Closed(types) && Explored(types, root, order, where)
    requires IsCandidate(types, where, f, t, i) && IsCandidate(types, where, f, u, j)
    ensures t == u && i == j
  {
    assert PlacedRight(types, root, t, where[t]) && PlacedRight(types, root, u, where[u]);
    var p, q := where[t].path, where[u].path;
    assert f.index == p + [i] == q + [j];
    assert p == (p + [i])[..|p|] == (q + [j])[..|q|] == q;
  }

  lemma {:induction false} AllGivenOnce(types: Types, root: Id, order: seq<Id>, where: map<Id, Place>, n: nat, f: Field, t: Id, i: nat)
    requires root in types && Closed(types) && Explored(types, root, order, where) && n <= |order|
    requires IsCandidate(types, where, f, t, i)
    ensures forall k :: 0 <= k < n ==> order[k] in types && order[k] in where
    ensures multiset(AllGiven(types, order[..n], where))[f] == if t in order[..n] then if where[t].twice then 2 else 1 else 0
    decreases n
  {
    if n > 0 {
      AllGivenOnce(types, root, order, where, n - 1, f, t, i);
      var u := order[n - 1];
      assert PlacedRight(types, root, u, where[u]);
      assert order[..n][..n - 1] == order[..n - 1];
      GivenOnce(types[u], where[u], |types[u]|, f);
      if u == t {
        assert f.index[|where[t].path|] == i;
      } else if |f.index| == |where[u].path| + 1 {
        var j := f.index[|where[u].path|];
        if j < |types[u]| && GivesAt(types[u], where[u], j, f) {
          PlacesApart(types, root, order, where, f, t, i, u, j);
        }
      }
    }
  }

  lemma {:induction false} AllGivenAreCandidates(types: Types, root: Id, order: seq<Id>, where: map<Id, Place>, n: nat, f: Field)
    requires root in types && Closed(types) && Explored(types, root, order, where) && n <= |order|
    ensures forall k :: 0 <= k < n ==> order[k] in types && order[k] in where
    ensures f in AllGiven(types, order[..n], where) ==> exists t, i :: IsCandidate(types, where, f, t, i)
    decreases n
  {
    if n > 0 {
      AllGivenAreCandidates(types, root, order, where, n - 1, f);
      var u := order[n - 1];
      assert PlacedRight(types, root, u, where[u]);
      assert order[..n][..n - 1] == order[..n - 1];
      var given := Given(types[u], where[u], |types[u]|);
      GivenOnce(types[u], where[u], |types[u]|, f);
      if f in given {
        assert multiset(given)[f] > 0;
        assert IsCandidate(types, where, f, u, f.index[|where[u].path|]);
      }
    }
  }

  /** What the search came to has a field as many times as its struct is there: once, or twice. */
  lemma CandidateCount(types: Types, root: Id, fields: seq<Field>, order: seq<Id>, where: map<Id, Place>, f: Field)
    requires root in types && Closed(types) && ExploredSoFar(types, root, fields, order, where)
    ensures f in fields <==> exists t, i :: IsCandidate(types, where, f, t, i)
    ensures forall t, i :: IsCandidate(types, where, f, t, i) ==> multiset(fields)[f] == if where[t].twice then 2 else 1
  {
    assert order[..|order|] == order;
    AllGivenAreCandidates(types, root, order, where, |order|, f);
    forall t, i | IsCandidate(types, where, f, t, i)
      ensures multiset(fields)[f] == if where[t].twice then 2 else 1
    {
      AllGivenOnce(types, root, order, where, |order|, f, t, i);
    }
    assert f in fields <==> multiset(fields)[f] > 0;
  }

  /** A candidate that wins: its struct is there once, and it is shallower than all others of its name, or alone in a tag. */
  ghost predicate Wins(types: Types, where: map<Id, Place>, f: Field, t: Id, i: nat) {
    && IsCandidate(types, where, f, t, i) && !where[t].twice
    && forall g, u, j :: IsCandidate(types, where, g, u, j) && (u != t || j != i) && g.name == f.name ==> Beats(f, g)
  }

  lemma AloneWins(types: Types, root: Id, fields: seq<Field>, order: seq<Id>, where: map<Id, Place>, f: Field)
    requires root in types && Closed(types) && ExploredSoFar(types, root, fields, order, where)
    ensures Alone(multiset(fields), f) <==> exists t, i :: Wins(types, where, f, t, i)
  {
    CandidateCount(types, root, fields, order, where, f);
    if Alone(multiset(fields), f) {
      assert f in fields;
      var t, i :| IsCandidate(types, where, f, t, i);
      forall g, u, j | IsCandidate(types, where, g, u, j) && (u != t || j != i) && g.name == f.name
        ensures Beats(f, g)
      {
        CandidateCount(types, root, fields, order, where, g);
        if g == f {
          PlacesApart(types, root, order, where, f, t, i, u, j);
        }
      }
      assert Wins(types, where, f, t, i);
    }
    if t, i :| Wins(types, where, f, t, i) {
      forall g | g in multiset(fields) && g != f && g.name == f.name
        ensures Beats(f, g)
      {
        CandidateCount(types, root, fields, order, where, g);
        var u, j :| IsCandidate(types, where, g, u, j);
        assert u != t || j != i;
      }
    }
  }

  /**
   jsonFieldsOf: for each name, the one candidate that wins, and none where none does, in the order that the fields are
   declared in.
   */
  method FieldsOf(types: Types, root: Id) returns (kept: seq<Field>, ghost order: seq<Id>, ghost where: map<Id, Place>)
    requires root in types && Closed(types)
    ensures Explored(types, root, order, where) && forall k: nat :: AtDepth(types, root, k) <= where.Keys
    ensures forall f :: f in kept <==> exists t, i :: Wins(types, where, f, t, i)
    ensures Sorted(kept, ByIndex) && forall f :: f in kept ==> multiset(kept)[f] == 1
  {
    var fields;
    fields, order, where := Candidates(types, root);
    var sorted := Sort(fields, ByName);
    SortSorts(fields, ByName);
    var winners := Winners(sorted);
    kept := Sort(winners, ByIndex);
    SortSorts(winners, ByIndex);
    forall f
      ensures f in kept <==> exists t, i :: Wins(types, where, f, t, i)
    {
      WinnersAreAlone(sorted, f);
      AloneWins(types, root, fields, order, where, f);
      assert f in kept <==> f in multiset(kept);
    }
    forall f | f in kept
      ensures multiset(kept)[f] == 1
    {
      KeptAreAlone(sorted, |sorted|);
      assert f in multiset(winners);
      OnceEach(winners, f);
    }
  }

  lemma WinnersAreAlone(s: seq<Field>, f: Field)
    ensures f in KeptTo(s, |s|) <==> Alone(multiset(s), f)
  {
    KeptAreAlone(s, |s|);
    forall i | 0 <= i < |s|
      ensures AloneAt(s, i) <==> Alone(multiset(s), s[i])
    {
      AloneByPlace(s, i);
    }
    if Alone(multiset(s), f) {
      assert f in s;
    }
  }

  lemma OnceEach(s: seq<Field>, f: Field)
    requires (forall i, j :: 0 <= i < j < |s| ==> s[i] != s[j]) && f in s
    ensures multiset(s)[f] == 1
  {
    var i :| 0 <= i < |s| && s[i] == f;
    Others(s, i);
    assert f !in Without(s, i);
  }

  /** fieldFor: the field named by a key, or else the first whose name is the key in another case. */
  function FieldFor(fields: seq<Field>, key: string, folds: (string, string) -> bool): (r: Option<Field>)
    ensures r.Some? ==> r.value in fields && (r.value.name == key || folds(r.value.name, key))
    ensures (exists f :: f in fields && f.name == key) ==> r.Some? && r.value.name == key
    ensures r.Some? && r.value.name != key ==>
              exists i :: 0 <= i < |fields| && fields[i] == r.value && forall j :: 0 <= j < i ==> !folds(fields[j].name, key)
    ensures r.None? ==> forall f :: f in fields ==> f.name != key && !folds(f.name, key)
  {
    var named := FirstOf(fields, (f: Field) => f.name == key);
    if named.Some? then named else FirstOf(fields, (f: Field) => folds(f.name, key))
  }

  function FirstOf(fields: seq<Field>, picks: Field -> bool): (r: Option<Field>)
    ensures r.Some? ==>
              picks(r.value) && exists i :: 0 <= i < |fields| && fields[i] == r.value && forall j :: 0 <= j < i ==> !picks(fields[j])
    ensures r.None? ==> forall f :: f in fields ==> !picks(f)
  {
    if fields == [] then None
    else if picks(fields[0]) then Some(fields[0])
    else
      var r := FirstOf(fields[1..], picks);
      assert r.Some? ==> forall i :: 0 <= i < |fields| - 1 ==> fields[i + 1] == fields[1..][i];
      r
  }
}
