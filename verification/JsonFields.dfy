/**
 jsonform.go: the fields that objects of a struct type are decoded into, through the structs embedded in it. The search
 visits each type once, at the least depth it is embedded at, whatever holds what.
 */
module JsonFields {
  import opened Options

  type Id = nat

  /**
   A field as its struct declares it: its json tag's name, if that is a valid one, and the struct type that it is of, or
   that its pointer is to.
   */
  datatype Declared = Declared(name: string, exported: bool, anonymous: bool, dash: bool, tag: string,
                               struct: Option<Id>, typ: Id, quoted: bool)

  type Types = map<Id, seq<Declared>>

  datatype Field = Field(name: string, tagged: bool, index: seq<nat>, typ: Id, quoted: bool)

  predicate Skipped(d: Declared) {
    d.dash || (!d.exported && !(d.anonymous && d.struct.Some?))
  }

  /** The struct whose fields come up a level, as those of an embedded struct with no name of its own do. */
  function Risen(d: Declared): Option<Id> {
    if !Skipped(d) && d.tag == "" && d.anonymous then d.struct else None
  }

  predicate Plain(d: Declared) {
    !Skipped(d) && Risen(d).None?
  }

  function FieldAt(d: Declared, index: seq<nat>): Field {
    Field(if d.tag != "" then d.tag else d.name, d.tag != "", index, d.typ, d.quoted)
  }

  /** Every struct that rises is one of the types. */
  predicate Closed(types: Types) {
    forall t, i :: t in types && 0 <= i < |types[t]| && Risen(types[t][i]).Some? ==> Risen(types[t][i]).value in types
  }

  // Depth.

  /** The fields by which the structs in some types rise, each as its struct and its place there. */
  function Edges(types: Types, from: set<Id>): set<(Id, nat)> {
    set t, i | t in from && t in types && 0 <= i < |types[t]| && Risen(types[t][i]).Some? :: (t, i)
  }

  function Target(types: Types, e: (Id, nat)): Id
    requires IsEdge(types, e)
  {
    Risen(types[e.0][e.1]).value
  }

  predicate IsEdge(types: Types, e: (Id, nat)) {
    e.0 in types && e.1 < |types[e.0]| && Risen(types[e.0][e.1]).Some?
  }

  function To(types: Types, edges: set<(Id, nat)>, t: Id): set<(Id, nat)> {
    set e | e in edges && IsEdge(types, e) && Target(types, e) == t
  }

  function Raised(types: Types, from: set<Id>): set<Id> {
    set e | e in Edges(types, from) :: Target(types, e)
  }

  /** The types embedded at a depth less than k; the struct asked about is at depth 0. */
  function Above(types: Types, root: Id, k: nat): set<Id>
    decreases k, 0
  {
    if k == 0 then {} else if k == 1 then {root} else AndRaised(types, root, k - 1)
  }

  function AndRaised(types: Types, root: Id, k: nat): set<Id>
    decreases k, 1
  {
    Above(types, root, k) + Raised(types, Above(types, root, k))
  }

  /** The types at depth k: embedded through k structs, and through no fewer. */
  function AtDepth(types: Types, root: Id, k: nat): set<Id> {
    Above(types, root, k + 1) - Above(types, root, k)
  }

  /** Where a path of fields leads from a struct, through structs that rise. */
  function Leads(types: Types, root: Id, path: seq<nat>): Option<Id>
    requires root in types && Closed(types)
    ensures Leads(types, root, path).Some? ==> Leads(types, root, path).value in types
  {
    if path == [] then Some(root)
    else
      var at := Leads(types, root, path[..|path| - 1]);
      if at.None? || path[|path| - 1] >= |types[at.value]| then None else Risen(types[at.value][path[|path| - 1]])
  }

  lemma RaisedOfBoth(types: Types, s: set<Id>, t: set<Id>)
    ensures Raised(types, s + t) == Raised(types, s) + Raised(types, t)
  {
    forall x | x in Raised(types, s + t)
      ensures x in Raised(types, s) + Raised(types, t)
    {
      var e :| e in Edges(types, s + t) && Target(types, e) == x;
      assert e in Edges(types, s) || e in Edges(types, t);
    }
    forall x | x in Raised(types, s)
      ensures x in Raised(types, s + t)
    {
      var e :| e in Edges(types, s) && Target(types, e) == x;
      assert e in Edges(types, s + t);
    }
    forall x | x in Raised(types, t)
      ensures x in Raised(types, s + t)
    {
      var e :| e in Edges(types, t) && Target(types, e) == x;
      assert e in Edges(types, s + t);
    }
  }

  /** The next level rises from this one alone. */
  lemma {:induction false} NextLevel(types: Types, root: Id, k: nat)
    ensures Above(types, root, k) <= Above(types, root, k + 1)
    ensures Above(types, root, k + 2) == Above(types, root, k + 1) + Raised(types, AtDepth(types, root, k))
  {
    var here := AtDepth(types, root, k);
    assert Above(types, root, k + 2) == AndRaised(types, root, k + 1);
    if k == 0 {
      assert here == {root};
    } else {
      assert k > 1 ==> Above(types, root, k) == AndRaised(types, root, k - 1);
      assert Above(types, root, k + 1) == AndRaised(types, root, k);
      NextLevel(types, root, k - 1);
      assert Above(types, root, k) + here == Above(types, root, k + 1);
      RaisedOfBoth(types, Above(types, root, k), here);
      assert Raised(types, Above(types, root, k)) <= Above(types, root, k + 1);
    }
  }

  lemma NothingRises(types: Types)
    ensures Raised(types, {}) == {}
  {
    assert Edges(types, {}) == {};
  }

  /** Below an empty level there is nothing. */
  lemma {:induction false} EmptyLevelIsLast(types: Types, root: Id, k: nat, more: nat)
    requires AtDepth(types, root, k) == {}
    ensures AtDepth(types, root, k + more) == {} && Above(types, root, k + more) == Above(types, root, k)
    decreases more
  {
    if more > 0 {
      EmptyLevelIsLast(types, root, k, more - 1);
      NextLevel(types, root, k + more - 1);
      NothingRises(types);
    }
  }

  lemma {:induction false} LevelsAbove(types: Types, root: Id, j: nat, k: nat)
    requires j < k
    ensures AtDepth(types, root, j) <= Above(types, root, k)
    decreases k
  {
    NextLevel(types, root, k - 1);
    if j < k - 1 {
      LevelsAbove(types, root, j, k - 1);
    }
  }

  // The search.

  /** Where a struct is embedded, and whether it is embedded more than once there, so that its fields cancel out. */
  datatype Place = Place(path: seq<nat>, twice: bool)

  /** What a struct's first n fields give, where it is. */
  function Given(ds: seq<Declared>, place: Place, n: nat): seq<Field>
    requires n <= |ds|
  {
    if n == 0 then []
    else
      var before, field := Given(ds, place, n - 1), FieldAt(ds[n - 1], place.path + [n - 1]);
      if !Plain(ds[n - 1]) then before else if place.twice then before + [field, field] else before + [field]
  }

  function AllGiven(types: Types, order: seq<Id>, where: map<Id, Place>): seq<Field>
    requires forall i :: 0 <= i < |order| ==> order[i] in types && order[i] in where
  {
    if order == [] then []
    else
      var t := order[|order| - 1];
      AllGiven(types, order[..|order| - 1], where) + Given(types[t], where[t], |types[t]|)
  }

  /** A struct's place is at its depth, and it is there twice when two fields of the structs just above rise to it. */
  predicate PlacedRight(types: Types, root: Id, t: Id, place: Place)
    requires root in types && Closed(types)
  {
    var k := |place.path|;
    && t in types && Leads(types, root, place.path) == Some(t) && t in AtDepth(types, root, k)
    && (place.twice <==> k > 0 && |To(types, Edges(types, AtDepth(types, root, k - 1)), t)| > 1)
  }

  ghost predicate Lists(order: seq<Id>, ts: set<Id>) {
    && (forall i :: 0 <= i < |order| ==> order[i] in ts)
    && (forall t :: t in ts ==> t in order)
    && (forall i, j :: 0 <= i < j < |order| ==> order[i] != order[j])
  }

  ghost predicate Explored(types: Types, root: Id, order: seq<Id>, where: map<Id, Place>)
    requires root in types && Closed(types)
  {
    && Lists(order, where.Keys)
    && forall t :: t in where ==> PlacedRight(types, root, t, where[t])
  }

  type Next = seq<(Id, seq<nat>)>

  function TypesOf(next: Next): set<Id> {
    set i | 0 <= i < |next| :: next[i].0
  }

  function Count(counts: map<Id, nat>, t: Id): nat {
    if t in counts then counts[t] else 0
  }

  ghost predicate CountsRight(types: Types, edges: set<(Id, nat)>, counts: map<Id, nat>) {
    forall t :: Count(counts, t) == |To(types, edges, t)|
  }

  ghost predicate Reached(types: Types, edges: set<(Id, nat)>, ts: set<Id>) {
    forall e :: e in edges ==> IsEdge(types, e) && Target(types, e) in ts
  }

  ghost predicate NextsRight(types: Types, root: Id, k: nat, edges: set<(Id, nat)>, next: Next)
    requires root in types && Closed(types)
  {
    forall i :: 0 <= i < |next| ==> NextRight(types, root, k, edges, next[i])
  }

  predicate Apart(next: Next) {
    forall i, j :: 0 <= i < j < |next| ==> next[i].0 != next[j].0
  }

  /** The next level so far: what some edges lead to, each type once, with a path there, and how many of them lead there. */
  ghost predicate Counted(types: Types, root: Id, k: nat, edges: set<(Id, nat)>, next: Next, counts: map<Id, nat>)
    requires root in types && Closed(types)
  {
    && Reached(types, edges, TypesOf(next)) && CountsRight(types, edges, counts)
    && NextsRight(types, root, k, edges, next) && Apart(next)
  }

  /** The next levels, with their counts, that some edges make. */
  ghost function Tallies(types: Types, root: Id, k: nat, edges: set<(Id, nat)>): iset<(Next, map<Id, nat>)>
    requires root in types && Closed(types)
  {
    iset next: Next, counts: map<Id, nat> | Counted(types, root, k, edges, next, counts) :: (next, counts)
  }

  predicate NextRight(types: Types, root: Id, k: nat, edges: set<(Id, nat)>, n: (Id, seq<nat>))
    requires root in types && Closed(types)
  {
    n.0 in types && |n.1| == k && Leads(types, root, n.1) == Some(n.0) && To(types, edges, n.0) != {}
  }

  lemma OneMoreEdge(types: Types, edges: set<(Id, nat)>, e: (Id, nat), t: Id)
    requires IsEdge(types, e) && e !in edges
    ensures To(types, edges + {e}, t) == To(types, edges, t) + if Target(types, e) == t then {e} else {}
    ensures |To(types, edges + {e}, t)| == |To(types, edges, t)| + if Target(types, e) == t then 1 else 0
  {
    assert To(types, edges + {e}, t) == To(types, edges, t) + if Target(types, e) == t then {e} else {};
  }

  lemma CountsOneMore(types: Types, edges: set<(Id, nat)>, counts: map<Id, nat>, e: (Id, nat), t: Id)
    requires CountsRight(types, edges, counts) && IsEdge(types, e) && e !in edges && Target(types, e) == t
    ensures CountsRight(types, edges + {e}, counts[t := Count(counts, t) + 1])
  {
    forall x
      ensures Count(counts[t := Count(counts, t) + 1], x) == |To(types, edges + {e}, x)|
    {
      OneMoreEdge(types, edges, e, x);
    }
  }

  lemma NextsOneMore(types: Types, root: Id, k: nat, edges: set<(Id, nat)>, next: Next, e: (Id, nat))
    requires root in types && Closed(types) && NextsRight(types, root, k, edges, next) && IsEdge(types, e) && e !in edges
    ensures NextsRight(types, root, k, edges + {e}, next)
  {
    forall i | 0 <= i < |next|
      ensures NextRight(types, root, k, edges + {e}, next[i])
    {
      OneMoreEdge(types, edges, e, next[i].0);
    }
  }

  /** A type that rises: the first time it does in a level it is put with the next, and it is counted each time. */
  function Raise(next: Next, counts: map<Id, nat>, t: Id, index: seq<nat>): (Next, map<Id, nat>) {
    (if Count(counts, t) == 0 then next + [(t, index)] else next, counts[t := Count(counts, t) + 1])
  }

  function RaisedBy(ds: seq<Declared>, path: seq<nat>, n: nat, next: Next, counts: map<Id, nat>): (Next, map<Id, nat>)
    requires n <= |ds|
  {
    if n == 0 then (next, counts)
    else
      var (before, counted) := RaisedBy(ds, path, n - 1, next, counts);
      var risen := Risen(ds[n - 1]);
      if risen.None? then (before, counted) else Raise(before, counted, risen.value, path + [n - 1])
  }

  lemma RaiseCounts(types: Types, root: Id, k: nat, edges: set<(Id, nat)>, next: Next, counts: map<Id, nat>,
                    e: (Id, nat), t: Id, index: seq<nat>)
    requires root in types && Closed(types) && (next, counts) in Tallies(types, root, k, edges)
    requires IsEdge(types, e) && e !in edges && Target(types, e) == t
    requires t in types && |index| == k && Leads(types, root, index) == Some(t)
    ensures Raise(next, counts, t, index) in Tallies(types, root, k, edges + {e})
  {
    CountsOneMore(types, edges, counts, e, t);
    NextsOneMore(types, root, k, edges, next, e);
    if Count(counts, t) == 0 {
      FirstToRise(types, root, k, edges, next, e, (t, index));
      FirstIsApart(types, root, k, edges, next, (t, index));
    } else {
      CountedIsNext(types, root, k, edges, next, counts, t);
    }
  }

  lemma FirstIsApart(types: Types, root: Id, k: nat, edges: set<(Id, nat)>, next: Next, n: (Id, seq<nat>))
    requires root in types && Closed(types) && NextsRight(types, root, k, edges, next) && Apart(next)
    requires |To(types, edges, n.0)| == 0
    ensures Apart(next + [n])
  {
    forall i | 0 <= i < |next|
      ensures next[i].0 != n.0
    {
      assert NextRight(types, root, k, edges, next[i]);
    }
  }

  lemma NextsWith(types: Types, root: Id, k: nat, edges: set<(Id, nat)>, next: Next, n: (Id, seq<nat>))
    requires root in types && Closed(types) && NextsRight(types, root, k, edges, next) && NextRight(types, root, k, edges, n)
    ensures NextsRight(types, root, k, edges, next + [n])
  {
  }

  lemma FirstToRise(types: Types, root: Id, k: nat, edges: set<(Id, nat)>, next: Next, e: (Id, nat), n: (Id, seq<nat>))
    requires root in types && Closed(types) && NextsRight(types, root, k, edges + {e}, next)
    requires IsEdge(types, e) && Target(types, e) == n.0 && n.0 in types && Reached(types, edges, TypesOf(next))
    requires |n.1| == k && Leads(types, root, n.1) == Some(n.0)
    ensures Reached(types, edges + {e}, TypesOf(next + [n])) && NextsRight(types, root, k, edges + {e}, next + [n])
  {
    TypesOfMore(next, n);
    assert e in To(types, edges + {e}, n.0);
    NextsWith(types, root, k, edges + {e}, next, n);
  }

  lemma TypesOfMore(next: Next, n: (Id, seq<nat>))
    ensures TypesOf(next + [n]) == TypesOf(next) + {n.0}
  {
    var more := next + [n];
    assert more[|next|] == n && forall i :: 0 <= i < |next| ==> more[i] == next[i];
    forall t | t in TypesOf(next)
      ensures t in TypesOf(more)
    {
      var i :| 0 <= i < |next| && next[i].0 == t;
      assert more[i].0 == t;
    }
  }

  lemma CountedIsNext(types: Types, root: Id, k: nat, edges: set<(Id, nat)>, next: Next, counts: map<Id, nat>, t: Id)
    requires root in types && Closed(types) && Counted(types, root, k, edges, next, counts) && Count(counts, t) > 0
    ensures t in TypesOf(next)
  {
    assert |To(types, edges, t)| > 0;
    var e :| e in To(types, edges, t);
  }

  lemma {:induction false} StructCounts(types: Types, root: Id, k: nat, t: Id, path: seq<nat>, n: nat, edges: set<(Id, nat)>,
                                        next: Next, counts: map<Id, nat>)
    requires root in types && Closed(types) && (next, counts) in Tallies(types, root, k + 1, edges)
    requires t in types && n <= |types[t]| && |path| == k && Leads(types, root, path) == Some(t)
    requires forall e :: e in edges ==> e.0 != t
    ensures RaisedBy(types[t], path, n, next, counts) in Tallies(types, root, k + 1, edges + EdgesTo(types, t, n))
    decreases n
  {
    if n == 0 {
      EdgesToNone(types, edges, t);
    } else {
      StructCounts(types, root, k, t, path, n - 1, edges, next, counts);
      var (before, counted) := RaisedBy(types[t], path, n - 1, next, counts);
      EdgesToMore(types, edges, t, n);
      FieldCounts(types, root, k, t, path, n - 1, edges + EdgesTo(types, t, n - 1), edges + EdgesTo(types, t, n), before, counted);
    }
  }

  lemma FieldCounts(types: Types, root: Id, k: nat, t: Id, path: seq<nat>, i: nat, edges: set<(Id, nat)>, more: set<(Id, nat)>,
                    next: Next, counts: map<Id, nat>)
    requires root in types && Closed(types) && (next, counts) in Tallies(types, root, k + 1, edges)
    requires t in types && i < |types[t]| && |path| == k && Leads(types, root, path) == Some(t) && (t, i) !in edges
    requires more == edges + if Risen(types[t][i]).Some? then {(t, i)} else {}
    ensures var risen := Risen(types[t][i]);
      (if risen.None? then (next, counts) else Raise(next, counts, risen.value, path + [i])) in Tallies(types, root, k + 1, more)
  {
    if Risen(types[t][i]).Some? {
      LeadsOn(types, root, t, path, i);
      RaiseCounts(types, root, k + 1, edges, next, counts, (t, i), Risen(types[t][i]).value, path + [i]);
    } else {
      assert more == edges;
    }
  }

  lemma EdgesToNone(types: Types, edges: set<(Id, nat)>, t: Id)
    requires t in types
    ensures edges + EdgesTo(types, t, 0) == edges
  {
  }

  lemma EdgesToMore(types: Types, edges: set<(Id, nat)>, t: Id, n: nat)
    requires t in types && 0 < n <= |types[t]| && forall e :: e in edges ==> e.0 != t
    ensures edges + EdgesTo(types, t, n) ==
            edges + EdgesTo(types, t, n - 1) + if Risen(types[t][n - 1]).Some? then {(t, n - 1)} else {}
    ensures (t, n - 1) !in edges + EdgesTo(types, t, n - 1)
  {
  }

  lemma LeadsOn(types: Types, root: Id, t: Id, path: seq<nat>, i: nat)
    requires root in types && Closed(types) && Leads(types, root, path) == Some(t) && i < |types[t]| && Risen(types[t][i]).Some?
    ensures IsEdge(types, (t, i)) && Target(types, (t, i)) in types
    ensures Leads(types, root, path + [i]) == Some(Risen(types[t][i]).value)
  {
    assert (path + [i])[..|path|] == path;
  }

  function EdgesTo(types: Types, t: Id, n: nat): set<(Id, nat)>
    requires t in types && n <= |types[t]|
  {
    set i: nat | i < n && Risen(types[t][i]).Some? :: (t, i)
  }

  ghost predicate LevelBefore(types: Types, root: Id, k: nat, next: Next, counts: map<Id, nat>)
    requires root in types && Closed(types)
  {
    if k == 0 then next == [(root, [])] && counts == map[]
    else Counted(types, root, k, Edges(types, AtDepth(types, root, k - 1)), next, counts)
  }

  ghost predicate ExploredSoFar(types: Types, root: Id, fields: seq<Field>, order: seq<Id>, where: map<Id, Place>)
    requires root in types && Closed(types)
  {
    Explored(types, root, order, where) && fields == AllGiven(types, order, where)
  }

  lemma RaisedIsNext(types: Types, root: Id, k: nat, from: set<Id>, next: Next, counts: map<Id, nat>)
    requires root in types && Closed(types) && Counted(types, root, k, Edges(types, from), next, counts)
    ensures TypesOf(next) == Raised(types, from)
  {
    forall t | t in TypesOf(next)
      ensures t in Raised(types, from)
    {
      var i :| 0 <= i < |next| && next[i].0 == t;
      assert NextRight(types, root, k, Edges(types, from), next[i]);
      var e :| e in To(types, Edges(types, from), t);
    }
  }

  lemma LevelIsNext(types: Types, root: Id, k: nat, next: Next, counts: map<Id, nat>)
    requires root in types && Closed(types) && LevelBefore(types, root, k, next, counts)
    ensures TypesOf(next) - Above(types, root, k) == AtDepth(types, root, k)
    ensures Above(types, root, k + 1) == Above(types, root, k) + TypesOf(next)
  {
    if k == 0 {
      assert next[0] == (root, []);
      assert TypesOf(next) == {root};
    } else {
      NextLevel(types, root, k - 1);
      RaisedIsNext(types, root, k, AtDepth(types, root, k - 1), next, counts);
    }
  }

  /** Where the next struct of a level is, it is rightly placed, once it is known to be no higher. */
  lemma NextIsPlaced(types: Types, root: Id, k: nat, next: Next, counts: map<Id, nat>, i: nat)
    requires root in types && Closed(types) && LevelBefore(types, root, k, next, counts) && i < |next|
    requires next[i].0 in AtDepth(types, root, k)
    ensures PlacedRight(types, root, next[i].0, Place(next[i].1, Count(counts, next[i].0) > 1))
  {
    if k > 0 {
      assert NextRight(types, root, k, Edges(types, AtDepth(types, root, k - 1)), next[i]);
    }
  }

  lemma {:induction false} AllGivenSame(types: Types, order: seq<Id>, where: map<Id, Place>, t: Id, place: Place)
    requires forall i :: 0 <= i < |order| ==> order[i] in types && order[i] in where && order[i] != t
    ensures AllGiven(types, order, where[t := place]) == AllGiven(types, order, where)
    decreases |order|
  {
    if order != [] {
      AllGivenSame(types, order[..|order| - 1], where, t, place);
    }
  }

  lemma ListsMore(order: seq<Id>, ts: set<Id>, t: Id)
    requires Lists(order, ts) && t !in ts
    ensures Lists(order + [t], ts + {t})
  {
    assert (order + [t])[|order|] == t;
    forall x | x in ts
      ensures x in order + [t]
    {
      assert x in order;
    }
  }

  lemma AllGivenMore(types: Types, order: seq<Id>, where: map<Id, Place>, t: Id, place: Place)
    requires (forall i :: 0 <= i < |order| ==> order[i] in types && order[i] in where && order[i] != t) && t in types
    ensures AllGiven(types, order + [t], where[t := place]) == AllGiven(types, order, where) + Given(types[t], place, |types[t]|)
  {
    AllGivenSame(types, order, where, t, place);
    assert (order + [t])[..|order|] == order;
  }

  lemma ExploredMore(types: Types, root: Id, fields: seq<Field>, order: seq<Id>, where: map<Id, Place>, t: Id, place: Place)
    requires root in types && Closed(types) && ExploredSoFar(types, root, fields, order, where)
    requires t !in where && PlacedRight(types, root, t, place)
    ensures ExploredSoFar(types, root, fields + Given(types[t], place, |types[t]|), order + [t], where[t := place])
  {
    ListsMore(order, where.Keys, t);
    assert where[t := place].Keys == where.Keys + {t};
    VisitedAreTypes(types, root, order, where);
    AllGivenMore(types, order, where, t, place);
  }

  lemma EdgesOfBoth(types: Types, s: set<Id>, t: Id)
    ensures Edges(types, s + {t}) == Edges(types, s) + Edges(types, {t})
  {
  }

  /** The search: the types it has visited, in their order and where they are, and what it raised to the next level. */
  datatype Search = Search(fields: seq<Field>, visited: set<Id>, next: Next, counts: map<Id, nat>,
                           order: seq<Id>, where: map<Id, Place>)

  function FieldsIn(types: Types, t: Id): seq<Declared> {
    if t in types then types[t] else []
  }

  function Visit(types: Types, t: Id, place: Place, s: Search): Search {
    var ds := FieldsIn(types, t);
    var (next, counts) := RaisedBy(ds, place.path, |ds|, s.next, s.counts);
    Search(s.fields + Given(ds, place, |ds|), s.visited + {t}, next, counts, s.order + [t], s.where[t := place])
  }

  /** Where the c-th struct of a level is. */
  function PlaceOf(s: Search, c: nat): Place
    requires c < |s.next|
  {
    Place(s.next[c].1, Count(s.counts, s.next[c].0) > 1)
  }

  /** A level of the search, of the first n structs that are next. */
  function LevelTo(types: Types, s: Search, n: nat): Search
    requires n <= |s.next|
    decreases n
  {
    if n == 0 then s.(next := [], counts := map[])
    else
      var before := LevelTo(types, s, n - 1);
      if s.next[n - 1].0 in before.visited then before else Visit(types, s.next[n - 1].0, PlaceOf(s, n - 1), before)
  }

  /** The search after k levels. */
  function SearchTo(types: Types, root: Id, k: nat): Search {
    if k == 0 then Search([], {}, [(root, [])], map[], [], map[])
    else
      var s := SearchTo(types, root, k - 1);
      LevelTo(types, s, |s.next|)
  }

  // What a level does, part by part.

  lemma {:induction false} LevelVisits(types: Types, s: Search, n: nat)
    requires n <= |s.next|
    ensures LevelTo(types, s, n).visited == s.visited + TypesOf(s.next[..n])
    decreases n
  {
    if n > 0 {
      LevelVisits(types, s, n - 1);
      TypesOfMore(s.next[..n - 1], s.next[n - 1]);
      assert s.next[..n] == s.next[..n - 1] + [s.next[n - 1]];
    }
  }

  lemma NextLeads(types: Types, root: Id, k: nat, s: Search, c: nat)
    requires root in types && Closed(types) && LevelBefore(types, root, k, s.next, s.counts) && c < |s.next|
    ensures s.next[c].0 in types && |s.next[c].1| == k && Leads(types, root, s.next[c].1) == Some(s.next[c].0)
  {
    if k > 0 {
      assert NextRight(types, root, k, Edges(types, AtDepth(types, root, k - 1)), s.next[c]);
    }
  }

  lemma {:induction false} LevelCounts(types: Types, root: Id, k: nat, s: Search, n: nat)
    requires root in types && Closed(types) && LevelBefore(types, root, k, s.next, s.counts) && n <= |s.next|
    ensures var r := LevelTo(types, s, n);
      s.visited <= r.visited && (r.next, r.counts) in Tallies(types, root, k + 1, Edges(types, r.visited - s.visited))
    decreases n
  {
    if n == 0 {
      NothingCounted(types, root, k + 1);
      assert s.visited - s.visited == {};
    } else {
      LevelCounts(types, root, k, s, n - 1);
      var before, t := LevelTo(types, s, n - 1), s.next[n - 1].0;
      if t !in before.visited {
        NextLeads(types, root, k, s, n - 1);
        VisitCounts(types, root, k, t, PlaceOf(s, n - 1), before, before.visited - s.visited);
        OneMoreDone(s.visited, before.visited, t);
      }
    }
  }

  lemma OneMoreDone(above: set<Id>, visited: set<Id>, t: Id)
    requires above <= visited && t !in visited
    ensures above <= visited + {t} && visited + {t} - above == visited - above + {t}
  {
  }

  lemma VisitCounts(types: Types, root: Id, k: nat, t: Id, place: Place, s: Search, done: set<Id>)
    requires root in types && Closed(types) && (s.next, s.counts) in Tallies(types, root, k + 1, Edges(types, done)) && t !in done
    requires t in types && |place.path| == k && Leads(types, root, place.path) == Some(t)
    ensures (Visit(types, t, place, s).next, Visit(types, t, place, s).counts) in Tallies(types, root, k + 1, Edges(types, done + {t}))
  {
    StructCounts(types, root, k, t, place.path, |types[t]|, Edges(types, done), s.next, s.counts);
    EdgesOfBoth(types, done, t);
    assert Edges(types, {t}) == EdgesTo(types, t, |types[t]|);
  }

  /** A search has explored all that it visited. */
  ghost predicate AllExplored(types: Types, root: Id, r: Search)
    requires root in types && Closed(types)
  {
    r.visited == r.where.Keys && ExploredSoFar(types, root, r.fields, r.order, r.where)
  }

  lemma {:induction false} LevelExplores(types: Types, root: Id, k: nat, s: Search, n: nat)
    requires root in types && Closed(types) && LevelBefore(types, root, k, s.next, s.counts) && n <= |s.next|
    requires s.visited == Above(types, root, k) && AllExplored(types, root, s)
    ensures AllExplored(types, root, LevelTo(types, s, n))
    decreases n
  {
    if n > 0 {
      var before, after := LevelTo(types, s, n - 1), LevelTo(types, s, n);
      LevelExplores(types, root, k, s, n - 1);
      LevelVisits(types, s, n - 1);
      OneVisited(types, root, k, s, n - 1, before, after);
    }
  }

  lemma OneVisited(types: Types, root: Id, k: nat, s: Search, i: nat, before: Search, after: Search)
    requires root in types && Closed(types) && LevelBefore(types, root, k, s.next, s.counts) && i < |s.next|
    requires Above(types, root, k) <= before.visited && AllExplored(types, root, before)
    requires after == if s.next[i].0 in before.visited then before else Visit(types, s.next[i].0, PlaceOf(s, i), before)
    ensures AllExplored(types, root, after)
  {
    if s.next[i].0 !in before.visited {
      IsOneOf(s.next, i);
      LevelIsNext(types, root, k, s.next, s.counts);
      NextIsPlaced(types, root, k, s.next, s.counts, i);
      VisitExplores(types, root, s.next[i].0, PlaceOf(s, i), before);
    }
  }

  lemma VisitExplores(types: Types, root: Id, t: Id, place: Place, s: Search)
    requires root in types && Closed(types) && s.visited == s.where.Keys && t !in s.visited
    requires ExploredSoFar(types, root, s.fields, s.order, s.where) && PlacedRight(types, root, t, place)
    ensures var r := Visit(types, t, place, s);
      r.visited == r.where.Keys && ExploredSoFar(types, root, r.fields, r.order, r.where)
  {
    ExploredMore(types, root, s.fields, s.order, s.where, t, place);
    assert s.where[t := place].Keys == s.where.Keys + {t};
  }

  /** Between levels: all that is above depth k is explored, and what is at depth k is next. */
  ghost predicate Searched(types: Types, root: Id, k: nat, s: Search)
    requires root in types && Closed(types)
  {
    && LevelBefore(types, root, k, s.next, s.counts) && s.visited == Above(types, root, k) == s.where.Keys
    && ExploredSoFar(types, root, s.fields, s.order, s.where)
  }

  lemma {:induction false} SearchesByDepth(types: Types, root: Id, k: nat)
    requires root in types && Closed(types)
    ensures Searched(types, root, k, SearchTo(types, root, k))
    decreases k
  {
    if k > 0 {
      SearchesByDepth(types, root, k - 1);
      NextSearched(types, root, k - 1, SearchTo(types, root, k - 1));
    }
  }

  lemma NextSearched(types: Types, root: Id, k: nat, s: Search)
    requires root in types && Closed(types) && Searched(types, root, k, s)
    ensures Searched(types, root, k + 1, LevelTo(types, s, |s.next|))
  {
    LevelExplores(types, root, k, s, |s.next|);
    LevelCounts(types, root, k, s, |s.next|);
    LevelDone(types, root, k, s);
  }

  lemma LevelDone(types: Types, root: Id, k: nat, s: Search)
    requires root in types && Closed(types) && Searched(types, root, k, s)
    ensures var r := LevelTo(types, s, |s.next|);
      r.visited == Above(types, root, k + 1) && r.visited - s.visited == AtDepth(types, root, k)
  {
    LevelVisits(types, s, |s.next|);
    LevelIsNext(types, root, k, s.next, s.counts);
    assert s.next[..|s.next|] == s.next;
  }

  /** A level that visits nothing is the last, and there are only so many types to visit. */
  lemma SearchGoesOn(types: Types, root: Id, k: nat)
    requires root in types && Closed(types)
    ensures var s, r := SearchTo(types, root, k), SearchTo(types, root, k + 1);
      s.visited <= r.visited <= types.Keys && (r.visited == s.visited ==> r.next == [])
  {
    var s, r := SearchTo(types, root, k), SearchTo(types, root, k + 1);
    SearchesByDepth(types, root, k);
    SearchesByDepth(types, root, k + 1);
    NextLevel(types, root, k);
    VisitedAreTypes(types, root, r.order, r.where);
    if r.visited == s.visited {
      NothingNext(types, root, k + 1, r.next, r.counts);
    }
  }

  /** The fields of every struct that rises to a type, at the least depth it does, twice where it is there twice. */
  method Candidates(types: Types, root: Id) returns (fields: seq<Field>, ghost order: seq<Id>, ghost where: map<Id, Place>)
    requires root in types && Closed(types)
    ensures ExploredSoFar(types, root, fields, order, where)
    ensures forall k: nat :: AtDepth(types, root, k) <= where.Keys
  {
    fields := [];
    var next: Next, nextCount: map<Id, nat>, visited: set<Id> := [(root, [])], map[], {};
    ghost var k := 0;
    ghost var s := SearchTo(types, root, 0);
    while next != []
      invariant s == SearchTo(types, root, k)
      invariant fields == s.fields && next == s.next && nextCount == s.counts && visited == s.visited
      decreases types.Keys - visited, next != []
    {
      SearchGoesOn(types, root, k);
      fields, visited, next, nextCount := Level(types, s, fields, visited, next, nextCount);
      k, s := k + 1, LevelTo(types, s, |s.next|);
    }
    order, where := s.order, s.where;
    SearchIsOver(types, root, k);
  }

  method Level(types: Types, ghost s: Search, fields: seq<Field>, visited: set<Id>, current: Next, count: map<Id, nat>)
    returns (fields': seq<Field>, visited': set<Id>, next: Next, nextCount: map<Id, nat>)
    requires fields == s.fields && visited == s.visited && current == s.next && count == s.counts
    ensures var r := LevelTo(types, s, |s.next|);
      fields' == r.fields && visited' == r.visited && next == r.next && nextCount == r.counts
  {
    fields', visited', next, nextCount := fields, visited, [], map[];
    for c := 0 to |current|
      invariant var r := LevelTo(types, s, c);
        fields' == r.fields && visited' == r.visited && next == r.next && nextCount == r.counts
    {
      var (t, index) := current[c];
      if t in visited' {
        continue;
      }
      visited' := visited' + {t};
      var given;
      given, next, nextCount := VisitFields(FieldsIn(types, t), Place(index, Count(count, t) > 1), next, nextCount);
      fields' := fields' + given;
    }
  }

  /** One struct: its plain fields, and the structs that rise through the others. */
  method VisitFields(ds: seq<Declared>, place: Place, next: Next, counts: map<Id, nat>)
    returns (given: seq<Field>, next': Next, counts': map<Id, nat>)
    ensures given == Given(ds, place, |ds|) && (next', counts') == RaisedBy(ds, place.path, |ds|, next, counts)
  {
    given, next', counts' := [], next, counts;
    for i := 0 to |ds|
      invariant given == Given(ds, place, i) && (next', counts') == RaisedBy(ds, place.path, i, next, counts)
    {
      var index := place.path + [i];
      if Skipped(ds[i]) {
        continue;
      }
      var risen := Risen(ds[i]);
      if risen.Some? {
        counts' := counts'[risen.value := Count(counts', risen.value) + 1];
        if counts'[risen.value] == 1 {
          next' := next' + [(risen.value, index)];
        }
        continue;
      }
      given := given + [FieldAt(ds[i], index)];
      if place.twice {
        given := given + [FieldAt(ds[i], index)];
      }
    }
  }

  lemma SearchIsOver(types: Types, root: Id, k: nat)
    requires root in types && Closed(types) && SearchTo(types, root, k).next == []
    ensures var s := SearchTo(types, root, k);
      ExploredSoFar(types, root, s.fields, s.order, s.where) && forall j: nat :: AtDepth(types, root, j) <= s.where.Keys
  {
    var s := SearchTo(types, root, k);
    SearchesByDepth(types, root, k);
    LevelIsNext(types, root, k, s.next, s.counts);
    assert TypesOf(s.next) == {};
    AllLevelsAbove(types, root, k);
  }

  lemma NothingCounted(types: Types, root: Id, k: nat)
    requires root in types && Closed(types)
    ensures ([], map[]) in Tallies(types, root, k, Edges(types, {}))
  {
    assert Edges(types, {}) == {};
  }

  lemma IsOneOf(next: Next, i: nat)
    requires i < |next|
    ensures next[i].0 in TypesOf(next)
  {
  }

  lemma NothingNext(types: Types, root: Id, k: nat, next: Next, counts: map<Id, nat>)
    requires root in types && Closed(types) && Counted(types, root, k, Edges(types, {}), next, counts)
    ensures next == []
  {
    NothingRises(types);
    RaisedIsNext(types, root, k, {}, next, counts);
    if next != [] {
      IsOneOf(next, 0);
    }
  }

  lemma AllLevelsAbove(types: Types, root: Id, k: nat)
    requires AtDepth(types, root, k) == {}
    ensures forall j: nat :: AtDepth(types, root, j) <= Above(types, root, k)
  {
    forall j: nat
      ensures AtDepth(types, root, j) <= Above(types, root, k)
    {
      if j < k {
        LevelsAbove(types, root, j, k);
      } else {
        EmptyLevelIsLast(types, root, k, j - k);
      }
    }
  }

  lemma VisitedAreTypes(types: Types, root: Id, order: seq<Id>, where: map<Id, Place>)
    requires root in types && Closed(types) && Explored(types, root, order, where)
    ensures where.Keys <= types.Keys
  {
    forall t | t in where
      ensures t in types
    {
      assert PlacedRight(types, root, t, where[t]);
    }
  }

  // What counts as twice.

  function Embeds(t: Id): Declared {
    Declared("E", true, true, false, "", Some(t), t, false)
  }

  /** A struct that embeds two that embed one that embeds another. */
  const DIAMOND: Types := map[0 := [Embeds(1), Embeds(2)], 1 := [Embeds(3)], 2 := [Embeds(3)], 3 := [Embeds(4)], 4 := []]

  lemma DiamondEdges()
    ensures Edges(DIAMOND, {0}) == {(0, 0), (0, 1)} && Edges(DIAMOND, {1, 2}) == {(1, 0), (2, 0)} && Edges(DIAMOND, {3}) == {(3, 0)}
  {
  }

  lemma DiamondRises()
    ensures Raised(DIAMOND, {0}) == {1, 2} && Raised(DIAMOND, {1, 2}) == {3}
  {
    DiamondEdges();
    assert (0, 0) in Edges(DIAMOND, {0}) && Target(DIAMOND, (0, 0)) == 1;
    assert (0, 1) in Edges(DIAMOND, {0}) && Target(DIAMOND, (0, 1)) == 2;
    assert (1, 0) in Edges(DIAMOND, {1, 2}) && Target(DIAMOND, (1, 0)) == 3;
    assert Target(DIAMOND, (2, 0)) == 3;
  }

  lemma DiamondLevels()
    ensures AtDepth(DIAMOND, 0, 1) == {1, 2} && AtDepth(DIAMOND, 0, 2) == {3}
  {
    DiamondRises();
    NextLevel(DIAMOND, 0, 0);
    assert AtDepth(DIAMOND, 0, 0) == {0};
    NextLevel(DIAMOND, 0, 1);
  }

  lemma DiamondPaths()
    ensures Closed(DIAMOND) && Leads(DIAMOND, 0, [0, 0, 0]) == Some(4) == Leads(DIAMOND, 0, [1, 0, 0])
  {
    LeadsOn(DIAMOND, 0, 0, [], 0);
    LeadsOn(DIAMOND, 0, 0, [], 1);
    assert [] + [0] == [0] && [] + [1] == [1];
    LeadsOn(DIAMOND, 0, 1, [0], 0);
    LeadsOn(DIAMOND, 0, 2, [1], 0);
    assert [0] + [0] == [0, 0] && [1] + [0] == [1, 0];
    LeadsOn(DIAMOND, 0, 3, [0, 0], 0);
    LeadsOn(DIAMOND, 0, 3, [1, 0], 0);
    assert [0, 0] + [0] == [0, 0, 0] && [1, 0] + [0] == [1, 0, 0];
  }

  /**
   What is counted are the fields that rise from the level above, and not the paths: a struct below the one that is there
   twice is there once, though two paths as long lead to it.
   */
  lemma TwicePassesNotOn()
    ensures Closed(DIAMOND) && Leads(DIAMOND, 0, [0, 0, 0]) == Some(4) == Leads(DIAMOND, 0, [1, 0, 0])
    ensures |To(DIAMOND, Edges(DIAMOND, AtDepth(DIAMOND, 0, 1)), 3)| == 2
    ensures |To(DIAMOND, Edges(DIAMOND, AtDepth(DIAMOND, 0, 2)), 4)| == 1
  {
    DiamondPaths();
    DiamondLevels();
    DiamondEdges();
    assert To(DIAMOND, {(1, 0), (2, 0)}, 3) == {(1, 0), (2, 0)};
    assert To(DIAMOND, {(3, 0)}, 4) == {(3, 0)};
  }
}
