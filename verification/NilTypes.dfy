/**
 inertia/empty.go: whether a value of a type can hold a nil slice or map, found by a search of the types that visits each
 struct once, so that types may hold themselves.
 */
module NilTypes {
  import opened Sets

  type Id = nat

  datatype Field = Field(typ: Id, shown: bool)

  /** A kind of type; a struct's fields that are not exported, or are tagged "-", are not shown. */
  datatype Kind =
    | Slice(elem: Id)
    | Array(elem: Id)
    | Map(elem: Id)
    | Pointer(elem: Id)
    | Interface
    | Struct(fields: seq<Field>)
    | Basic

  /** A type, and whether it marshals itself, whatever it holds. */
  datatype Type = Type(kind: Kind, itself: bool)

  type Types = map<Id, Type>

  function KindOf(types: Types, t: Id): Kind {
    if t in types && !types[t].itself then types[t].kind else Basic
  }

  /** Types whose cycles pass through a struct: pointers and arrays alone lead somewhere. */
  predicate Grounded(types: Types, rank: map<Id, nat>) {
    forall t :: t in types && (types[t].kind.Pointer? || types[t].kind.Array?) ==> Rank(rank, types[t].kind.elem) < Rank(rank, t)
  }

  function Rank(rank: map<Id, nat>, t: Id): nat {
    if t in rank then rank[t] else 0
  }

  /** typeMayHoldNil, with the structs visited, before and after. */
  function May(types: Types, rank: map<Id, nat>, t: Id, visiting: set<Id>): (r: (bool, set<Id>))
    requires Grounded(types, rank)
    ensures visiting <= r.1
    decreases |types.Keys - visiting|, 0, Rank(rank, t)
  {
    match KindOf(types, t)
    case Slice(_) => (true, visiting)
    case Map(_) => (true, visiting)
    case Interface => (true, visiting)
    case Pointer(elem) => May(types, rank, elem, visiting)
    case Array(elem) => May(types, rank, elem, visiting)
    case Struct(_) =>
      if t in visiting then (false, visiting)
      else
        Fewer(types, visiting, visiting + {t}, t);
        MayFrom(types, rank, t, 0, visiting + {t})
    case Basic => (false, visiting)
  }

  lemma Fewer(types: Types, before: set<Id>, after: set<Id>, t: Id)
    requires before <= after && t in types
    ensures |types.Keys - after| <= |types.Keys - before|
    ensures t in after && t !in before ==> |types.Keys - after| < |types.Keys - before|
  {
    var left, right := types.Keys - after, types.Keys - before;
    assert left <= right;
    Subset(left, right);
    if t in after && t !in before {
      assert t in right && left <= right - {t};
      Subset(left, right - {t});
    }
  }

  /** The fields of a struct from the i-th on, up to the first that may hold one. */
  function MayFrom(types: Types, rank: map<Id, nat>, t: Id, i: nat, visiting: set<Id>): (r: (bool, set<Id>))
    requires Grounded(types, rank) && t in types && KindOf(types, t).Struct? && i <= |KindOf(types, t).fields|
    ensures visiting <= r.1
    decreases |types.Keys - visiting|, 1, |KindOf(types, t).fields| - i
  {
    var fields := KindOf(types, t).fields;
    if i == |fields| then (false, visiting)
    else if !fields[i].shown then MayFrom(types, rank, t, i + 1, visiting)
    else
      var (may, visited) := May(types, rank, fields[i].typ, visiting);
      Fewer(types, visiting, visited, t);
      if may then (true, visited) else MayFrom(types, rank, t, i + 1, visited)
  }

  /** The search, which marks the structs it visits. */
  class Visiting {
    var structs: set<Id>

    constructor ()
      ensures structs == {}
    {
      structs := {};
    }

    method TypeMayHoldNil(types: Types, ghost rank: map<Id, nat>, t: Id) returns (may: bool)
      requires Grounded(types, rank)
      modifies this
      ensures (may, structs) == May(types, rank, t, old(structs))
      decreases |types.Keys - structs|, Rank(rank, t)
    {
      match KindOf(types, t)
      case Slice(_) => return true;
      case Map(_) => return true;
      case Interface => return true;
      case Pointer(elem) => may := TypeMayHoldNil(types, rank, elem);
      case Array(elem) => may := TypeMayHoldNil(types, rank, elem);
      case Struct(fields) =>
        if t in structs {
          return false;
        }
        ghost var before := structs;
        structs := structs + {t};
        Fewer(types, before, structs, t);
        for i := 0 to |fields|
          invariant before + {t} <= structs
          invariant MayFrom(types, rank, t, i, structs) == MayFrom(types, rank, t, 0, before + {t})
        {
          if fields[i].shown {
            Fewer(types, before + {t}, structs, t);
            var holds := TypeMayHoldNil(types, rank, fields[i].typ);
            if holds {
              return true;
            }
          }
        }
        may := false;
      case Basic => may := false;
    }
  }

  // What a no means.

  /** What a type leads to, through pointers and arrays, holds none: it is basic, or one of some structs. */
  predicate Clear(types: Types, rank: map<Id, nat>, t: Id, structs: set<Id>)
    requires Grounded(types, rank)
    decreases Rank(rank, t)
  {
    match KindOf(types, t)
    case Pointer(elem) => Clear(types, rank, elem, structs)
    case Array(elem) => Clear(types, rank, elem, structs)
    case Struct(_) => t in structs
    case Basic => true
    case _ => false
  }

  predicate FieldsClear(types: Types, rank: map<Id, nat>, t: Id, structs: set<Id>)
    requires Grounded(types, rank)
  {
    KindOf(types, t).Struct? ==>
      forall i :: 0 <= i < |KindOf(types, t).fields| && KindOf(types, t).fields[i].shown ==>
        Clear(types, rank, KindOf(types, t).fields[i].typ, structs)
  }

  lemma {:induction false} ClearStays(types: Types, rank: map<Id, nat>, t: Id, structs: set<Id>, more: set<Id>)
    requires Grounded(types, rank) && structs <= more && Clear(types, rank, t, structs)
    ensures Clear(types, rank, t, more)
    decreases Rank(rank, t)
  {
    match KindOf(types, t)
    case Pointer(elem) => ClearStays(types, rank, elem, structs, more);
    case Array(elem) => ClearStays(types, rank, elem, structs, more);
    case _ =>
  }

  lemma FieldsStay(types: Types, rank: map<Id, nat>, t: Id, structs: set<Id>, more: set<Id>)
    requires Grounded(types, rank) && structs <= more && FieldsClear(types, rank, t, structs)
    ensures FieldsClear(types, rank, t, more)
  {
    if KindOf(types, t).Struct? {
      var fields := KindOf(types, t).fields;
      forall i | 0 <= i < |fields| && fields[i].shown
        ensures Clear(types, rank, fields[i].typ, more)
      {
        ClearStays(types, rank, fields[i].typ, structs, more);
      }
    }
  }

  /** The structs that a search visits, and says no of, hold only what it has visited. */
  predicate AllClear(types: Types, rank: map<Id, nat>, before: set<Id>, after: set<Id>)
    requires Grounded(types, rank)
  {
    forall s :: s in after && s !in before ==> FieldsClear(types, rank, s, after)
  }

  lemma AllClearTwice(types: Types, rank: map<Id, nat>, s0: set<Id>, s1: set<Id>, s2: set<Id>)
    requires Grounded(types, rank) && s0 <= s1 <= s2 && AllClear(types, rank, s0, s1) && AllClear(types, rank, s1, s2)
    ensures AllClear(types, rank, s0, s2)
  {
    forall s | s in s2 && s !in s0
      ensures FieldsClear(types, rank, s, s2)
    {
      if s in s1 {
        FieldsStay(types, rank, s, s1, s2);
      }
    }
  }

  lemma {:induction false} NoIsClear(types: Types, rank: map<Id, nat>, t: Id, visiting: set<Id>)
    requires Grounded(types, rank) && !May(types, rank, t, visiting).0
    ensures var visited := May(types, rank, t, visiting).1;
      Clear(types, rank, t, visited) && AllClear(types, rank, visiting, visited)
    decreases |types.Keys - visiting|, 0, Rank(rank, t)
  {
    match KindOf(types, t)
    case Pointer(elem) => NoIsClear(types, rank, elem, visiting);
    case Array(elem) => NoIsClear(types, rank, elem, visiting);
    case Struct(fields) =>
      if t !in visiting {
        Fewer(types, visiting, visiting + {t}, t);
        NoFieldsClear(types, rank, t, 0, visiting + {t});
      }
    case _ =>
  }

  lemma {:induction false} NoFieldsClear(types: Types, rank: map<Id, nat>, t: Id, i: nat, visiting: set<Id>)
    requires Grounded(types, rank) && t in types && KindOf(types, t).Struct? && i <= |KindOf(types, t).fields|
    requires !MayFrom(types, rank, t, i, visiting).0
    ensures var visited, fields := MayFrom(types, rank, t, i, visiting).1, KindOf(types, t).fields;
      && (forall k :: i <= k < |fields| && fields[k].shown ==> Clear(types, rank, fields[k].typ, visited))
      && AllClear(types, rank, visiting, visited)
    decreases |types.Keys - visiting|, 1, |KindOf(types, t).fields| - i
  {
    var fields := KindOf(types, t).fields;
    if i < |fields| {
      if fields[i].shown {
        var visited := May(types, rank, fields[i].typ, visiting).1;
        NoIsClear(types, rank, fields[i].typ, visiting);
        Fewer(types, visiting, visited, t);
        NoFieldsClear(types, rank, t, i + 1, visited);
        var all := MayFrom(types, rank, t, i, visiting).1;
        ClearStays(types, rank, fields[i].typ, visited, all);
        AllClearTwice(types, rank, visiting, visited, all);
      } else {
        NoFieldsClear(types, rank, t, i + 1, visiting);
      }
    }
  }

  /** A search that says no has found a set of structs that hold only one another, and nothing that may be nil. */
  lemma NoFindsAll(types: Types, rank: map<Id, nat>, t: Id)
    requires Grounded(types, rank) && !May(types, rank, t, {}).0
    ensures var structs := May(types, rank, t, {}).1;
      Clear(types, rank, t, structs) && forall s :: s in structs ==> FieldsClear(types, rank, s, structs)
  {
    NoIsClear(types, rank, t, {});
  }
}
