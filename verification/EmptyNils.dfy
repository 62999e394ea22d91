/**
 inertia/empty.go: the nil slices and maps in a value made empty, down to a depth; what types cannot hold one is not
 looked into, and what does not change is not copied.
 */
module EmptyNils {
  import opened NilTypes
  import opened Options

  datatype Value =
    | NilSlice
    | SliceOf(items: seq<Value>)
    | ArrayOf(items: seq<Value>)
    | NilMap
    | MapOf(entries: map<string, Value>)
    | NilPointer
    | PointerTo(to: Value)
    | NilInterface
    | Boxed(typ: Id, boxed: Value)
    | StructOf(items: seq<Value>)
    | Other(n: int)

  const MAX_DEPTH := 64

  /** Whether a value is of a type, as deep as its own types are looked into. */
  predicate Typed(types: Types, v: Value, t: Id)
    decreases v
  {
    match KindOf(types, t)
    case Slice(elem) => v.NilSlice? || (v.SliceOf? && forall i :: 0 <= i < |v.items| ==> Typed(types, v.items[i], elem))
    case Array(elem) => v.ArrayOf? && forall i :: 0 <= i < |v.items| ==> Typed(types, v.items[i], elem)
    case Map(elem) => v.NilMap? || (v.MapOf? && forall k :: k in v.entries ==> Typed(types, v.entries[k], elem))
    case Pointer(elem) => v.NilPointer? || (v.PointerTo? && Typed(types, v.to, elem))
    case Interface => v.NilInterface? || (v.Boxed? && Typed(types, v.boxed, v.typ))
    case Struct(fields) =>
      v.StructOf? && |v.items| == |fields| && forall i :: 0 <= i < |fields| && fields[i].shown ==> Typed(types, v.items[i], fields[i].typ)
    case Basic => true
  }

  /** A nil slice or map in a value, n deep at most, where it would be written as null. */
  predicate HoldsNil(types: Types, v: Value, t: Id, n: nat)
    requires Typed(types, v, t)
    decreases v
  {
    n > 0 &&
    match KindOf(types, t)
    case Slice(elem) => v.NilSlice? || exists i :: 0 <= i < |v.items| && HoldsNil(types, v.items[i], elem, n - 1)
    case Array(elem) => exists i :: 0 <= i < |v.items| && HoldsNil(types, v.items[i], elem, n - 1)
    case Map(elem) => v.NilMap? || exists k :: k in v.entries && HoldsNil(types, v.entries[k], elem, n - 1)
    case Pointer(elem) => v.PointerTo? && HoldsNil(types, v.to, elem, n - 1)
    case Interface => v.Boxed? && HoldsNil(types, v.boxed, v.typ, n - 1)
    case Struct(fields) =>
      exists i :: 0 <= i < |fields| && fields[i].shown && HoldsNil(types, v.items[i], fields[i].typ, n - 1)
    case Basic => false
  }

  /** Its nil slices and maps made empty, n deep: all there is to it. */
  function Emptied(types: Types, v: Value, t: Id, n: nat): Value
    requires Typed(types, v, t)
    decreases v, 1
  {
    if n == 0 then v
    else
      match KindOf(types, t)
      case Slice(elem) => if v.NilSlice? then SliceOf([]) else SliceOf(EmptiedItems(types, v, elem, n - 1))
      case Array(elem) => ArrayOf(EmptiedItems(types, v, elem, n - 1))
      case Map(elem) => if v.NilMap? then MapOf(map[]) else MapOf(EmptiedEntries(types, v, elem, n - 1))
      case Pointer(elem) => if v.NilPointer? then v else PointerTo(Emptied(types, v.to, elem, n - 1))
      case Interface => if v.NilInterface? then v else Boxed(v.typ, Emptied(types, v.boxed, v.typ, n - 1))
      case Struct(_) => StructOf(EmptiedFields(types, v, t, n - 1))
      case Basic => v
  }

  predicate ItemsTyped(types: Types, v: Value, elem: Id) {
    (v.SliceOf? || v.ArrayOf?) && forall i :: 0 <= i < |v.items| ==> Typed(types, v.items[i], elem)
  }

  predicate EntriesTyped(types: Types, v: Value, elem: Id) {
    v.MapOf? && forall k :: k in v.entries ==> Typed(types, v.entries[k], elem)
  }

  function EmptiedItems(types: Types, v: Value, elem: Id, n: nat): seq<Value>
    requires ItemsTyped(types, v, elem)
    decreases v, 0
  {
    seq(|v.items|, i requires 0 <= i < |v.items| => Emptied(types, v.items[i], elem, n))
  }

  function EmptiedEntries(types: Types, v: Value, elem: Id, n: nat): map<string, Value>
    requires EntriesTyped(types, v, elem)
    decreases v, 0
  {
    map k | k in v.entries :: Emptied(types, v.entries[k], elem, n)
  }

  function EmptiedFields(types: Types, v: Value, t: Id, n: nat): seq<Value>
    requires Typed(types, v, t) && KindOf(types, t).Struct?
    decreases v, 0
  {
    var fields := KindOf(types, t).fields;
    seq(|v.items|, i requires 0 <= i < |v.items| =>
      if fields[i].shown then Emptied(types, v.items[i], fields[i].typ, n) else v.items[i])
  }

  // What a type says of its values.

  lemma {:induction false} ClearHoldsNone(types: Types, rank: map<Id, nat>, structs: set<Id>, v: Value, t: Id, n: nat)
    requires Grounded(types, rank) && Typed(types, v, t) && Clear(types, rank, t, structs)
    requires forall s :: s in structs ==> FieldsClear(types, rank, s, structs)
    ensures !HoldsNil(types, v, t, n)
    decreases v
  {
    if n > 0 {
      match KindOf(types, t)
      case Pointer(elem) =>
        if v.PointerTo? {
          ClearHoldsNone(types, rank, structs, v.to, elem, n - 1);
        }
      case Array(elem) =>
        forall i | 0 <= i < |v.items|
          ensures !HoldsNil(types, v.items[i], elem, n - 1)
        {
          ClearHoldsNone(types, rank, structs, v.items[i], elem, n - 1);
        }
      case Struct(fields) =>
        assert FieldsClear(types, rank, t, structs);
        forall i | 0 <= i < |fields| && fields[i].shown
          ensures !HoldsNil(types, v.items[i], fields[i].typ, n - 1)
        {
          ClearHoldsNone(types, rank, structs, v.items[i], fields[i].typ, n - 1);
        }
      case _ =>
    }
  }

  /** When the search of types says no, no value of the type holds a nil slice or map, at any depth. */
  lemma NoMeansNone(types: Types, rank: map<Id, nat>, v: Value, t: Id, n: nat)
    requires Grounded(types, rank) && Typed(types, v, t) && !May(types, rank, t, {}).0
    ensures !HoldsNil(types, v, t, n)
  {
    NoFindsAll(types, rank, t);
    ClearHoldsNone(types, rank, May(types, rank, t, {}).1, v, t, n);
  }

  // What emptying does.

  /** It changes a value exactly when there is something nil in it. */
  lemma {:induction false} ChangesExactly(types: Types, v: Value, t: Id, n: nat)
    requires Typed(types, v, t)
    ensures Emptied(types, v, t, n) != v <==> HoldsNil(types, v, t, n)
    decreases v, 1
  {
    if n > 0 {
      match KindOf(types, t)
      case Slice(elem) =>
        if v.SliceOf? {
          ItemsChange(types, v, elem, n - 1);
        }
      case Array(elem) =>
        ItemsChange(types, v, elem, n - 1);
      case Map(elem) =>
        if v.MapOf? {
          EntriesChange(types, v, elem, n - 1);
        }
      case Pointer(elem) =>
        if v.PointerTo? {
          ChangesExactly(types, v.to, elem, n - 1);
        }
      case Interface =>
        if v.Boxed? {
          ChangesExactly(types, v.boxed, v.typ, n - 1);
        }
      case Struct(fields) =>
        FieldsChange(types, v, t, n - 1);
      case Basic =>
    }
  }

  lemma {:induction false} ItemsChange(types: Types, v: Value, elem: Id, n: nat)
    requires ItemsTyped(types, v, elem)
    ensures EmptiedItems(types, v, elem, n) != v.items <==> exists i :: 0 <= i < |v.items| && HoldsNil(types, v.items[i], elem, n)
    decreases v, 0
  {
    var r := EmptiedItems(types, v, elem, n);
    forall i | 0 <= i < |v.items|
      ensures r[i] != v.items[i] <==> HoldsNil(types, v.items[i], elem, n)
    {
      ChangesExactly(types, v.items[i], elem, n);
    }
    if r != v.items {
      var i :| 0 <= i < |v.items| && r[i] != v.items[i];
    }
  }

  lemma {:induction false} EntriesChange(types: Types, v: Value, elem: Id, n: nat)
    requires EntriesTyped(types, v, elem)
    ensures EmptiedEntries(types, v, elem, n) != v.entries <==> exists k :: k in v.entries && HoldsNil(types, v.entries[k], elem, n)
    decreases v, 0
  {
    var r := EmptiedEntries(types, v, elem, n);
    forall k | k in v.entries
      ensures r[k] != v.entries[k] <==> HoldsNil(types, v.entries[k], elem, n)
    {
      ChangesExactly(types, v.entries[k], elem, n);
    }
    if r != v.entries {
      var k :| k in v.entries && r[k] != v.entries[k];
    }
  }

  lemma {:induction false} FieldsChange(types: Types, v: Value, t: Id, n: nat)
    requires Typed(types, v, t) && KindOf(types, t).Struct?
    ensures var fields := KindOf(types, t).fields;
      EmptiedFields(types, v, t, n) != v.items <==>
      exists i :: 0 <= i < |fields| && fields[i].shown && HoldsNil(types, v.items[i], fields[i].typ, n)
    decreases v, 0
  {
    var fields, r := KindOf(types, t).fields, EmptiedFields(types, v, t, n);
    forall i | 0 <= i < |fields| && fields[i].shown
      ensures r[i] != v.items[i] <==> HoldsNil(types, v.items[i], fields[i].typ, n)
    {
      ChangesExactly(types, v.items[i], fields[i].typ, n);
    }
    if r != v.items {
      var i :| 0 <= i < |v.items| && r[i] != v.items[i];
    }
  }

  predicate NoneInItems(types: Types, items: seq<Value>, elem: Id, n: nat) {
    forall i :: 0 <= i < |items| ==> Typed(types, items[i], elem) && !HoldsNil(types, items[i], elem, n)
  }

  predicate NoneInEntries(types: Types, entries: map<string, Value>, elem: Id, n: nat) {
    forall k :: k in entries ==> Typed(types, entries[k], elem) && !HoldsNil(types, entries[k], elem, n)
  }

  ghost predicate RightlyEmptied(types: Types, v: Value, t: Id, n: nat)
    requires Typed(types, v, t)
  {
    Typed(types, Emptied(types, v, t, n), t) && !HoldsNil(types, Emptied(types, v, t, n), t, n)
  }

  lemma {:induction false} ItemsHoldNone(types: Types, v: Value, elem: Id, n: nat)
    requires ItemsTyped(types, v, elem)
    ensures NoneInItems(types, EmptiedItems(types, v, elem, n), elem, n)
    decreases v, 0
  {
    forall i | 0 <= i < |v.items|
      ensures RightlyEmptied(types, v.items[i], elem, n)
    {
      EmptiedHoldsNone(types, v.items[i], elem, n);
    }
  }

  lemma {:induction false} EntriesHoldNone(types: Types, v: Value, elem: Id, n: nat)
    requires EntriesTyped(types, v, elem)
    ensures NoneInEntries(types, EmptiedEntries(types, v, elem, n), elem, n)
    decreases v, 0
  {
    forall k | k in v.entries
      ensures RightlyEmptied(types, v.entries[k], elem, n)
    {
      EmptiedHoldsNone(types, v.entries[k], elem, n);
    }
  }

  lemma {:induction false} FieldsHoldNone(types: Types, v: Value, t: Id, n: nat)
    requires Typed(types, v, t) && KindOf(types, t).Struct?
    ensures var r, fields := EmptiedFields(types, v, t, n), KindOf(types, t).fields;
      forall i :: 0 <= i < |fields| && fields[i].shown ==> Typed(types, r[i], fields[i].typ) && !HoldsNil(types, r[i], fields[i].typ, n)
    decreases v, 0
  {
    var fields := KindOf(types, t).fields;
    forall i | 0 <= i < |fields| && fields[i].shown
      ensures RightlyEmptied(types, v.items[i], fields[i].typ, n)
    {
      EmptiedHoldsNone(types, v.items[i], fields[i].typ, n);
    }
  }

  /** What is emptied is of its type, and holds nothing nil, to the depth that it was emptied to. */
  lemma {:induction false} EmptiedHoldsNone(types: Types, v: Value, t: Id, n: nat)
    requires Typed(types, v, t)
    ensures Typed(types, Emptied(types, v, t, n), t) && !HoldsNil(types, Emptied(types, v, t, n), t, n)
    decreases v, 1
  {
    if n > 0 {
      var r := Emptied(types, v, t, n);
      match KindOf(types, t)
      case Slice(elem) =>
        if v.SliceOf? {
          ItemsHoldNone(types, v, elem, n - 1);
          assert r == SliceOf(EmptiedItems(types, v, elem, n - 1));
          NoneInThese(types, r, t, elem, n);
        }
      case Array(elem) =>
        ItemsHoldNone(types, v, elem, n - 1);
        assert r == ArrayOf(EmptiedItems(types, v, elem, n - 1));
        NoneInThese(types, r, t, elem, n);
      case Map(elem) =>
        if v.MapOf? {
          EntriesHoldNone(types, v, elem, n - 1);
          assert r == MapOf(EmptiedEntries(types, v, elem, n - 1));
          NoneUnderThese(types, r, t, elem, n);
        }
      case Pointer(elem) =>
        if v.PointerTo? {
          EmptiedHoldsNone(types, v.to, elem, n - 1);
        }
      case Interface =>
        if v.Boxed? {
          EmptiedHoldsNone(types, v.boxed, v.typ, n - 1);
        }
      case Struct(_) => FieldsHoldNone(types, v, t, n - 1);
      case Basic =>
    }
  }

  lemma NoneInThese(types: Types, r: Value, t: Id, elem: Id, n: nat)
    requires n > 0 && ((KindOf(types, t) == Slice(elem) && r.SliceOf?) || (KindOf(types, t) == Array(elem) && r.ArrayOf?))
    requires NoneInItems(types, r.items, elem, n - 1)
    ensures Typed(types, r, t) && !HoldsNil(types, r, t, n)
  {
  }

  lemma NoneUnderThese(types: Types, r: Value, t: Id, elem: Id, n: nat)
    requires n > 0 && KindOf(types, t) == Kind.Map(elem) && r.MapOf?
    requires NoneInEntries(types, r.entries, elem, n - 1)
    ensures Typed(types, r, t) && !HoldsNil(types, r, t, n)
  {
  }

  /** Emptying what is emptied changes nothing. */
  lemma EmptiedOnce(types: Types, v: Value, t: Id, n: nat)
    requires Typed(types, v, t)
    ensures Typed(types, Emptied(types, v, t, n), t)
    ensures Emptied(types, Emptied(types, v, t, n), t, n) == Emptied(types, v, t, n)
  {
    EmptiedHoldsNone(types, v, t, n);
    ChangesExactly(types, Emptied(types, v, t, n), t, n);
  }

  // Nothing else is different: what is at each path into a value.

  /** A way into a value: to an item or a field, to what is under a key, or to what a pointer or an interface holds. */
  datatype Hop = Item(i: nat) | Under(key: string) | Inside

  function Child(v: Value, hop: Hop): Option<Value> {
    match hop
    case Item(i) => if (v.SliceOf? || v.ArrayOf? || v.StructOf?) && i < |v.items| then Some(v.items[i]) else None
    case Under(key) => if v.MapOf? && key in v.entries then Some(v.entries[key]) else None
    case Inside => if v.PointerTo? then Some(v.to) else if v.Boxed? then Some(v.boxed) else None
  }

  function At(v: Value, path: seq<Hop>): Option<Value>
    decreases |path|
  {
    if path == [] then Some(v)
    else
      var child := Child(v, path[0]);
      if child.None? then None else At(child.value, path[1..])
  }

  /** The type that a child is looked into as; none where its parent marshals itself, or does not show it. */
  function ChildType(types: Types, v: Value, t: Id, hop: Hop): Option<Id> {
    match KindOf(types, t)
    case Slice(elem) => Some(elem)
    case Array(elem) => Some(elem)
    case Map(elem) => Some(elem)
    case Pointer(elem) => Some(elem)
    case Interface => if v.Boxed? then Some(v.typ) else None
    case Struct(fields) => if hop.Item? && hop.i < |fields| && fields[hop.i].shown then Some(fields[hop.i].typ) else None
    case Basic => None
  }

  /** The type that what is at a path is looked into as, no more than so deep. */
  function TypeAt(types: Types, v: Value, t: Id, path: seq<Hop>, n: nat): Option<Id>
    decreases |path|
  {
    if n == 0 then None
    else if path == [] then Some(t)
    else
      var child, typ := Child(v, path[0]), ChildType(types, v, t, path[0]);
      if child.None? || typ.None? then None else TypeAt(types, child.value, typ.value, path[1..], n - 1)
  }

  /** The same but for what is in them: of one kind, with as many items or the same keys. */
  predicate SameOutside(x: Value, y: Value) {
    match x
    case SliceOf(items) => y.SliceOf? && |y.items| == |items|
    case ArrayOf(items) => y.ArrayOf? && |y.items| == |items|
    case StructOf(items) => y.StructOf? && |y.items| == |items|
    case MapOf(entries) => y.MapOf? && y.entries.Keys == entries.Keys
    case PointerTo(_) => y.PointerTo?
    case Boxed(typ, _) => y.Boxed? && y.typ == typ
    case _ => y == x
  }

  /** What is emptied at one place of a value that is looked into as a type, or is not. */
  function EmptiedTop(types: Types, x: Value, t: Option<Id>): (y: Value) {
    if t.None? then x
    else if KindOf(types, t.value).Slice? && x.NilSlice? then SliceOf([])
    else if KindOf(types, t.value).Map? && x.NilMap? then MapOf(map[])
    else x
  }

  lemma EmptiedChild(types: Types, v: Value, t: Id, n: nat, hop: Hop)
    requires Typed(types, v, t) && n > 0
    ensures var r, child, typ := Emptied(types, v, t, n), Child(v, hop), ChildType(types, v, t, hop);
      && (Child(r, hop).Some? <==> child.Some?)
      && (child.Some? && typ.Some? ==>
            Typed(types, child.value, typ.value) && Child(r, hop) == Some(Emptied(types, child.value, typ.value, n - 1)))
      && (child.Some? && typ.None? ==> Child(r, hop) == child)
  {
  }

  /**
   What is emptied has at every path what was there, but for the nil slices and maps that are looked into, no deeper than
   it is emptied to, which are empty; and it has nothing more.
   */
  lemma {:induction false} EmptiedByPath(types: Types, v: Value, t: Id, n: nat, path: seq<Hop>)
    requires Typed(types, v, t)
    ensures var x, y := At(v, path), At(Emptied(types, v, t, n), path);
      && (x.Some? <==> y.Some?)
      && (x.Some? ==> SameOutside(EmptiedTop(types, x.value, TypeAt(types, v, t, path, n)), y.value))
    decreases |path|
  {
    if n > 0 && path != [] {
      EmptiedChild(types, v, t, n, path[0]);
      var child, typ := Child(v, path[0]), ChildType(types, v, t, path[0]);
      if child.Some? && typ.Some? {
        EmptiedByPath(types, child.value, typ.value, n - 1, path[1..]);
      }
    }
  }

  // The code, which copies what it has to change.

  function Left(depth: nat): nat {
    if depth > MAX_DEPTH then 0 else MAX_DEPTH + 1 - depth
  }

  method MayHoldNil(types: Types, ghost rank: map<Id, nat>, t: Id) returns (may: bool)
    requires Grounded(types, rank)
    ensures may == May(types, rank, t, {}).0
  {
    var visiting := new Visiting();
    may := visiting.TypeMayHoldNil(types, rank, t);
  }

  /** fixNils: a value as it is emptied to the depth left, and whether that is any different. */
  method FixNils(types: Types, ghost rank: map<Id, nat>, v: Value, t: Id, depth: nat) returns (r: Value, changed: bool)
    requires Grounded(types, rank) && Typed(types, v, t)
    ensures r == Emptied(types, v, t, Left(depth)) && (changed <==> r != v)
    decreases v, 1
  {
    if depth > MAX_DEPTH {
      return v, false;
    }
    var may := MayHoldNil(types, rank, t);
    if !may {
      NoMeansNone(types, rank, v, t, Left(depth));
      ChangesExactly(types, v, t, Left(depth));
      return v, false;
    }
    match KindOf(types, t)
    case Slice(elem) =>
      if v.NilSlice? {
        return SliceOf([]), true;
      }
      var items, c := FixItems(types, rank, v, elem, depth);
      r, changed := SliceOf(items), c;
    case Array(elem) =>
      var items, c := FixItems(types, rank, v, elem, depth);
      r, changed := ArrayOf(items), c;
    case Map(elem) =>
      if v.NilMap? {
        return MapOf(map[]), true;
      }
      var entries, c := FixEntries(types, rank, v, elem, depth);
      r, changed := MapOf(entries), c;
    case Pointer(elem) =>
      if v.NilPointer? {
        return v, false;
      }
      var to, c := FixNils(types, rank, v.to, elem, depth + 1);
      r, changed := if c then PointerTo(to) else v, c;
    case Interface =>
      if v.NilInterface? {
        return v, false;
      }
      var boxed, c := FixNils(types, rank, v.boxed, v.typ, depth + 1);
      r, changed := if c then Boxed(v.typ, boxed) else v, c;
    case Struct(fields) =>
      var items, c := FixFields(types, rank, v, t, depth);
      r, changed := StructOf(items), c;
    case Basic =>
      r, changed := v, false;
  }

  /** The items of a slice or an array, copied the first time that one is different. */
  method FixItems(types: Types, ghost rank: map<Id, nat>, v: Value, elem: Id, depth: nat) returns (r: seq<Value>, changed: bool)
    requires Grounded(types, rank) && depth <= MAX_DEPTH && ItemsTyped(types, v, elem)
    ensures r == EmptiedItems(types, v, elem, Left(depth) - 1) && (changed <==> r != v.items)
    decreases v, 0
  {
    ghost var all := EmptiedItems(types, v, elem, Left(depth) - 1);
    var out: array?<Value> := null;
    ghost var at: nat := 0;
    for i := 0 to |v.items|
      invariant out == null ==> forall k :: 0 <= k < i ==> v.items[k] == all[k]
      invariant out != null ==> fresh(out) && out.Length == |v.items| && at < i && out[at] != v.items[at]
      invariant out != null ==> forall k :: 0 <= k < |v.items| ==> out[k] == if k < i then all[k] else v.items[k]
    {
      var e, c := FixNils(types, rank, v.items[i], elem, depth + 1);
      if !c {
        continue;
      }
      if out == null {
        out := new Value[|v.items|](k requires 0 <= k < |v.items| => v.items[k]);
        at := i;
      }
      out[i] := e;
    }
    if out == null {
      return v.items, false;
    }
    assert out[..][at] != v.items[at];
    return out[..], true;
  }

  method FixFields(types: Types, ghost rank: map<Id, nat>, v: Value, t: Id, depth: nat) returns (r: seq<Value>, changed: bool)
    requires Grounded(types, rank) && Typed(types, v, t) && KindOf(types, t).Struct? && depth <= MAX_DEPTH
    ensures r == EmptiedFields(types, v, t, Left(depth) - 1) && (changed <==> r != v.items)
    decreases v, 0
  {
    ghost var all := EmptiedFields(types, v, t, Left(depth) - 1);
    var fields := KindOf(types, t).fields;
    r, changed := v.items, false;
    for i := 0 to |fields|
      invariant |r| == |fields| && (changed <==> r != v.items)
      invariant forall k :: 0 <= k < |fields| ==> r[k] == if k < i then all[k] else v.items[k]
    {
      if !fields[i].shown {
        continue;
      }
      var f, c := FixNils(types, rank, v.items[i], fields[i].typ, depth + 1);
      if !c {
        continue;
      }
      r := r[i := f];
      changed := true;
      assert r[i] != v.items[i];
    }
  }

  method FixEntry(types: Types, ghost rank: map<Id, nat>, v: Value, key: string, elem: Id, depth: nat) returns (e: Value, changed: bool)
    requires Grounded(types, rank) && depth <= MAX_DEPTH && EntriesTyped(types, v, elem) && key in v.entries
    ensures e == EmptiedEntries(types, v, elem, Left(depth) - 1)[key] && (changed <==> e != v.entries[key])
    decreases v, 0, 0
  {
    e, changed := FixNils(types, rank, v.entries[key], elem, depth + 1);
  }

  method FixEntries(types: Types, ghost rank: map<Id, nat>, v: Value, elem: Id, depth: nat) returns (r: map<string, Value>, changed: bool)
    requires Grounded(types, rank) && depth <= MAX_DEPTH && EntriesTyped(types, v, elem)
    ensures r == EmptiedEntries(types, v, elem, Left(depth) - 1) && (changed <==> r != v.entries)
    decreases v, 0, 1
  {
    ghost var all := EmptiedEntries(types, v, elem, Left(depth) - 1);
    r, changed := v.entries, false;
    var left := v.entries.Keys;
    while left != {}
      invariant left <= v.entries.Keys && r.Keys == v.entries.Keys && (changed <==> r != v.entries)
      invariant forall k :: k in v.entries ==> r[k] == if k in left then v.entries[k] else all[k]
      decreases |left|
    {
      var k :| k in left;
      left := left - {k};
      var e, c := FixEntry(types, rank, v, k, elem, depth);
      if c {
        r := r[k := e];
        changed := true;
        assert r[k] != v.entries[k];
      }
    }
  }

  /** emptyNils: nothing nil is left, down to the depth it looks to, and nothing else is different. */
  method EmptyAll(types: Types, ghost rank: map<Id, nat>, v: Value, t: Id) returns (r: Value)
    requires Grounded(types, rank) && Typed(types, v, t)
    ensures r == Emptied(types, v, t, MAX_DEPTH + 1)
    ensures Typed(types, r, t) && !HoldsNil(types, r, t, MAX_DEPTH + 1)
    ensures r == v <==> !HoldsNil(types, v, t, MAX_DEPTH + 1)
  {
    EmptiedHoldsNone(types, v, t, MAX_DEPTH + 1);
    ChangesExactly(types, v, t, MAX_DEPTH + 1);
    var may := MayHoldNil(types, rank, t);
    if !may {
      NoMeansNone(types, rank, v, t, MAX_DEPTH + 1);
      return v;
    }
    var fixed, changed := FixNils(types, rank, v, t, 0);
    r := if changed then fixed else v;
  }
}
