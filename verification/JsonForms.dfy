/**
 jsonform.go: a JSON body whose strings are rewritten as a form's values are read, for the types that they are bound for.
 A type is what is behind its pointers, and may hold itself.
 */
module JsonForms {
  import opened Options
  import opened JsonBody
  import opened JsonDominance
  import opened JsonFields

  datatype Type =
    | Time
    | DecodesItself
    | BoolOrNumber(kind: nat)
    | Struct(fields: seq<Field>)
    | MapOf(elem: nat)
    | SliceOf(elem: nat)
    | ArrayOf(elem: nat)
    | Other

  /** The types there are, and how a form's values are read: a bool or a number of a kind, and a time. */
  datatype Forms = Forms(types: map<nat, Type>, folds: (string, string) -> bool, parse: (nat, string) -> Option<Scalar>,
                         rfc3339: string -> bool, parseTime: string -> Option<string>)

  /** No bool or number is text, and a time that is written is in the form that times are read from. */
  ghost predicate Sane(f: Forms) {
    && (forall k, s :: f.parse(k, s).Some? ==> !f.parse(k, s).value.Text?)
    && (forall s :: f.parseTime(s).Some? ==> f.parseTime(s).value != "" && f.rfc3339(f.parseTime(s).value))
  }

  function TypeOf(f: Forms, t: nat): Type {
    if t in f.types then f.types[t] else Other
  }

  datatype Form = Form(value: Json, keep: bool, changed: bool)

  function AsIs(v: Json): Form {
    Form(v, true, false)
  }

  function ScalarAsForm(f: Forms, s: string, t: Type): Form {
    var v := Of(Text(s));
    if !t.BoolOrNumber? then AsIs(v)
    else if s == "" then Form(v, false, false)
    else
      var read := f.parse(t.kind, s);
      if read.None? then AsIs(v) else Form(Of(read.value), true, true)
  }

  function TimeAsForm(f: Forms, v: Json): Form {
    if !v.Of? || !v.scalar.Text? then AsIs(v)
    else if v.scalar.s == "" then Form(v, false, false)
    else if f.rfc3339(v.scalar.s) then AsIs(v)
    else
      var read := f.parseTime(v.scalar.s);
      if read.None? then AsIs(v) else Form(Of(Text(read.value)), true, true)
  }

  /** The type of what is under a key, where it is one that is looked inside. */
  function MemberType(f: Forms, t: Type, key: string): Option<nat> {
    match t
    case MapOf(elem) => Some(elem)
    case Struct(fields) =>
      var field := FieldFor(fields, key, f.folds);
      if field.None? || field.value.quoted then None else Some(field.value.typ)
    case _ => None
  }

  function AsForm(f: Forms, v: Json, t: nat): Form
    decreases v, 2
  {
    var of := TypeOf(f, t);
    if of.Time? then TimeAsForm(f, v)
    else if of.DecodesItself? then AsIs(v)
    else
      match v
      case Of(scalar) => if scalar.Text? then ScalarAsForm(f, scalar.s, of) else AsIs(v)
      case Object(members) =>
        if !of.Struct? && !of.MapOf? then AsIs(v)
        else
          var (kept, changed) := MembersTo(f, v, |members|, of);
          Form(Object(kept), true, changed)
      case Array(items) =>
        if !of.SliceOf? && !of.ArrayOf? then AsIs(v)
        else
          var (kept, changed) := ItemsTo(f, v, |items|, of);
          Form(Array(kept), true, changed)
  }

  function MemberForm(f: Forms, v: Json, i: nat, t: Type): Form
    requires v.Object? && i < |v.members|
    decreases v, 0
  {
    var m := v.members[i];
    var mt := MemberType(f, t, m.key);
    if mt.None? then AsIs(m.value) else AsForm(f, m.value, mt.value)
  }

  /** The first n members, rewritten, and whether that changed anything. */
  function MembersTo(f: Forms, v: Json, n: nat, t: Type): (seq<Member>, bool)
    requires v.Object? && n <= |v.members|
    decreases v, 1, n
  {
    if n == 0 then ([], false)
    else
      var (before, changed) := MembersTo(f, v, n - 1, t);
      var form := MemberForm(f, v, n - 1, t);
      if form.keep then (before + [Member(v.members[n - 1].key, form.value)], changed || form.changed) else (before, true)
  }

  function ItemForm(f: Forms, v: Json, i: nat, t: Type): Form
    requires v.Array? && i < |v.items| && (t.SliceOf? || t.ArrayOf?)
    decreases v, 0
  {
    var form := AsForm(f, v.items[i], t.elem);
    if !form.keep && t.ArrayOf? then Form(v.items[i], true, form.changed) else form
  }

  function ItemsTo(f: Forms, v: Json, n: nat, t: Type): (seq<Json>, bool)
    requires v.Array? && n <= |v.items| && (t.SliceOf? || t.ArrayOf?)
    decreases v, 1, n
  {
    if n == 0 then ([], false)
    else
      var (before, changed) := ItemsTo(f, v, n - 1, t);
      var form := ItemForm(f, v, n - 1, t);
      if form.keep then (before + [form.value], changed || form.changed) else (before, true)
  }

  /** asForm, which compacts what it keeps of an object or a list in the place it was in. */
  method Rewrite(f: Forms, v: Json, t: nat) returns (form: Form)
    ensures form == AsForm(f, v, t)
    decreases v, 1
  {
    var of := TypeOf(f, t);
    if of.Time? {
      return TimeAsForm(f, v);
    }
    if of.DecodesItself? {
      return AsIs(v);
    }
    match v
    case Of(scalar) =>
      form := if scalar.Text? then ScalarAsForm(f, scalar.s, of) else AsIs(v);
    case Object(members) =>
      if !of.Struct? && !of.MapOf? {
        return AsIs(v);
      }
      var a := new Member[|members|](i requires 0 <= i < |members| => members[i]);
      var n, changed := CompactMembers(f, v, of, a);
      form := Form(Object(a[..n]), true, changed);
    case Array(items) =>
      if !of.SliceOf? && !of.ArrayOf? {
        return AsIs(v);
      }
      var a := new Json[|items|](i requires 0 <= i < |items| => items[i]);
      var n, changed := CompactItems(f, v, of, a);
      form := Form(Array(a[..n]), true, changed);
  }

  method CompactMembers(f: Forms, v: Json, t: Type, a: array<Member>) returns (n: nat, changed: bool)
    requires v.Object? && a[..] == v.members
    modifies a
    ensures n <= a.Length && (a[..n], changed) == MembersTo(f, v, |v.members|, t)
    decreases v, 0, 1
  {
    n, changed := 0, false;
    for i := 0 to a.Length
      invariant n <= i && (a[..n], changed) == MembersTo(f, v, i, t)
      invariant forall k :: i <= k < a.Length ==> a[k] == v.members[k]
    {
      var m := a[i];
      var form := RewriteMember(f, v, i, t, m);
      changed := changed || form.changed || !form.keep;
      if form.keep {
        ghost var before := a[..n];
        a[n] := Member(m.key, form.value);
        n := n + 1;
        assert a[..n - 1] == before && a[..n] == before + [Member(m.key, form.value)];
      }
    }
    assert a.Length == |v.members|;
  }

  /** A member's value for the type of what is under its key, or as it came where that is not looked inside. */
  method RewriteMember(f: Forms, v: Json, i: nat, t: Type, m: Member) returns (form: Form)
    requires v.Object? && i < |v.members| && m == v.members[i]
    ensures form == MemberForm(f, v, i, t)
    decreases v, 0, 0
  {
    var mt := MemberType(f, t, m.key);
    if mt.None? {
      return AsIs(m.value);
    }
    form := Rewrite(f, m.value, mt.value);
  }

  method CompactItems(f: Forms, v: Json, t: Type, a: array<Json>) returns (n: nat, changed: bool)
    requires v.Array? && a[..] == v.items && (t.SliceOf? || t.ArrayOf?)
    modifies a
    ensures n <= a.Length && (a[..n], changed) == ItemsTo(f, v, |v.items|, t)
    decreases v, 0
  {
    n, changed := 0, false;
    for i := 0 to a.Length
      invariant n <= i && (a[..n], changed) == ItemsTo(f, v, i, t)
      invariant forall k :: i <= k < a.Length ==> a[k] == v.items[k]
    {
      var e := a[i];
      var form := Rewrite(f, e, t.elem);
      changed := changed || form.changed;
      if !form.keep {
        if t.SliceOf? {
          changed := true;
          continue;
        }
      } else {
        e := form.value;
      }
      a[n] := e;
      n := n + 1;
      assert a[..n] == a[..n - 1] + [e];
    }
    assert a.Length == |v.items|;
  }

  // What becomes of a value, by the type that it is bound for.

  /**
   Text for a bool or a number becomes what it reads as, and text for a time the time in RFC 3339; text that does not read
   is as it came, and so is all that is neither text for one of those, nor an object or an array for a type that has others
   in it.
   */
  lemma ReadAsSaid(f: Forms, v: Json, t: nat)
    ensures var form := AsForm(f, v, t);
      match if t in f.types then f.types[t] else Other
      case BoolOrNumber(kind) =>
        if !v.Of? || !v.scalar.Text? then form == Form(v, true, false)
        else if v.scalar.s == "" then !form.keep && !form.changed
        else
          var read := f.parse(kind, v.scalar.s);
          form == if read.Some? then Form(Of(read.value), true, true) else Form(v, true, false)
      case Time =>
        if !v.Of? || !v.scalar.Text? then form == Form(v, true, false)
        else if v.scalar.s == "" then !form.keep && !form.changed
        else if f.rfc3339(v.scalar.s) then form == Form(v, true, false)
        else
          var read := f.parseTime(v.scalar.s);
          form == if read.Some? then Form(Of(Text(read.value)), true, true) else Form(v, true, false)
      case Struct(_) => form.keep && (!v.Object? ==> form == Form(v, true, false))
      case MapOf(_) => form.keep && (!v.Object? ==> form == Form(v, true, false))
      case SliceOf(_) => form.keep && (!v.Array? ==> form == Form(v, true, false))
      case ArrayOf(_) => form.keep && (!v.Array? ==> form == Form(v, true, false))
      case _ => form == Form(v, true, false)
  {
  }

  predicate Takes(f: Forms, field: Field, key: string, exactly: bool) {
    if exactly then field.name == key else f.folds(field.name, key)
  }

  /**
   A member of an object for a struct is bound for the type of the first field of its very name, or of the first of its name
   in another case where none has it, and is as it came where that field is quoted, or there is none; one for a map is bound
   for the map's elements.
   */
  lemma BoundFor(f: Forms, v: Json, i: nat, t: Type)
    requires v.Object? && i < |v.members|
    ensures var m, form := v.members[i], MemberForm(f, v, i, t);
      && (t.MapOf? ==> form == AsForm(f, m.value, t.elem))
      && (!t.MapOf? && !t.Struct? ==> form == Form(m.value, true, false))
      && (t.Struct? ==>
            && (forall k, exactly ::
                  && 0 <= k < |t.fields| && Takes(f, t.fields[k], m.key, exactly)
                  && (forall j :: 0 <= j < k ==> !Takes(f, t.fields[j], m.key, exactly))
                  && (!exactly ==> forall j :: 0 <= j < |t.fields| ==> !Takes(f, t.fields[j], m.key, true)) ==>
                    form == if t.fields[k].quoted then Form(m.value, true, false) else AsForm(f, m.value, t.fields[k].typ))
            && ((forall k, exactly :: 0 <= k < |t.fields| ==> !Takes(f, t.fields[k], m.key, exactly)) ==>
                  form == Form(m.value, true, false)))
  {
    var key := v.members[i].key;
    if t.Struct? && FieldFor(t.fields, key, f.folds).Some? {
      var k :| 0 <= k < |t.fields| && t.fields[k] == FieldFor(t.fields, key, f.folds).value;
      assert Takes(f, t.fields[k], key, true) || Takes(f, t.fields[k], key, false);
    }
  }

  // What is left out, and that a change is a change.

  /** An empty string, for a bool, a number or a time, is what a form leaves out. */
  predicate Drops(f: Forms, v: Json, t: nat) {
    v == Of(Text("")) && (TypeOf(f, t).Time? || TypeOf(f, t).BoolOrNumber?)
  }

  lemma KeptExactly(f: Forms, v: Json, t: nat)
    ensures AsForm(f, v, t).keep <==> !Drops(f, v, t)
    ensures !AsForm(f, v, t).keep ==> AsForm(f, v, t) == Form(v, false, false)
  {
  }

  function KeptMembers(f: Forms, members: seq<Member>, t: Type): seq<Member> {
    if members == [] then []
    else
      var before, last := KeptMembers(f, members[..|members| - 1], t), members[|members| - 1];
      var mt := MemberType(f, t, last.key);
      if mt.Some? && Drops(f, last.value, mt.value) then before else before + [last]
  }

  function RewrittenMember(f: Forms, m: Member, t: Type): Member {
    var mt := MemberType(f, t, m.key);
    if mt.None? then m else Member(m.key, AsForm(f, m.value, mt.value).value)
  }

  /** An object loses only its empty strings for bools, numbers and times; the rest are rewritten, in their order. */
  lemma {:induction false} LosesOnlyEmpties(f: Forms, v: Json, n: nat, t: Type)
    requires v.Object? && n <= |v.members|
    ensures var r, kept := MembersTo(f, v, n, t).0, KeptMembers(f, v.members[..n], t);
      |r| == |kept| && forall i :: 0 <= i < |r| ==> r[i] == RewrittenMember(f, kept[i], t)
    decreases n
  {
    if n > 0 {
      LosesOnlyEmpties(f, v, n - 1, t);
      assert v.members[..n][..n - 1] == v.members[..n - 1];
      var mt := MemberType(f, t, v.members[n - 1].key);
      if mt.Some? {
        KeptExactly(f, v.members[n - 1].value, mt.value);
      }
    }
  }

  function KeptItems(f: Forms, items: seq<Json>, elem: nat): seq<Json> {
    if items == [] then []
    else
      var before, last := KeptItems(f, items[..|items| - 1], elem), items[|items| - 1];
      if Drops(f, last, elem) then before else before + [last]
  }

  /** A list loses only its empty strings for bools, numbers and times, and the rest are rewritten, in their order. */
  lemma {:induction false} ListLosesOnlyEmpties(f: Forms, v: Json, n: nat, t: Type)
    requires v.Array? && n <= |v.items| && t.SliceOf?
    ensures var r, kept := ItemsTo(f, v, n, t).0, KeptItems(f, v.items[..n], t.elem);
      |r| == |kept| && forall i :: 0 <= i < |r| ==> r[i] == AsForm(f, kept[i], t.elem).value
    decreases n
  {
    if n > 0 {
      ListLosesOnlyEmpties(f, v, n - 1, t);
      assert v.items[..n][..n - 1] == v.items[..n - 1];
      KeptExactly(f, v.items[n - 1], t.elem);
    }
  }

  /** An array of a fixed length loses none: its items are rewritten in their places, but for empty strings, which stay. */
  lemma {:induction false} ArrayLosesNone(f: Forms, v: Json, n: nat, t: Type)
    requires v.Array? && n <= |v.items| && t.ArrayOf?
    ensures var r := ItemsTo(f, v, n, t).0;
      |r| == n && forall i :: 0 <= i < n ==> r[i] == AsForm(f, v.items[i], t.elem).value
    decreases n
  {
    if n > 0 {
      ArrayLosesNone(f, v, n - 1, t);
      KeptExactly(f, v.items[n - 1], t.elem);
    }
  }

  /** It says that it changed something exactly when it did. */
  lemma {:induction false} ChangedExactly(f: Forms, v: Json, t: nat)
    requires Sane(f)
    ensures AsForm(f, v, t).changed <==> AsForm(f, v, t).value != v
    decreases v, 1
  {
    match v
    case Of(_) =>
    case Object(members) =>
      if TypeOf(f, t).Struct? || TypeOf(f, t).MapOf? {
        MembersChanged(f, v, |members|, TypeOf(f, t));
        assert members[..|members|] == members;
      }
    case Array(items) =>
      if TypeOf(f, t).SliceOf? || TypeOf(f, t).ArrayOf? {
        ItemsChanged(f, v, |items|, TypeOf(f, t));
        assert items[..|items|] == items;
      }
  }

  lemma {:induction false} MembersChanged(f: Forms, v: Json, n: nat, t: Type)
    requires Sane(f) && v.Object? && n <= |v.members|
    ensures var (r, changed) := MembersTo(f, v, n, t);
      |r| <= n && (changed <==> r != v.members[..n])
    decreases v, 0, n
  {
    if n > 0 {
      MembersChanged(f, v, n - 1, t);
      var m := v.members[n - 1];
      var (before, _) := MembersTo(f, v, n - 1, t);
      var r := MembersTo(f, v, n, t).0;
      assert v.members[..n] == v.members[..n - 1] + [m];
      var mt := MemberType(f, t, m.key);
      if mt.Some? {
        ChangedExactly(f, m.value, mt.value);
      }
      if r == v.members[..n] {
        assert before == r[..n - 1] == v.members[..n - 1];
      }
    }
  }

  lemma {:induction false} ItemsChanged(f: Forms, v: Json, n: nat, t: Type)
    requires Sane(f) && v.Array? && n <= |v.items| && (t.SliceOf? || t.ArrayOf?)
    ensures var (r, changed) := ItemsTo(f, v, n, t);
      |r| <= n && (changed <==> r != v.items[..n])
    decreases v, 0, n
  {
    if n > 0 {
      ItemsChanged(f, v, n - 1, t);
      var e := v.items[n - 1];
      var (before, _) := ItemsTo(f, v, n - 1, t);
      var r := ItemsTo(f, v, n, t).0;
      assert v.items[..n] == v.items[..n - 1] + [e];
      ChangedExactly(f, e, t.elem);
      KeptExactly(f, e, t.elem);
      if r == v.items[..n] {
        assert before == r[..n - 1] == v.items[..n - 1];
      }
    }
  }

  // Rewriting what is rewritten.

  /** What has been rewritten stays as it is when it is rewritten again. */
  lemma {:induction false} Idempotent(f: Forms, v: Json, t: nat)
    requires Sane(f)
    ensures AsForm(f, AsForm(f, v, t).value, t) == Form(AsForm(f, v, t).value, AsForm(f, v, t).keep, false)
    decreases v, 1
  {
    var of := TypeOf(f, t);
    match v
    case Of(_) =>
    case Object(members) =>
      if of.Struct? || of.MapOf? {
        MembersStay(f, v, |members|, of, AsForm(f, v, t).value);
      }
    case Array(items) =>
      if of.SliceOf? || of.ArrayOf? {
        ItemsStay(f, v, |items|, of, AsForm(f, v, t).value);
      }
  }

  lemma {:induction false} MembersStay(f: Forms, v: Json, n: nat, t: Type, r: Json)
    requires Sane(f) && v.Object? && n <= |v.members| && r.Object? && MembersTo(f, v, n, t).0 <= r.members
    ensures var kept := MembersTo(f, v, n, t).0; MembersTo(f, r, |kept|, t) == (kept, false)
    decreases v, 0, n
  {
    if n > 0 {
      MembersStay(f, v, n - 1, t, r);
      var m := v.members[n - 1];
      var kept := MembersTo(f, v, n, t).0;
      var mt := MemberType(f, t, m.key);
      if mt.Some? {
        KeptExactly(f, m.value, mt.value);
        Idempotent(f, m.value, mt.value);
      }
      if MemberForm(f, v, n - 1, t).keep {
        assert r.members[|kept| - 1] == kept[|kept| - 1];
      }
    }
  }

  lemma {:induction false} ItemsStay(f: Forms, v: Json, n: nat, t: Type, r: Json)
    requires Sane(f) && v.Array? && n <= |v.items| && (t.SliceOf? || t.ArrayOf?)
    requires r.Array? && ItemsTo(f, v, n, t).0 <= r.items
    ensures var kept := ItemsTo(f, v, n, t).0; ItemsTo(f, r, |kept|, t) == (kept, false)
    decreases v, 0, n
  {
    if n > 0 {
      ItemsStay(f, v, n - 1, t, r);
      var e := v.items[n - 1];
      var kept := ItemsTo(f, v, n, t).0;
      KeptExactly(f, e, t.elem);
      Idempotent(f, e, t.elem);
      if ItemForm(f, v, n - 1, t).keep {
        assert r.items[|kept| - 1] == kept[|kept| - 1];
      }
    }
  }
}
