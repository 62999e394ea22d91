/**
 jsonform.go: what is written is JSON's own text, with a comma between each two and a colon after each key: a reader that
 asks for them reads it back.
 */
module JsonText {
  import opened Options
  import opened JsonBody

  /** The value whose text is at a place, with its commas and colons, and the place after it; or none. */
  function Value(text: seq<Piece>, at: nat): (r: Read<Json>)
    requires at <= |text|
    ensures r.Some? ==> at < r.value.1 <= |text|
    decreases |text| - at, 0
  {
    if at == |text| then None
    else
      match text[at]
      case Is(scalar) => Some((Of(scalar), at + 1))
      case Open(true) =>
        if at + 1 < |text| && text[at + 1] == Close(true) then Some((Object([]), at + 2))
        else
          var members := Members(text, at + 1);
          if members.None? then None else Some((Object(members.value.0), members.value.1))
      case Open(false) =>
        if at + 1 < |text| && text[at + 1] == Close(false) then Some((Array([]), at + 2))
        else
          var items := Items(text, at + 1);
          if items.None? then None else Some((Array(items.value.0), items.value.1))
      case _ => None
  }

  /** One item and more after commas, to the end of their array. */
  function Items(text: seq<Piece>, at: nat): (r: Read<seq<Json>>)
    requires at <= |text|
    ensures r.Some? ==> at < r.value.1 <= |text|
    decreases |text| - at, 1
  {
    var first := Value(text, at);
    if first.None? || first.value.1 == |text| then None
    else if text[first.value.1] == Close(false) then Some(([first.value.0], first.value.1 + 1))
    else if !text[first.value.1].Comma? then None
    else
      var more := Items(text, first.value.1 + 1);
      if more.None? then None else Some(([first.value.0] + more.value.0, more.value.1))
  }

  function Members(text: seq<Piece>, at: nat): (r: Read<seq<Member>>)
    requires at <= |text|
    ensures r.Some? ==> at < r.value.1 <= |text|
    decreases |text| - at, 1
  {
    if at + 1 >= |text| || !text[at].Is? || !text[at].scalar.Text? || !text[at + 1].Colon? then None
    else
      var first := Value(text, at + 2);
      if first.None? || first.value.1 == |text| then None
      else
        var m := Member(text[at].scalar.s, first.value.0);
        if text[first.value.1] == Close(true) then Some(([m], first.value.1 + 1))
        else if !text[first.value.1].Comma? then None
        else
          var more := Members(text, first.value.1 + 1);
          if more.None? then None else Some(([m] + more.value.0, more.value.1))
  }

  // What is written, from an entry on.

  function From(v: Json, i: nat): seq<Piece>
    requires i < Size(v)
    decreases Size(v) - i
  {
    EntryWritten(v, i) + if i + 1 == Size(v) then [] else [Comma] + From(v, i + 1)
  }

  lemma FromIs(v: Json, i: nat)
    requires i < Size(v)
    ensures From(v, i) == EntryWritten(v, i) + if i + 1 == Size(v) then [] else [Comma] + From(v, i + 1)
  {
  }

  lemma ToIs(v: Json, n: nat)
    requires n < Size(v)
    ensures WrittenTo(v, n + 1) == WrittenTo(v, n) + CommaBefore(n) + EntryWritten(v, n)
  {
  }

  lemma Regroup(a: seq<Piece>, b: seq<Piece>, c: seq<Piece>, d: seq<Piece>)
    ensures a + (b + (c + d)) == a + b + c + d
  {
  }

  lemma {:induction false} ToIsFrom(v: Json, n: nat)
    requires n < Size(v)
    ensures WrittenTo(v, n) + CommaBefore(n) + From(v, n) == WrittenTo(v, Size(v))
    decreases Size(v) - n
  {
    var before, entry := WrittenTo(v, n) + CommaBefore(n), EntryWritten(v, n);
    ToIs(v, n);
    FromIs(v, n);
    if n + 1 < Size(v) {
      ToIsFrom(v, n + 1);
      Regroup(before, entry, [Comma], From(v, n + 1));
    } else {
      assert entry + [] == entry;
    }
  }

  lemma AllIsFrom(v: Json)
    requires Size(v) > 0
    ensures WrittenTo(v, Size(v)) == From(v, 0)
  {
    ToIsFrom(v, 0);
    assert WrittenTo(v, 0) == [] && CommaBefore(0) == [] && [] + [] + From(v, 0) == From(v, 0);
  }

  lemma FirstPiece(text: seq<Piece>, at: nat, w: seq<Piece>)
    requires Holds(text, at, w) && w != []
    ensures at < |text| && text[at] == w[0]
  {
    assert text[at] == text[at..at + |w|][0];
  }

  lemma ObjectThere(text: seq<Piece>, at: nat, members: seq<Member>, end: nat)
    requires at + 1 < |text| && text[at] == Open(true) && !text[at + 1].Close? && Members(text, at + 1) == Some((members, end))
    ensures Value(text, at) == Some((Object(members), end))
  {
  }

  lemma ArrayThere(text: seq<Piece>, at: nat, items: seq<Json>, end: nat)
    requires at + 1 < |text| && text[at] == Open(false) && !text[at + 1].Close? && Items(text, at + 1) == Some((items, end))
    ensures Value(text, at) == Some((Array(items), end))
  {
  }

  lemma ItemThere(text: seq<Piece>, at: nat, e: Json, after: nat, more: seq<Json>, end: nat)
    requires at <= |text| && Value(text, at) == Some((e, after)) && after < |text|
    requires
      || (text[after] == Close(false) && more == [] && end == after + 1)
      || (text[after] == Comma && Items(text, after + 1) == Some((more, end)))
    ensures Items(text, at) == Some(([e] + more, end))
  {
    assert [e] + [] == [e];
  }

  lemma MemberThere(text: seq<Piece>, at: nat, m: Member, after: nat, more: seq<Member>, end: nat)
    requires at + 1 < |text| && text[at] == Is(Text(m.key)) && text[at + 1] == Colon
    requires Value(text, at + 2) == Some((m.value, after)) && after < |text|
    requires
      || (text[after] == Close(true) && more == [] && end == after + 1)
      || (text[after] == Comma && Members(text, after + 1) == Some((more, end)))
    ensures Members(text, at) == Some(([m] + more, end))
  {
    assert [m] + [] == [m];
  }

  /** The text of a value reads as it, wherever it is. */
  lemma {:induction false} WrittenReads(v: Json, text: seq<Piece>, at: nat)
    requires Holds(text, at, Written(v))
    ensures Value(text, at) == Some((v, at + |Written(v)|))
    decreases v, 1
  {
    match v
    case Of(scalar) => FirstPiece(text, at, Written(v));
    case Object(_) => ObjectReads(v, text, at);
    case Array(_) => ArrayReads(v, text, at);
  }

  lemma ObjectReads(v: Json, text: seq<Piece>, at: nat)
    requires v.Object? && Holds(text, at, Written(v))
    ensures Value(text, at) == Some((v, at + |Written(v)|))
    decreases v, 0, |v.members| + 1
  {
    Enclosed(v, text, at);
    if v.members != [] {
      MembersRead(v, 0, text, at + 1);
      assert v.members[0..] == v.members;
      ObjectThere(text, at, v.members, at + |Written(v)|);
    }
  }

  lemma ArrayReads(v: Json, text: seq<Piece>, at: nat)
    requires v.Array? && Holds(text, at, Written(v))
    ensures Value(text, at) == Some((v, at + |Written(v)|))
    decreases v, 0, |v.items| + 1
  {
    Enclosed(v, text, at);
    if v.items != [] {
      ItemsRead(v, 0, text, at + 1);
      assert v.items[0..] == v.items;
      ArrayThere(text, at, v.items, at + |Written(v)|);
    }
  }

  /** An object or an array opens, and then has its entries and its end, or its end at once. */
  lemma Enclosed(v: Json, text: seq<Piece>, at: nat)
    requires !v.Of? && Holds(text, at, Written(v))
    ensures at + 1 < |text| && text[at] == Open(v.Object?)
    ensures if Size(v) == 0 then text[at + 1] == Close(v.Object?) && |Written(v)| == 2
            else
              && !text[at + 1].Close? && |Written(v)| == |From(v, 0)| + 2
              && Holds(text, at + 1, From(v, 0) + [Close(v.Object?)])
  {
    var open, close, all := [Open(v.Object?)], [Close(v.Object?)], WrittenTo(v, Size(v));
    FirstPiece(text, at, Written(v));
    assert Written(v) == open + (all + close);
    HoldsBoth(text, at, open, all + close);
    if Size(v) == 0 {
      assert all + close == close;
      FirstPiece(text, at + 1, close);
    } else {
      AllIsFrom(v);
      EntriesStart(v, text, at + 1);
    }
  }

  lemma WrittenStarts(v: Json)
    ensures Written(v) != [] && !Written(v)[0].Close?
  {
  }

  /** What is in an object or an array does not start with its end. */
  lemma EntriesStart(v: Json, text: seq<Piece>, at: nat)
    requires Size(v) > 0 && Holds(text, at, From(v, 0) + [Close(v.Object?)])
    ensures at < |text| && !text[at].Close?
  {
    if v.Array? {
      WrittenStarts(v.items[0]);
    }
    assert EntryWritten(v, 0) != [] && From(v, 0)[0] == EntryWritten(v, 0)[0];
    FirstPiece(text, at, From(v, 0) + [Close(v.Object?)]);
  }

  /** An entry, and what comes after it: a comma and the entries after, or the end. */
  lemma EntryThere(v: Json, i: nat, text: seq<Piece>, at: nat) returns (after: nat)
    requires i < Size(v) && Holds(text, at, From(v, i) + [Close(v.Object?)])
    ensures Holds(text, at, EntryWritten(v, i)) && after == at + |EntryWritten(v, i)| < |text|
    ensures if i + 1 == Size(v) then text[after] == Close(v.Object?) && |From(v, i)| == |EntryWritten(v, i)|
            else
              && text[after] == Comma && Holds(text, after + 1, From(v, i + 1) + [Close(v.Object?)])
              && |From(v, i)| == |EntryWritten(v, i)| + 1 + |From(v, i + 1)|
  {
    var entry, close := EntryWritten(v, i), [Close(v.Object?)];
    after := at + |entry|;
    if i + 1 == Size(v) {
      assert From(v, i) == entry;
      HoldsBoth(text, at, entry, close);
      FirstPiece(text, after, close);
    } else {
      var more := From(v, i + 1);
      assert From(v, i) + close == entry + ([Comma] + (more + close));
      HoldsBoth(text, at, entry, [Comma] + (more + close));
      HoldsBoth(text, after, [Comma], more + close);
      FirstPiece(text, after, [Comma]);
    }
  }

  lemma Rest<T>(s: seq<T>, i: nat)
    requires i < |s|
    ensures s[i..] == [s[i]] + s[i + 1..] && (i + 1 == |s| ==> s[i + 1..] == [])
  {
  }

  lemma ItemReads(v: Json, i: nat, text: seq<Piece>, at: nat) returns (after: nat)
    requires v.Array? && i < |v.items| && Holds(text, at, From(v, i) + [Close(false)])
    ensures at <= |text| && Value(text, at) == Some((v.items[i], after)) && after < |text|
    ensures if i + 1 == |v.items| then text[after] == Close(false) && after == at + |From(v, i)|
            else
              && text[after] == Comma && Holds(text, after + 1, From(v, i + 1) + [Close(false)])
              && after + 1 + |From(v, i + 1)| == at + |From(v, i)|
    decreases v, 0, 0
  {
    after := EntryThere(v, i, text, at);
    WrittenReads(v.items[i], text, at);
  }

  lemma {:induction false} ItemsRead(v: Json, i: nat, text: seq<Piece>, at: nat)
    requires v.Array? && i < |v.items| && Holds(text, at, From(v, i) + [Close(false)])
    ensures Items(text, at) == Some((v.items[i..], at + |From(v, i)| + 1))
    decreases v, 0, |v.items| - i
  {
    var after := ItemReads(v, i, text, at);
    var end := at + |From(v, i)| + 1;
    Rest(v.items, i);
    if i + 1 == |v.items| {
      ItemThere(text, at, v.items[i], after, [], end);
    } else {
      ItemsRead(v, i + 1, text, after + 1);
      ItemThere(text, at, v.items[i], after, v.items[i + 1..], end);
    }
  }

  lemma MemberReads(v: Json, i: nat, text: seq<Piece>, at: nat) returns (after: nat)
    requires v.Object? && i < |v.members| && Holds(text, at, From(v, i) + [Close(true)])
    ensures at + 1 < |text| && text[at] == Is(Text(v.members[i].key)) && text[at + 1] == Colon
    ensures Value(text, at + 2) == Some((v.members[i].value, after)) && after < |text|
    ensures if i + 1 == |v.members| then text[after] == Close(true) && after == at + |From(v, i)|
            else
              && text[after] == Comma && Holds(text, after + 1, From(v, i + 1) + [Close(true)])
              && after + 1 + |From(v, i + 1)| == at + |From(v, i)|
    decreases v, 0, 0
  {
    var m := v.members[i];
    after := EntryThere(v, i, text, at);
    HoldsBoth(text, at, [Is(Text(m.key)), Colon], Written(m.value));
    KeyThere(text, at, m.key);
    WrittenReads(m.value, text, at + 2);
  }

  lemma {:induction false} MembersRead(v: Json, i: nat, text: seq<Piece>, at: nat)
    requires v.Object? && i < |v.members| && Holds(text, at, From(v, i) + [Close(true)])
    ensures Members(text, at) == Some((v.members[i..], at + |From(v, i)| + 1))
    decreases v, 0, |v.members| - i
  {
    var after := MemberReads(v, i, text, at);
    var end := at + |From(v, i)| + 1;
    Rest(v.members, i);
    if i + 1 == |v.members| {
      MemberThere(text, at, v.members[i], after, [], end);
    } else {
      MembersRead(v, i + 1, text, after + 1);
      MemberThere(text, at, v.members[i], after, v.members[i + 1..], end);
    }
  }

  lemma KeyThere(text: seq<Piece>, at: nat, key: string)
    requires Holds(text, at, [Is(Text(key)), Colon])
    ensures at + 1 < |text| && text[at] == Is(Text(key)) && text[at + 1] == Colon
  {
    var w := [Is(Text(key)), Colon];
    assert text[at] == text[at..at + |w|][0] && text[at + 1] == text[at..at + |w|][1];
  }

  /** What is written is the text of the value, and of nothing else, whatever comes after. */
  lemma WrittenIsText(v: Json, rest: seq<Piece>)
    ensures Value(Written(v) + rest, 0) == Some((v, |Written(v)|))
  {
    var text := Written(v) + rest;
    assert text[0..|Written(v)|] == Written(v);
    WrittenReads(v, text, 0);
  }
}
