/**
 jsonform.go: a JSON body as it is read to be rewritten, and as it is written again, in the pieces of JSON text. Numbers
 are their digits, and an object keeps its members in order, repeats and all.
 */
module JsonBody {
  import opened Options

  datatype Scalar = Text(s: string) | Number(digits: string) | Bool(b: bool) | Null

  datatype Json = Of(scalar: Scalar) | Array(items: seq<Json>) | Object(members: seq<Member>)

  datatype Member = Member(key: string, value: Json)

  /** A piece of JSON text; the decoder's tokens are those that are no comma or colon. */
  datatype Piece = Open(curly: bool) | Close(curly: bool) | Comma | Colon | Is(scalar: Scalar)

  function Tokens(text: seq<Piece>): seq<Piece> {
    if text == [] then []
    else (if text[0].Comma? || text[0].Colon? then [] else [text[0]]) + Tokens(text[1..])
  }

  lemma {:induction false} TokensOfBoth(a: seq<Piece>, b: seq<Piece>)
    ensures Tokens(a + b) == Tokens(a) + Tokens(b)
  {
    if a == [] {
      assert a + b == b;
    } else {
      assert (a + b)[1..] == a[1..] + b;
      TokensOfBoth(a[1..], b);
    }
  }

  // Writing.

  function Written(v: Json): seq<Piece>
    decreases v, 1
  {
    match v
    case Object(_) => [Open(true)] + WrittenTo(v, |v.members|) + [Close(true)]
    case Array(_) => [Open(false)] + WrittenTo(v, |v.items|) + [Close(false)]
    case Of(scalar) => [Is(scalar)]
  }

  function Size(v: Json): nat {
    match v
    case Object(members) => |members|
    case Array(items) => |items|
    case _ => 0
  }

  /** The i-th member or item. */
  function EntryWritten(v: Json, i: nat): seq<Piece>
    requires i < Size(v)
    decreases v, 0, 0
  {
    match v
    case Object(members) => [Is(Text(members[i].key)), Colon] + Written(members[i].value)
    case Array(items) => Written(items[i])
  }

  /** The first n members or items, with a comma between each two. */
  function WrittenTo(v: Json, n: nat): seq<Piece>
    requires n <= Size(v)
    decreases v, 0, n + 1
  {
    if n == 0 then [] else WrittenTo(v, n - 1) + CommaBefore(n - 1) + EntryWritten(v, n - 1)
  }

  function CommaBefore(i: nat): seq<Piece> {
    if i > 0 then [Comma] else []
  }

  /** writeJSON, which appends to a buffer. */
  method Write(b: seq<Piece>, v: Json) returns (r: seq<Piece>)
    ensures r == b + Written(v)
    decreases v, 1
  {
    match v
    case Object(members) =>
      r := WriteMembers(b + [Open(true)], v);
      r := r + [Close(true)];
    case Array(items) =>
      r := WriteItems(b + [Open(false)], v);
      r := r + [Close(false)];
    case Of(scalar) =>
      r := b + [Is(scalar)];
  }

  method WriteMembers(b: seq<Piece>, v: Json) returns (r: seq<Piece>)
    requires v.Object?
    ensures r == b + WrittenTo(v, |v.members|)
    decreases v, 0, 1
  {
    r := b;
    for i := 0 to |v.members|
      invariant r == b + WrittenTo(v, i)
    {
      OneMore(b, WrittenTo(v, i), CommaBefore(i), EntryWritten(v, i));
      if i > 0 {
        r := r + [Comma];
      }
      r := WriteMember(r, v, i);
    }
  }

  method WriteMember(b: seq<Piece>, v: Json, i: nat) returns (r: seq<Piece>)
    requires v.Object? && i < |v.members|
    ensures r == b + EntryWritten(v, i)
    decreases v, 0, 0
  {
    r := Write(b + [Is(Text(v.members[i].key)), Colon], v.members[i].value);
    assert r == b + ([Is(Text(v.members[i].key)), Colon] + Written(v.members[i].value));
  }

  method WriteItems(b: seq<Piece>, v: Json) returns (r: seq<Piece>)
    requires v.Array?
    ensures r == b + WrittenTo(v, |v.items|)
    decreases v, 0, 1
  {
    r := b;
    for i := 0 to |v.items|
      invariant r == b + WrittenTo(v, i)
    {
      OneMore(b, WrittenTo(v, i), CommaBefore(i), EntryWritten(v, i));
      if i > 0 {
        r := r + [Comma];
      }
      r := Write(r, v.items[i]);
    }
  }

  lemma OneMore(b: seq<Piece>, before: seq<Piece>, comma: seq<Piece>, last: seq<Piece>)
    ensures b + (before + comma + last) == b + before + comma + last
  {
  }

  // Reading, of the decoder's tokens from a place in them.

  /** A value read, and the place after it; none for tokens that end early or close what is not open. */
  type Read<T> = Option<(T, nat)>

  function Reading(ts: seq<Piece>, at: nat): (r: Read<Json>)
    requires at <= |ts|
    ensures r.Some? ==> at < r.value.1 <= |ts|
    decreases |ts| - at, 0
  {
    if at == |ts| then None
    else
      match ts[at]
      case Is(scalar) => Some((Of(scalar), at + 1))
      case Open(true) =>
        var members := Members(ts, at + 1);
        if members.None? then None else Some((Object(members.value.0), members.value.1))
      case Open(false) =>
        var items := Items(ts, at + 1);
        if items.None? then None else Some((Array(items.value.0), items.value.1))
      case _ => None
  }

  /** Items up to the end of their array, and the place after that. */
  function Items(ts: seq<Piece>, at: nat): (r: Read<seq<Json>>)
    requires at <= |ts|
    ensures r.Some? ==> at < r.value.1 <= |ts|
    decreases |ts| - at, 1
  {
    if at < |ts| && ts[at].Close? then if ts[at].curly then None else Some(([], at + 1))
    else
      var first := Reading(ts, at);
      if first.None? then None
      else
        var more := Items(ts, first.value.1);
        if more.None? then None else Some(([first.value.0] + more.value.0, more.value.1))
  }

  function Members(ts: seq<Piece>, at: nat): (r: Read<seq<Member>>)
    requires at <= |ts|
    ensures r.Some? ==> at < r.value.1 <= |ts|
    decreases |ts| - at, 1
  {
    if at == |ts| then None
    else if ts[at].Close? then if ts[at].curly then Some(([], at + 1)) else None
    else if !ts[at].Is? || !ts[at].scalar.Text? then None
    else
      var first := Reading(ts, at + 1);
      if first.None? then None
      else
        var more := Members(ts, first.value.1);
        if more.None? then None else Some(([Member(ts[at].scalar.s, first.value.0)] + more.value.0, more.value.1))
  }

  /** The tokens w are in ts at a place. */
  ghost predicate Holds(ts: seq<Piece>, at: nat, w: seq<Piece>) {
    at + |w| <= |ts| && ts[at..at + |w|] == w
  }

  lemma HoldsBoth(ts: seq<Piece>, at: nat, u: seq<Piece>, w: seq<Piece>)
    requires Holds(ts, at, u + w)
    ensures Holds(ts, at, u) && Holds(ts, at + |u|, w)
  {
    var both := ts[at..at + |u| + |w|];
    assert both[..|u|] == u && both[|u|..] == w;
  }

  function EntryTokens(v: Json, i: nat): seq<Piece>
    requires i < Size(v)
    decreases v, 0, 0
  {
    match v
    case Object(members) => [Is(Text(members[i].key))] + TokensOf(members[i].value)
    case Array(items) => TokensOf(items[i])
  }

  /** The tokens of the members or items from the i-th on. */
  function TokensFrom(v: Json, i: nat): seq<Piece>
    requires i <= Size(v)
    decreases v, 0, Size(v) - i + 1
  {
    if i == Size(v) then [] else EntryTokens(v, i) + TokensFrom(v, i + 1)
  }

  function TokensOf(v: Json): (ts: seq<Piece>)
    ensures ts != [] && !ts[0].Close?
    decreases v, 1
  {
    match v
    case Object(_) => [Open(true)] + (TokensFrom(v, 0) + [Close(true)])
    case Array(_) => [Open(false)] + (TokensFrom(v, 0) + [Close(false)])
    case Of(scalar) => [Is(scalar)]
  }

  /** A value's tokens read as the value, wherever they are. */
  lemma {:induction false} TokensRead(v: Json, ts: seq<Piece>, at: nat)
    requires Holds(ts, at, TokensOf(v))
    ensures Reading(ts, at) == Some((v, at + |TokensOf(v)|))
    decreases v, 1
  {
    FirstOf(ts, at, TokensOf(v));
    if v.Object? {
      HoldsBoth(ts, at, [Open(true)], TokensFrom(v, 0) + [Close(true)]);
      MembersRead(v, 0, ts, at + 1);
    } else if v.Array? {
      HoldsBoth(ts, at, [Open(false)], TokensFrom(v, 0) + [Close(false)]);
      ItemsRead(v, 0, ts, at + 1);
    }
  }

  lemma FirstOf(ts: seq<Piece>, at: nat, w: seq<Piece>)
    requires Holds(ts, at, w) && w != []
    ensures at < |ts| && ts[at] == w[0]
  {
    assert ts[at] == ts[at..at + |w|][0];
  }

  /** The i-th entry's tokens, then those of the ones after it, then the end. */
  lemma EntryFirst(v: Json, i: nat, ts: seq<Piece>, at: nat)
    requires i < Size(v) && Holds(ts, at, TokensFrom(v, i) + [Close(v.Object?)])
    ensures Holds(ts, at, EntryTokens(v, i)) && Holds(ts, at + |EntryTokens(v, i)|, TokensFrom(v, i + 1) + [Close(v.Object?)])
  {
    var w, more := EntryTokens(v, i), TokensFrom(v, i + 1) + [Close(v.Object?)];
    assert TokensFrom(v, i) + [Close(v.Object?)] == w + more;
    HoldsBoth(ts, at, w, more);
  }

  lemma NoneLeft(v: Json, ts: seq<Piece>, at: nat)
    requires Holds(ts, at, TokensFrom(v, Size(v)) + [Close(v.Object?)])
    ensures at < |ts| && ts[at] == Close(v.Object?)
  {
    FirstOf(ts, at, TokensFrom(v, Size(v)) + [Close(v.Object?)]);
  }

  lemma {:induction false} ItemsRead(v: Json, i: nat, ts: seq<Piece>, at: nat)
    requires v.Array? && i <= |v.items| && Holds(ts, at, TokensFrom(v, i) + [Close(false)])
    ensures Items(ts, at) == Some((v.items[i..], at + |TokensFrom(v, i)| + 1))
    decreases v, 0, |v.items| - i
  {
    if i == |v.items| {
      NoneLeft(v, ts, at);
      assert v.items[i..] == [];
    } else {
      EntryFirst(v, i, ts, at);
      FirstOf(ts, at, TokensOf(v.items[i]));
      TokensRead(v.items[i], ts, at);
      ItemsRead(v, i + 1, ts, at + |TokensOf(v.items[i])|);
      assert v.items[i..] == [v.items[i]] + v.items[i + 1..];
    }
  }

  lemma {:induction false} MembersRead(v: Json, i: nat, ts: seq<Piece>, at: nat)
    requires v.Object? && i <= |v.members| && Holds(ts, at, TokensFrom(v, i) + [Close(true)])
    ensures Members(ts, at) == Some((v.members[i..], at + |TokensFrom(v, i)| + 1))
    decreases v, 0, |v.members| - i
  {
    if i == |v.members| {
      NoneLeft(v, ts, at);
      assert v.members[i..] == [];
    } else {
      var m := v.members[i];
      EntryFirst(v, i, ts, at);
      FirstOf(ts, at, EntryTokens(v, i));
      HoldsBoth(ts, at, [Is(Text(m.key))], TokensOf(m.value));
      TokensRead(m.value, ts, at + 1);
      MembersRead(v, i + 1, ts, at + 1 + |TokensOf(m.value)|);
      assert v.members[i..] == [m] + v.members[i + 1..];
    }
  }

  // What is written has the value's tokens.

  lemma {:induction false} TokensAre(v: Json)
    ensures Tokens(Written(v)) == TokensOf(v)
    decreases v, 1
  {
    if !v.Of? {
      var open, close := [Open(v.Object?)], [Close(v.Object?)];
      TokensOfFirst(v, Size(v));
      TokensOfBoth(open + WrittenTo(v, Size(v)), close);
      TokensOfBoth(open, WrittenTo(v, Size(v)));
      assert Tokens(open) == open && Tokens(close) == close;
      assert TokensFrom(v, Size(v)) == [];
    }
  }

  lemma {:induction false} TokensOfFirst(v: Json, n: nat)
    requires n <= Size(v)
    ensures Tokens(WrittenTo(v, n)) + TokensFrom(v, n) == TokensFrom(v, 0)
    decreases v, 0, n
  {
    if n > 0 {
      TokensOfFirst(v, n - 1);
      EntryTokensAre(v, n - 1);
      var before, last := WrittenTo(v, n - 1), EntryWritten(v, n - 1);
      TokensOfBoth(before + CommaBefore(n - 1), last);
      TokensOfBoth(before, CommaBefore(n - 1));
      assert Tokens(CommaBefore(n - 1)) == [];
      assert Tokens(before) + (EntryTokens(v, n - 1) + TokensFrom(v, n)) == Tokens(before) + EntryTokens(v, n - 1) + TokensFrom(v, n);
    }
  }

  lemma EntryTokensAre(v: Json, i: nat)
    requires i < Size(v)
    ensures Tokens(EntryWritten(v, i)) == EntryTokens(v, i)
    decreases v, 0, 0
  {
    if v.Object? {
      var key := [Is(Text(v.members[i].key)), Colon];
      TokensAre(v.members[i].value);
      TokensOfBoth(key, Written(v.members[i].value));
      assert Tokens(key) == [key[0]] + Tokens(key[1..]);
    } else {
      TokensAre(v.items[i]);
    }
  }

  /** Reading undoes writing, and leaves what comes after. */
  lemma ReadUndoesWrite(v: Json, rest: seq<Piece>)
    ensures var text := Tokens(Written(v) + rest);
      Reading(text, 0) == Some((v, |text| - |Tokens(rest)|)) && text[|text| - |Tokens(rest)|..] == Tokens(rest)
  {
    TokensOfBoth(Written(v), rest);
    TokensAre(v);
    TokensRead(v, Tokens(Written(v) + rest), 0);
  }

  /** What is read is written with the tokens it was read from, every one and in their order. */
  lemma {:induction false} WriteUndoesRead(ts: seq<Piece>, at: nat)
    requires at <= |ts| && Reading(ts, at).Some?
    ensures var (v, end) := Reading(ts, at).value; TokensOf(v) == ts[at..end] && Tokens(Written(v)) == ts[at..end]
    decreases |ts| - at, 0
  {
    var (v, end) := Reading(ts, at).value;
    TokensAre(v);
    if ts[at].Open? {
      if v.Object? {
        MembersGiveBack(ts, at + 1, v, 0);
      } else {
        ItemsGiveBack(ts, at + 1, v, 0);
      }
      assert ts[at..end] == [ts[at]] + ts[at + 1..end];
    }
  }

  lemma {:induction false} ItemsGiveBack(ts: seq<Piece>, at: nat, v: Json, i: nat)
    requires at <= |ts| && v.Array? && i <= |v.items| && Items(ts, at).Some? && Items(ts, at).value.0 == v.items[i..]
    ensures TokensFrom(v, i) + [Close(false)] == ts[at..Items(ts, at).value.1]
    decreases |ts| - at, 1
  {
    var end := Items(ts, at).value.1;
    if i < |v.items| {
      var mid := Reading(ts, at).value.1;
      WriteUndoesRead(ts, at);
      ItemsGiveBack(ts, mid, v, i + 1);
      assert ts[at..end] == ts[at..mid] + ts[mid..end];
    }
  }

  lemma InThree(ts: seq<Piece>, at: nat, mid: nat, end: nat)
    requires at < mid <= end <= |ts|
    ensures ts[at..end] == [ts[at]] + ts[at + 1..mid] + ts[mid..end]
  {
  }

  lemma {:induction false} MembersGiveBack(ts: seq<Piece>, at: nat, v: Json, i: nat)
    requires at <= |ts| && v.Object? && i <= |v.members| && Members(ts, at).Some? && Members(ts, at).value.0 == v.members[i..]
    ensures TokensFrom(v, i) + [Close(true)] == ts[at..Members(ts, at).value.1]
    decreases |ts| - at, 1
  {
    var end := Members(ts, at).value.1;
    if i < |v.members| {
      var mid := Reading(ts, at + 1).value.1;
      WriteUndoesRead(ts, at + 1);
      MembersGiveBack(ts, mid, v, i + 1);
      InThree(ts, at, mid, end);
    }
  }

  /** The decoder, at a place in its tokens. */
  class Decoder {
    const ts: seq<Piece>
    var at: nat

    constructor (ts: seq<Piece>)
      ensures this.ts == ts && at == 0
    {
      this.ts, at := ts, 0;
    }

    /** readJSON. */
    method Read() returns (r: Option<Json>)
      requires at <= |ts|
      modifies this
      ensures at <= |ts|
      ensures r.Some? <==> Reading(ts, old(at)).Some?
      ensures r.Some? ==> Reading(ts, old(at)) == Some((r.value, at))
      decreases |ts| - at, 1
    {
      if at == |ts| {
        return None;
      }
      var token := ts[at];
      at := at + 1;
      match token
      case Is(scalar) => r := Some(Of(scalar));
      case Open(true) => r := ReadMembers();
      case Open(false) => r := ReadItems();
      case _ => r := None;
    }

    method ReadMembers() returns (r: Option<Json>)
      requires at <= |ts|
      modifies this
      ensures at <= |ts|
      ensures r.Some? <==> Members(ts, old(at)).Some?
      ensures r.Some? ==> r.value.Object? && Members(ts, old(at)) == Some((r.value.members, at))
      decreases |ts| - at, 2
    {
      var members: seq<Member> := [];
      AfterNothing(Members(ts, at));
      while at < |ts| && !ts[at].Close?
        invariant old(at) <= at <= |ts|
        invariant Members(ts, old(at)) == After(members, Members(ts, at))
        decreases |ts| - at
      {
        if !ts[at].Is? || !ts[at].scalar.Text? {
          return None;
        }
        var key, before := ts[at].scalar.s, at;
        at := at + 1;
        var value := Read();
        if value.None? {
          return None;
        }
        AfterOneMore(members, Member(key, value.value), Members(ts, at));
        members := members + [Member(key, value.value)];
      }
      if at == |ts| || !ts[at].curly {
        return None;
      }
      at := at + 1;
      assert members + [] == members;
      r := Some(Object(members));
    }

    method ReadItems() returns (r: Option<Json>)
      requires at <= |ts|
      modifies this
      ensures at <= |ts|
      ensures r.Some? <==> Items(ts, old(at)).Some?
      ensures r.Some? ==> r.value.Array? && Items(ts, old(at)) == Some((r.value.items, at))
      decreases |ts| - at, 2
    {
      var items: seq<Json> := [];
      AfterNothing(Items(ts, at));
      while at < |ts| && !ts[at].Close?
        invariant old(at) <= at <= |ts|
        invariant Items(ts, old(at)) == After(items, Items(ts, at))
        decreases |ts| - at
      {
        var value := Read();
        if value.None? {
          return None;
        }
        AfterOneMore(items, value.value, Items(ts, at));
        items := items + [value.value];
      }
      if at == |ts| || ts[at].curly {
        return None;
      }
      at := at + 1;
      assert items + [] == items;
      r := Some(Array(items));
    }
  }

  /** What was read before what is read after. */
  function After<T>(before: seq<T>, more: Read<seq<T>>): Read<seq<T>> {
    if more.None? then None else Some((before + more.value.0, more.value.1))
  }

  lemma AfterNothing<T>(more: Read<seq<T>>)
    ensures After([], more) == more
  {
    if more.Some? {
      assert [] + more.value.0 == more.value.0;
    }
  }

  lemma AfterOneMore<T>(before: seq<T>, x: T, more: Read<seq<T>>)
    ensures more.Some? ==> After(before, Some(([x] + more.value.0, more.value.1))) == After(before + [x], more)
  {
    if more.Some? {
      assert before + ([x] + more.value.0) == before + [x] + more.value.0;
    }
  }
}
