/**
 auth/cbor.go: the part of CBOR (RFC 8949) that WebAuthn writes, as it is read, and as auth/passkeytest writes it. A
 string is its UTF-8 bytes.
 */
module Cbor {
  import opened Options

  type byte = x: int | 0 <= x < 256

  type Bytes = seq<byte>

  const MAX_DEPTH := 8
  const MAX_INT64 := 0x7fff_ffff_ffff_ffff

  datatype Value =
    | Int(n: int)
    | Raw(bytes: Bytes)
    | Text(bytes: Bytes)
    | List(items: seq<Value>)
    | Map(pairs: map<Value, Value>)
    | Bool(b: bool)
    | Null

  /** A value read, and the place after it; none for what is not CBOR as WebAuthn writes it. */
  type Read<T> = Option<(T, nat)>

  predicate Tail(s: Bytes, from: nat, to: nat) {
    to <= |s| && forall i :: from <= i < to ==> 0x80 <= s[i] <= 0xbf
  }

  /** The length of the UTF-8 character at a place, or 0 when there is none. */
  function CharLength(s: Bytes, at: nat): nat
    requires at < |s|
  {
    var c := s[at];
    if c < 0x80 then 1
    else if 0xc2 <= c <= 0xdf && Tail(s, at + 1, at + 2) then 2
    else if 0xe0 <= c <= 0xef && Tail(s, at + 1, at + 3) && (c == 0xe0 ==> s[at + 1] >= 0xa0) && (c == 0xed ==> s[at + 1] <= 0x9f) then 3
    else if 0xf0 <= c <= 0xf4 && Tail(s, at + 1, at + 4) && (c == 0xf0 ==> s[at + 1] >= 0x90) && (c == 0xf4 ==> s[at + 1] <= 0x8f) then 4
    else 0
  }

  /** The bytes from a place on are UTF-8. */
  predicate Utf8(s: Bytes, at: nat)
    requires at <= |s|
    decreases |s| - at, 1
  {
    at == |s| || Utf8Next(s, at)
  }

  predicate Utf8Next(s: Bytes, at: nat)
    requires at < |s|
    decreases |s| - at, 0
  {
    var n := CharLength(s, at);
    0 < n && at + n <= |s| && Utf8(s, at + n)
  }

  /** The number that the bytes from one place to another are, the first the highest. */
  function BigEndian(b: Bytes, at: nat, end: nat): nat
    requires at <= end <= |b|
    decreases end - at
  {
    if at == end then 0 else 256 * BigEndian(b, at, end - 1) + b[end - 1]
  }

  /** An item's argument: in info itself below 24, or in the 1, 2, 4 or 8 bytes after it. */
  function Argument(info: nat, b: Bytes, at: nat): (r: Read<nat>)
    requires at <= |b|
    ensures r.Some? ==> at <= r.value.1 <= |b|
  {
    if info < 24 then Some((info, at))
    else if info > 27 then None
    else
      var end := at + [1, 2, 4, 8][info - 24];
      if |b| < end then None else Some((BigEndian(b, at, end), end))
  }

  /**
   The item at a place in b. With checks, a list or a map longer than the bytes left is refused before its items are
   read, as the code does; without, reading them says.
   */
  function Item(b: Bytes, at: nat, depth: nat, checks: bool): (r: Read<Value>)
    requires at <= |b|
    ensures r.Some? ==> at < r.value.1 <= |b|
    decreases |b| - at, 1, 0
  {
    if depth > MAX_DEPTH || at == |b| then None else Headed(b[at], b, at + 1, depth, checks)
  }

  /** What follows an item's first byte, of a major type and what is there of an argument. */
  function Headed(head: byte, b: Bytes, at: nat, depth: nat, checks: bool): (r: Read<Value>)
    requires at <= |b|
    ensures r.Some? ==> at <= r.value.1 <= |b|
    decreases |b| - at, 4, 0
  {
    var major, info := head / 32, head % 32;
    if major == 7 then
      if info == 20 then Some((Bool(false), at))
      else if info == 21 then Some((Bool(true), at))
      else if info == 22 then Some((Null, at))
      else None
    else
      var arg := Argument(info, b, at);
      if arg.None? then None else Body(major, arg.value.0, b, arg.value.1, depth, checks)
  }

  /** What follows an item's head, of a major type and an argument. */
  function Body(major: nat, n: nat, b: Bytes, at: nat, depth: nat, checks: bool): (r: Read<Value>)
    requires at <= |b|
    ensures r.Some? ==> at <= r.value.1 <= |b|
    decreases |b| - at, 3, 0
  {
    match major
    case 0 => if n > MAX_INT64 then None else Some((Int(n), at))
    case 1 => if n > MAX_INT64 then None else Some((Int(-1 - n), at))
    case 2 => if at + n > |b| then None else Some((Raw(b[at..at + n]), at + n))
    case 3 => if at + n > |b| || !Utf8(b[at..at + n], 0) then None else Some((Text(b[at..at + n]), at + n))
    case 4 =>
      if checks && n > |b| - at then None
      else
        var items := Items(b, at, n, depth + 1, checks);
        if items.None? then None else Some((List(items.value.0), items.value.1))
    case 5 =>
      if checks && n > (|b| - at) / 2 then None
      else
        var items := Items(b, at, 2 * n, depth + 1, checks);
        if items.None? || !KeysOnce(items.value.0) then None else Some((Map(Paired(items.value.0)), items.value.1))
    case _ => None
  }

  /** n items, one after the other. */
  function Items(b: Bytes, at: nat, n: nat, depth: nat, checks: bool): (r: Read<seq<Value>>)
    requires at <= |b|
    ensures r.Some? ==> |r.value.0| == n && at + n <= r.value.1 <= |b|
    decreases |b| - at, 2, n
  {
    if n == 0 then Some(([], at))
    else
      var first := Item(b, at, depth, checks);
      if first.None? then None
      else
        var more := Items(b, first.value.1, n - 1, depth, checks);
        if more.None? then None else Some(([first.value.0] + more.value.0, more.value.1))
  }

  predicate IsKey(v: Value) {
    v.Int? || v.Text?
  }

  /** Keys and their values, one after the other, as a map. */
  function Paired(items: seq<Value>): map<Value, Value> {
    if |items| < 2 then map[] else Paired(items[..|items| - 2])[items[|items| - 2] := items[|items| - 1]]
  }

  /** The key at place k is an integer or text, and none before it is the same. */
  predicate KeyOnce(items: seq<Value>, k: nat)
    requires k < |items|
  {
    IsKey(items[k]) && items[k] !in Paired(items[..k])
  }

  predicate KeysOnce(items: seq<Value>) {
    forall k :: 0 <= k < |items| && k % 2 == 0 ==> KeyOnce(items, k)
  }

  lemma OnePair(list: seq<Value>, k: Value, v: Value)
    requires |list| % 2 == 0 && KeysOnce(list) && IsKey(k) && k !in Paired(list)
    ensures Paired(list + [k] + [v]) == Paired(list)[k := v]
    ensures KeysOnce(list + [k] + [v])
  {
    var items := list + [k] + [v];
    assert items[..|list|] == list && items[|list|] == k && items[|list| + 1] == v;
    forall i | 0 <= i < |items| && i % 2 == 0
      ensures KeyOnce(items, i)
    {
      if i < |list| {
        assert KeyOnce(list, i) && items[..i] == list[..i];
      }
    }
  }

  /** A key that is none, or came before, is refused whatever is read after it. */
  lemma BadKeyStays(list: seq<Value>, k: Value, more: seq<Value>)
    requires |list| % 2 == 0 && (!IsKey(k) || k in Paired(list))
    ensures !KeysOnce(list + [k] + more)
  {
    var items := list + [k] + more;
    assert items[|list|] == k && items[..|list|] == list;
    assert !KeyOnce(items, |list|);
  }

  /** decodeCBOR: the item at the front, and the bytes after it. */
  function Decode(b: Bytes): Option<(Value, Bytes)> {
    var r := Item(b, 0, 0, true);
    if r.None? then None else Some((r.value.0, b[r.value.1..]))
  }

  // The decoder, which takes items off the front of its bytes.

  /** Items read after a list of those before them. */
  function Onto(list: seq<Value>, more: Read<seq<Value>>): Read<seq<Value>> {
    if more.None? then None else Some((list + more.value.0, more.value.1))
  }

  lemma OntoNothing(more: Read<seq<Value>>)
    ensures Onto([], more) == more
  {
    if more.Some? {
      assert [] + more.value.0 == more.value.0;
    }
  }

  lemma OneMoreItem(list: seq<Value>, b: Bytes, at: nat, n: nat, depth: nat, checks: bool)
    requires n > 0 && at <= |b|
    ensures var first := Item(b, at, depth, checks);
      Onto(list, Items(b, at, n, depth, checks)) ==
      if first.None? then None else Onto(list + [first.value.0], Items(b, first.value.1, n - 1, depth, checks))
  {
    var first := Item(b, at, depth, checks);
    if first.Some? {
      var more := Items(b, first.value.1, n - 1, depth, checks);
      if more.Some? {
        assert list + ([first.value.0] + more.value.0) == list + [first.value.0] + more.value.0;
      }
    }
  }

  lemma OntoLast(list: seq<Value>, b: Bytes, at: nat, depth: nat)
    requires at <= |b|
    ensures Onto(list, Items(b, at, 0, depth, true)) == Some((list, at))
  {
    assert list + [] == list;
  }

  /** What a map's items come to, of those read and those left to read. */
  function MapOf(list: seq<Value>, b: Bytes, at: nat, left: nat, depth: nat): Read<Value>
    requires at <= |b|
  {
    var items := Onto(list, Items(b, at, left, depth, true));
    if items.None? || !KeysOnce(items.value.0) then None else Some((Map(Paired(items.value.0)), items.value.1))
  }

  lemma MapFromItems(n: nat, b: Bytes, at: nat, depth: nat)
    requires at <= |b| && n <= (|b| - at) / 2
    ensures MapOf([], b, at, 2 * n, depth + 1) == Body(5, n, b, at, depth, true)
  {
    OntoNothing(Items(b, at, 2 * n, depth + 1, true));
  }

  /** The next of the items of a map is a key that will not do, or the items are the ones after it. */
  lemma MapOfKey(list: seq<Value>, b: Bytes, at: nat, left: nat, depth: nat)
    requires left > 0 && |list| % 2 == 0 && at <= |b|
    ensures var k := Item(b, at, depth, true);
      MapOf(list, b, at, left, depth) ==
      if k.None? || !IsKey(k.value.0) || k.value.0 in Paired(list) then None
      else MapOf(list + [k.value.0], b, k.value.1, left - 1, depth)
  {
    OneMoreItem(list, b, at, left, depth, true);
    var k := Item(b, at, depth, true);
    if k.Some? && (!IsKey(k.value.0) || k.value.0 in Paired(list)) {
      var more := Items(b, k.value.1, left - 1, depth, true);
      if more.Some? {
        BadKeyStays(list, k.value.0, more.value.0);
      }
    }
  }

  lemma MapOfValue(list: seq<Value>, b: Bytes, at: nat, left: nat, depth: nat)
    requires left > 0 && at <= |b|
    ensures var v := Item(b, at, depth, true);
      MapOf(list, b, at, left, depth) == if v.None? then None else MapOf(list + [v.value.0], b, v.value.1, left - 1, depth)
  {
    OneMoreItem(list, b, at, left, depth, true);
  }

  lemma MapOfAll(list: seq<Value>, b: Bytes, at: nat, depth: nat)
    requires KeysOnce(list) && at <= |b|
    ensures MapOf(list, b, at, 0, depth) == Some((Map(Paired(list)), at))
  {
    OntoLast(list, b, at, depth);
  }

  function Outcome<T>(r: Option<T>, at: nat): Read<T> {
    if r.None? then None else Some((r.value, at))
  }

  class Decoder {
    var b: Bytes

    /** All the bytes there were, and the place in them of those left. */
    ghost const all: Bytes
    ghost var at: nat

    ghost predicate Valid()
      reads this
    {
      at <= |all| && b == all[at..]
    }

    constructor (b: Bytes)
      ensures Valid() && all == b && at == 0
    {
      this.b, all, at := b, b, 0;
    }

    method Skip(n: nat)
      requires Valid() && n <= |b|
      modifies this
      ensures Valid() && at == old(at) + n
    {
      b := b[n..];
      at := at + n;
    }

    method Take(info: nat) returns (r: Option<nat>)
      requires Valid()
      modifies this
      ensures Valid() && at >= old(at) && Outcome(r, at) == Argument(info, all, old(at))
    {
      if info < 24 {
        return Some(info);
      }
      if info > 27 {
        return None;
      }
      var size := [1, 2, 4, 8][info - 24];
      if |b| < size {
        return None;
      }
      var n: nat, i := 0, 0;
      while i < size
        invariant i <= size && b == old(b) && at == old(at)
        invariant n == BigEndian(all, at, at + i)
      {
        n := n * 256 + b[i];
        i := i + 1;
      }
      Skip(size);
      r := Some(n);
    }

    method Next(depth: nat) returns (r: Option<Value>)
      requires Valid()
      modifies this
      ensures Valid() && at >= old(at) && Outcome(r, at) == Item(all, old(at), depth, true)
      decreases |all| - at, 1
    {
      if depth > MAX_DEPTH || b == [] {
        return None;
      }
      var major, info := b[0] / 32, b[0] % 32;
      assert Item(all, at, depth, true) == Headed(b[0], all, at + 1, depth, true);
      Skip(1);
      if major == 7 {
        return if info == 20 then Some(Bool(false)) else if info == 21 then Some(Bool(true)) else if info == 22 then Some(Null) else None;
      }
      var n := Take(info);
      if n.None? {
        return None;
      }
      match major {
        case 0 => r := if n.value > MAX_INT64 then None else Some(Int(n.value));
        case 1 => r := if n.value > MAX_INT64 then None else Some(Int(-1 - n.value));
        case 2 => r := NextString(n.value, depth, false);
        case 3 => r := NextString(n.value, depth, true);
        case 4 => r := NextList(n.value, depth);
        case 5 => r := NextMap(n.value, depth);
        case _ => r := None;
      }
    }

    method NextString(n: nat, depth: nat, text: bool) returns (r: Option<Value>)
      requires Valid()
      modifies this
      ensures Valid() && at >= old(at) && Outcome(r, at) == Body(if text then 3 else 2, n, all, old(at), depth, true)
    {
      if n > |b| {
        return None;
      }
      var s := b[..n];
      assert s == all[at..at + n];
      if text && !Utf8(s, 0) {
        return None;
      }
      Skip(n);
      r := Some(if text then Text(s) else Raw(s));
    }

    method NextList(n: nat, depth: nat) returns (r: Option<Value>)
      requires Valid()
      modifies this
      ensures Valid() && at >= old(at) && Outcome(r, at) == Body(4, n, all, old(at), depth, true)
      decreases |all| - at, 4
    {
      if n > |b| {
        return None;
      }
      var list: seq<Value> := [];
      ghost var was := Items(all, at, n, depth + 1, true);
      OntoNothing(was);
      for i := 0 to n
        invariant Valid() && at >= old(at)
        invariant was == Onto(list, Items(all, at, n - i, depth + 1, true))
      {
        OneMoreItem(list, all, at, n - i, depth + 1, true);
        var v := Next(depth + 1);
        if v.None? {
          return None;
        }
        list := list + [v.value];
      }
      OntoLast(list, all, at, depth + 1);
      r := Some(List(list));
    }

    method NextMap(n: nat, depth: nat) returns (r: Option<Value>)
      requires Valid()
      modifies this
      ensures Valid() && at >= old(at) && Outcome(r, at) == Body(5, n, all, old(at), depth, true)
      decreases |all| - at, 4
    {
      if n > |b| / 2 {
        return None;
      }
      MapFromItems(n, all, at, depth);
      var m: map<Value, Value> := map[];
      ghost var list: seq<Value>, left := [], 2 * n;
      for i := 0 to n
        invariant Valid() && at >= old(at)
        invariant left == 2 * (n - i) && |list| % 2 == 0 && KeysOnce(list) && m == Paired(list)
        invariant MapOf(list, all, at, left, depth + 1) == Body(5, n, all, old(at), depth, true)
      {
        var pair := NextPair(m, depth + 1, list, left);
        if pair.None? {
          return None;
        }
        var (k, v) := pair.value;
        OnePair(list, k, v);
        m := m[k := v];
        list, left := list + [k] + [v], left - 2;
      }
      MapOfAll(list, all, at, depth + 1);
      r := Some(Map(m));
    }

    /** The next key and its value, of a map that is m so far. */
    method NextPair(m: map<Value, Value>, depth: nat, ghost list: seq<Value>, ghost left: nat)
      returns (r: Option<(Value, Value)>)
      requires Valid() && left >= 2 && |list| % 2 == 0 && m == Paired(list)
      modifies this
      ensures Valid() && at >= old(at)
      ensures r.None? ==> MapOf(list, all, old(at), left, depth) == None
      ensures r.Some? ==>
                var (k, v) := r.value;
                && IsKey(k) && k !in m
                && MapOf(list, all, old(at), left, depth) == MapOf(list + [k] + [v], all, at, left - 2, depth)
      decreases |all| - at, 3
    {
      MapOfKey(list, all, at, left, depth);
      var k := Next(depth);
      if k.None? || !IsKey(k.value) || k.value in m {
        return None;
      }
      MapOfValue(list + [k.value], all, at, left - 1, depth);
      var v := Next(depth);
      if v.None? {
        return None;
      }
      r := Some((k.value, v.value));
    }
  }

  // What reading depends on.

  /** Two slices have the same bytes from one place to another, which is in both. */
  ghost predicate SameBytes(b: Bytes, c: Bytes, at: nat, end: nat) {
    at <= end <= |b| && end <= |c| && forall i :: at <= i < end ==> b[i] == c[i]
  }

  lemma {:induction false} SameNumber(b: Bytes, c: Bytes, at: nat, end: nat)
    requires SameBytes(b, c, at, end)
    ensures BigEndian(b, at, end) == BigEndian(c, at, end)
    decreases end - at
  {
    if at < end {
      SameNumber(b, c, at, end - 1);
    }
  }

  /**
   Reading an item depends only on the bytes it uses: among any others, it gives the same value and uses the same bytes.
   So a length check that looks at what is left refuses nothing that could be read.
   */
  lemma {:induction false} ItemUsesItsBytes(b: Bytes, c: Bytes, at: nat, depth: nat, checks: bool)
    requires at <= |b| && Item(b, at, depth, checks).Some?
    requires SameBytes(b, c, at, Item(b, at, depth, checks).value.1)
    ensures Item(c, at, depth, checks) == Item(b, at, depth, checks)
    decreases |b| - at, 1, 0
  {
    HeadedUsesItsBytes(b[at], b, c, at + 1, depth, checks);
  }

  lemma {:induction false} HeadedUsesItsBytes(head: byte, b: Bytes, c: Bytes, at: nat, depth: nat, checks: bool)
    requires at <= |b| && Headed(head, b, at, depth, checks).Some?
    requires SameBytes(b, c, at, Headed(head, b, at, depth, checks).value.1)
    ensures Headed(head, c, at, depth, checks) == Headed(head, b, at, depth, checks)
    decreases |b| - at, 4, 0
  {
    var major, info := head / 32, head % 32;
    if major != 7 {
      var (n, body) := Argument(info, b, at).value;
      if info >= 24 {
        SameNumber(b, c, at, body);
      }
      BodyUsesItsBytes(major, n, b, c, body, depth, checks);
    }
  }

  lemma {:induction false} BodyUsesItsBytes(major: nat, n: nat, b: Bytes, c: Bytes, at: nat, depth: nat, checks: bool)
    requires at <= |b| && Body(major, n, b, at, depth, checks).Some?
    requires SameBytes(b, c, at, Body(major, n, b, at, depth, checks).value.1)
    ensures Body(major, n, c, at, depth, checks) == Body(major, n, b, at, depth, checks)
    decreases |b| - at, 3, 0
  {
    if major == 2 || major == 3 {
      assert b[at..at + n] == c[at..at + n];
    } else if major == 4 {
      ItemsUseTheirBytes(b, c, at, n, depth + 1, checks);
    } else if major == 5 {
      ItemsUseTheirBytes(b, c, at, 2 * n, depth + 1, checks);
    }
  }

  lemma {:induction false} ItemsUseTheirBytes(b: Bytes, c: Bytes, at: nat, n: nat, depth: nat, checks: bool)
    requires at <= |b| && Items(b, at, n, depth, checks).Some?
    requires SameBytes(b, c, at, Items(b, at, n, depth, checks).value.1)
    ensures Items(c, at, n, depth, checks) == Items(b, at, n, depth, checks)
    decreases |b| - at, 2, n
  {
    if n > 0 {
      ItemUsesItsBytes(b, c, at, depth, checks);
      ItemsUseTheirBytes(b, c, Item(b, at, depth, checks).value.1, n - 1, depth, checks);
    }
  }

  /** The early length checks refuse nothing: reading says the same without them. */
  lemma {:induction false} ChecksRefuseNothing(b: Bytes, at: nat, depth: nat)
    requires at <= |b|
    ensures Item(b, at, depth, true) == Item(b, at, depth, false)
    decreases |b| - at, 1, 0
  {
    if depth <= MAX_DEPTH && at < |b| {
      HeadedRefusesNothing(b[at], b, at + 1, depth);
    }
  }

  lemma {:induction false} HeadedRefusesNothing(head: byte, b: Bytes, at: nat, depth: nat)
    requires at <= |b|
    ensures Headed(head, b, at, depth, true) == Headed(head, b, at, depth, false)
    decreases |b| - at, 4, 0
  {
    if head / 32 != 7 && Argument(head % 32, b, at).Some? {
      var (n, body) := Argument(head % 32, b, at).value;
      BodyRefusesNothing(head / 32, n, b, body, depth);
    }
  }

  lemma {:induction false} BodyRefusesNothing(major: nat, n: nat, b: Bytes, at: nat, depth: nat)
    requires at <= |b|
    ensures Body(major, n, b, at, depth, true) == Body(major, n, b, at, depth, false)
    decreases |b| - at, 3, 0
  {
    if major == 4 {
      ItemsRefuseNothing(b, at, n, depth + 1);
    } else if major == 5 {
      ItemsRefuseNothing(b, at, 2 * n, depth + 1);
    }
  }

  lemma {:induction false} ItemsRefuseNothing(b: Bytes, at: nat, n: nat, depth: nat)
    requires at <= |b|
    ensures Items(b, at, n, depth, true) == Items(b, at, n, depth, false)
    decreases |b| - at, 2, n
  {
    if n > 0 {
      ChecksRefuseNothing(b, at, depth);
      var first := Item(b, at, depth, true);
      if first.Some? {
        ItemsRefuseNothing(b, first.value.1, n - 1, depth);
      }
    }
  }

  /** What is cut out by how much was decoded decodes alone to the same value, with nothing left. */
  lemma CutOutDecodesAlone(b: Bytes, rest: Bytes)
    requires Decode(b).Some? && rest == Decode(b).value.1
    ensures |rest| <= |b| && Decode(b[..|b| - |rest|]) == Some((Decode(b).value.0, []))
  {
    var end := Item(b, 0, 0, true).value.1;
    var c := b[..end];
    assert |b| - |rest| == end;
    ItemUsesItsBytes(b, c, 0, 0, true);
    assert c[end..] == [];
  }
}
