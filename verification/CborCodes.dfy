/**
 CBOR as section 3 of RFC 8949 has it: an item is a head and what it says follows, whoever writes it and however long
 its argument. What auth/cbor.go decodes is exactly that, as far as WebAuthn writes it.
 */
module CborCodes {
  import opened Options
  import opened Cbor

  /** An encoded item: its first byte, the bytes of its argument, a string's bytes, and the items in it. */
  datatype Code = Code(head: byte, arg: Bytes, text: Bytes, items: seq<Code>)

  /** The argument, which is in the first byte below 24. */
  function Arg(c: Code): nat {
    if c.head % 32 < 24 then c.head % 32 else BigEndian(c.arg, 0, |c.arg|)
  }

  function Bytes(c: Code): Bytes {
    [c.head] + (c.arg + (c.text + AllBytes(c.items)))
  }

  function AllBytes(items: seq<Code>): Bytes {
    if items == [] then [] else Bytes(items[0]) + AllBytes(items[1..])
  }

  /** How many bytes the argument has, of the additional information in the first byte. */
  function Size(info: nat): nat
    requires info <= 27
  {
    if info < 24 then 0 else [1, 2, 4, 8][info - 24]
  }

  /** A list has as many items as its argument, and a map twice as many, a key before each value. */
  predicate Follows(c: Code) {
    match c.head / 32
    case 0 => Arg(c) <= MAX_INT64 && c.text == [] && c.items == []
    case 1 => Arg(c) <= MAX_INT64 && c.text == [] && c.items == []
    case 2 => |c.text| == Arg(c) && c.items == []
    case 3 => |c.text| == Arg(c) && Utf8(c.text, 0) && c.items == []
    case 4 => c.text == [] && |c.items| == Arg(c)
    case 5 => c.text == [] && |c.items| == 2 * Arg(c) && KeysOnce(Values(c.items))
    case 6 => false
    case _ => 20 <= c.head % 32 <= 22 && c.text == [] && c.items == []
  }

  /** Well-formed, of the kinds that WebAuthn writes, and nested no deeper than the limit. */
  predicate Well(c: Code, depth: nat) {
    depth <= MAX_DEPTH && c.head % 32 <= 27 && |c.arg| == Size(c.head % 32) && Follows(c) && AllWell(c.items, depth + 1)
  }

  predicate AllWell(items: seq<Code>, depth: nat)
    decreases items
  {
    items == [] || (Well(items[0], depth) && AllWell(items[1..], depth))
  }

  function ValueOf(c: Code): Value {
    match c.head / 32
    case 0 => Int(Arg(c))
    case 1 => Int(-1 - Arg(c))
    case 2 => Raw(c.text)
    case 3 => Text(c.text)
    case 4 => List(Values(c.items))
    case 5 => Map(Paired(Values(c.items)))
    case _ => if c.head % 32 == 20 then Bool(false) else if c.head % 32 == 21 then Bool(true) else Null
  }

  function Values(items: seq<Code>): (vs: seq<Value>)
    ensures |vs| == |items|
  {
    if items == [] then [] else [ValueOf(items[0])] + Values(items[1..])
  }

  // Bytes at their places.

  /** The bytes w are in b at a place. */
  ghost predicate Holds(b: Bytes, at: nat, w: Bytes) {
    at + |w| <= |b| && b[at..at + |w|] == w
  }

  lemma HoldsBoth(b: Bytes, at: nat, u: Bytes, w: Bytes)
    ensures Holds(b, at, u + w) <==> Holds(b, at, u) && Holds(b, at + |u|, w)
  {
    if at + |u| + |w| <= |b| {
      var both := b[at..at + |u| + |w|];
      assert both == b[at..at + |u|] + b[at + |u|..at + |u| + |w|];
      assert both[..|u|] == b[at..at + |u|] && both[|u|..] == b[at + |u|..at + |u| + |w|];
      assert (u + w)[..|u|] == u && (u + w)[|u|..] == w;
    }
  }

  /** Where the parts of an item are. */
  lemma HoldsCode(b: Bytes, at: nat, c: Code)
    ensures Holds(b, at, Bytes(c)) <==>
            && at < |b| && b[at] == c.head && Holds(b, at + 1, c.arg) && Holds(b, at + 1 + |c.arg|, c.text)
            && Holds(b, at + 1 + |c.arg| + |c.text|, AllBytes(c.items))
  {
    HoldsParts(b, at, c.head, c.arg, c.text, AllBytes(c.items));
  }

  lemma HoldsParts(b: Bytes, at: nat, head: byte, u: Bytes, v: Bytes, w: Bytes)
    ensures Holds(b, at, [head] + (u + (v + w))) <==>
            && at < |b| && b[at] == head && Holds(b, at + 1, u) && Holds(b, at + 1 + |u|, v) && Holds(b, at + 1 + |u| + |v|, w)
  {
    HoldsBoth(b, at, [head], u + (v + w));
    HoldsBoth(b, at + 1, u, v + w);
    HoldsBoth(b, at + 1 + |u|, v, w);
    if at < |b| {
      assert b[at..at + 1] == [b[at]];
    }
  }

  lemma {:induction false} NumberThere(b: Bytes, at: nat, w: Bytes, size: nat)
    requires Holds(b, at, w) && size <= |w|
    ensures BigEndian(b, at, at + size) == BigEndian(w, 0, size)
    decreases size
  {
    if size > 0 {
      assert b[at + size - 1] == b[at..at + |w|][size - 1];
      NumberThere(b, at, w, size - 1);
    }
  }

  /** The argument that follows a first byte reads as the code's, where it is the bytes there. */
  lemma ArgumentThere(c: Code, b: Bytes, at: nat)
    requires c.head % 32 <= 27 && |c.arg| == Size(c.head % 32) && Holds(b, at, c.arg)
    ensures Argument(c.head % 32, b, at) == Some((Arg(c), at + |c.arg|))
  {
    NumberThere(b, at, c.arg, |c.arg|);
  }

  // What is well-formed reads as its value.

  function Reading(b: Bytes, at: nat, depth: nat): Read<Value>
    requires at <= |b|
  {
    Item(b, at, depth, false)
  }

  function Readings(b: Bytes, at: nat, n: nat, depth: nat): Read<seq<Value>>
    requires at <= |b|
  {
    Items(b, at, n, depth, false)
  }

  /** What follows an item's first byte, and then its argument, is read. */
  lemma HeadReads(c: Code, b: Bytes, at: nat, depth: nat)
    requires at < |b| && depth <= MAX_DEPTH && b[at] == c.head && c.head / 32 != 7
    requires c.head % 32 <= 27 && |c.arg| == Size(c.head % 32) && Holds(b, at + 1, c.arg)
    ensures Reading(b, at, depth) == Body(c.head / 32, Arg(c), b, at + 1 + |c.arg|, depth, false)
  {
    ArgumentThere(c, b, at + 1);
    assert Item(b, at, depth, false) == Headed(c.head, b, at + 1, depth, false);
  }

  lemma SimpleReads(c: Code, b: Bytes, at: nat, depth: nat)
    requires Well(c, depth) && c.head / 32 == 7 && at < |b| && b[at] == c.head
    ensures Reading(b, at, depth) == Some((ValueOf(c), at + 1)) && |Bytes(c)| == 1
  {
    assert Item(b, at, depth, false) == Headed(c.head, b, at + 1, depth, false);
  }

  lemma {:induction false} CodeReads(c: Code, b: Bytes, at: nat, depth: nat)
    requires Well(c, depth) && Holds(b, at, Bytes(c))
    ensures Reading(b, at, depth) == Some((ValueOf(c), at + |Bytes(c)|))
    decreases c
  {
    var end := ItemsThere(c, b, at, depth);
    ItemsRead(c.items, b, end, depth + 1);
    PartsRead(c, b, at, depth, end);
  }

  lemma ItemsThere(c: Code, b: Bytes, at: nat, depth: nat) returns (end: nat)
    requires Well(c, depth) && Holds(b, at, Bytes(c))
    ensures end == at + 1 + |c.arg| + |c.text| <= |b| && Holds(b, end, AllBytes(c.items)) && AllWell(c.items, depth + 1)
  {
    HoldsCode(b, at, c);
    end := at + 1 + |c.arg| + |c.text|;
  }

  lemma PartsRead(c: Code, b: Bytes, at: nat, depth: nat, end: nat)
    requires Well(c, depth) && Holds(b, at, Bytes(c)) && end == at + 1 + |c.arg| + |c.text| <= |b|
    requires Readings(b, end, |c.items|, depth + 1) == Some((Values(c.items), end + |AllBytes(c.items)|))
    ensures Reading(b, at, depth) == Some((ValueOf(c), at + |Bytes(c)|))
  {
    LengthOf(c);
    HoldsCode(b, at, c);
    if c.head / 32 == 7 {
      SimpleReads(c, b, at, depth);
    } else {
      HeadReads(c, b, at, depth);
      BodyReads(c, b, at + 1 + |c.arg|, depth);
    }
  }

  lemma LengthOf(c: Code)
    ensures |Bytes(c)| == 1 + |c.arg| + |c.text| + |AllBytes(c.items)|
  {
  }

  lemma BodyReads(c: Code, b: Bytes, at: nat, depth: nat)
    requires Well(c, depth) && Holds(b, at, c.text) && c.head / 32 != 7
    requires Readings(b, at + |c.text|, |c.items|, depth + 1) == Some((Values(c.items), at + |c.text| + |AllBytes(c.items)|))
    ensures Body(c.head / 32, Arg(c), b, at, depth, false) == Some((ValueOf(c), at + |c.text| + |AllBytes(c.items)|))
  {
  }

  lemma {:induction false} ItemsRead(items: seq<Code>, b: Bytes, at: nat, depth: nat)
    requires AllWell(items, depth) && Holds(b, at, AllBytes(items))
    ensures Readings(b, at, |items|, depth) == Some((Values(items), at + |AllBytes(items)|))
    decreases items
  {
    if items != [] {
      HoldsBoth(b, at, Bytes(items[0]), AllBytes(items[1..]));
      CodeReads(items[0], b, at, depth);
      ItemsRead(items[1..], b, at + |Bytes(items[0])|, depth);
    }
  }

  // And what reads is well-formed.

  lemma {:induction false} ReadIsCode(b: Bytes, at: nat, depth: nat) returns (c: Code)
    requires at <= |b| && Reading(b, at, depth).Some?
    ensures Well(c, depth) && Holds(b, at, Bytes(c))
    decreases |b| - at, 1, 0
  {
    if b[at] / 32 == 7 {
      c := SimpleIsCode(b, at, depth);
    } else {
      var n, body := ReadHead(b, at, depth);
      var head := Code(b[at], b[at + 1..body], [], []);
      ArgumentThere(head, b, at + 1);
      c := BodyIsCode(head, b, body, depth);
      CodeThere(c, b, at, depth);
    }
  }

  lemma SimpleIsCode(b: Bytes, at: nat, depth: nat) returns (c: Code)
    requires at < |b| && Reading(b, at, depth).Some? && b[at] / 32 == 7
    ensures Well(c, depth) && Holds(b, at, Bytes(c))
  {
    assert Item(b, at, depth, false) == Headed(b[at], b, at + 1, depth, false);
    c := Code(b[at], [], [], []);
    HoldsCode(b, at, c);
  }

  lemma ReadHead(b: Bytes, at: nat, depth: nat) returns (n: nat, body: nat)
    requires at < |b| && Reading(b, at, depth).Some? && b[at] / 32 != 7
    ensures depth <= MAX_DEPTH && b[at] % 32 <= 27 && at < body <= |b| && body == at + 1 + Size(b[at] % 32)
    ensures Argument(b[at] % 32, b, at + 1) == Some((n, body))
    ensures Body(b[at] / 32, n, b, body, depth, false).Some?
  {
    assert Item(b, at, depth, false) == Headed(b[at], b, at + 1, depth, false);
    n, body := Argument(b[at] % 32, b, at + 1).value.0, Argument(b[at] % 32, b, at + 1).value.1;
  }

  lemma CodeThere(c: Code, b: Bytes, at: nat, depth: nat)
    requires at < |b| && b[at] == c.head && depth <= MAX_DEPTH && c.head % 32 <= 27 && |c.arg| == Size(c.head % 32)
    requires Follows(c) && AllWell(c.items, depth + 1) && Holds(b, at + 1, c.arg)
    requires Holds(b, at + 1 + |c.arg|, c.text) && Holds(b, at + 1 + |c.arg| + |c.text|, AllBytes(c.items))
    ensures Well(c, depth) && Holds(b, at, Bytes(c))
  {
    HoldsCode(b, at, c);
  }

  /** What follows a head, with the head. */
  lemma {:induction false} BodyIsCode(head: Code, b: Bytes, at: nat, depth: nat) returns (c: Code)
    requires at <= |b| && head.head / 32 < 7 && Body(head.head / 32, Arg(head), b, at, depth, false).Some?
    ensures c.head == head.head && c.arg == head.arg && Follows(c) && AllWell(c.items, depth + 1)
    ensures Holds(b, at, c.text) && Holds(b, at + |c.text|, AllBytes(c.items))
    decreases |b| - at, 3, 0
  {
    var n := Arg(head);
    c := head.(text := [], items := []);
    match head.head / 32
    case 2 => c := c.(text := b[at..at + n]);
    case 3 => c := c.(text := b[at..at + n]);
    case 4 =>
      var items := ReadAreCodes(b, at, n, depth + 1);
      c := c.(items := items);
    case 5 =>
      var items := ReadAreCodes(b, at, 2 * n, depth + 1);
      c := c.(items := items);
    case _ =>
  }

  lemma {:induction false} ReadAreCodes(b: Bytes, at: nat, n: nat, depth: nat) returns (items: seq<Code>)
    requires at <= |b| && Readings(b, at, n, depth).Some?
    ensures |items| == n && AllWell(items, depth) && Holds(b, at, AllBytes(items))
    ensures Readings(b, at, n, depth) == Some((Values(items), at + |AllBytes(items)|))
    decreases |b| - at, 2, n
  {
    items := [];
    if n > 0 {
      var first := ReadIsCode(b, at, depth);
      CodeReads(first, b, at, depth);
      var more := ReadAreCodes(b, at + |Bytes(first)|, n - 1, depth);
      items := [first] + more;
      assert items[1..] == more;
      HoldsBoth(b, at, Bytes(first), AllBytes(more));
      ItemsRead(items, b, at, depth);
    }
  }

  lemma CodeDecodes(c: Code, rest: Bytes)
    requires Well(c, 0)
    ensures Decode(Bytes(c) + rest) == Some((ValueOf(c), rest))
  {
    var b := Bytes(c) + rest;
    assert b[0..|Bytes(c)|] == Bytes(c) && b[|Bytes(c)|..] == rest;
    CodeReads(c, b, 0, 0);
    ChecksRefuseNothing(b, 0, 0);
  }

  /**
   Decoding gives a value and the bytes left exactly when the bytes are an encoding of that value, and then those left:
   whatever the encoding, whatever follows it.
   */
  lemma DecodesExactly(b: Bytes, v: Value, rest: Bytes)
    ensures Decode(b) == Some((v, rest)) <==> exists c :: Well(c, 0) && ValueOf(c) == v && b == Bytes(c) + rest
  {
    ChecksRefuseNothing(b, 0, 0);
    if Decode(b) == Some((v, rest)) {
      var c := ReadIsCode(b, 0, 0);
      CodeReads(c, b, 0, 0);
      assert b == b[0..|Bytes(c)|] + b[|Bytes(c)|..] == Bytes(c) + rest;
    }
    forall c | Well(c, 0) && b == Bytes(c) + rest
      ensures Decode(b) == Some((ValueOf(c), rest))
    {
      CodeDecodes(c, rest);
    }
  }

  // A map's keys and values.

  /** The items of a map are taken as they should: each key is an integer or text, and no two are the same. */
  lemma KeysOnceExactly(items: seq<Value>)
    requires |items| % 2 == 0
    ensures KeysOnce(items) <==>
            && (forall k :: 0 <= k < |items| && k % 2 == 0 ==> items[k].Int? || items[k].Text?)
            && forall j, k :: 0 <= j < k < |items| && j % 2 == 0 && k % 2 == 0 ==> items[j] != items[k]
  {
    forall k | 0 <= k < |items| && k % 2 == 0
      ensures items[k] in Paired(items[..k]) <==> exists j :: 0 <= j < k && j % 2 == 0 && items[j] == items[k]
    {
      PairedKeys(items[..k], items[k]);
      if j :| 0 <= j < k && j % 2 == 0 && items[j] == items[k] {
        assert items[..k][j] == items[k];
      }
    }
    if KeysOnce(items) {
      forall k | 0 <= k < |items| && k % 2 == 0
        ensures items[k].Int? || items[k].Text?
      {
        assert KeyOnce(items, k);
      }
      forall j, k | 0 <= j < k < |items| && j % 2 == 0 && k % 2 == 0
        ensures items[j] != items[k]
      {
        assert KeyOnce(items, k);
      }
    }
  }

  lemma {:induction false} PairedKeys(items: seq<Value>, key: Value)
    requires |items| % 2 == 0
    ensures key in Paired(items) <==> exists j :: 0 <= j < |items| && j % 2 == 0 && items[j] == key
  {
    if items != [] {
      var n := |items| - 2;
      PairedKeys(items[..n], key);
      if j :| 0 <= j < |items| && j % 2 == 0 && items[j] == key {
        assert j == n || items[..n][j] == key;
      }
    }
  }

  /** Each value is under the key before it. */
  lemma {:induction false} PairedAt(items: seq<Value>, k: nat)
    requires |items| % 2 == 0 && k < |items| && k % 2 == 0
    requires forall i, j :: 0 <= i < j < |items| && i % 2 == 0 && j % 2 == 0 ==> items[i] != items[j]
    ensures items[k] in Paired(items) && Paired(items)[items[k]] == items[k + 1]
    decreases |items|
  {
    var n := |items| - 2;
    if k < n {
      assert items[..n][k] == items[k] && items[..n][k + 1] == items[k + 1] && items[k] != items[n];
      PairedAt(items[..n], k);
    }
  }

  // An example of RFC 8949, from its Appendix A.

  lemma Decodes(c: Code, b: Bytes)
    requires Well(c, 0) && Bytes(c) == b
    ensures Decode(b) == Some((ValueOf(c), []))
  {
    CodeDecodes(c, []);
    assert b + [] == b;
  }

  lemma NumberOfTwo(x: byte, y: byte)
    ensures BigEndian([x, y], 0, 2) == 256 * x + y
  {
    assert BigEndian([x, y], 0, 1) == 256 * BigEndian([x, y], 0, 0) + x;
  }

  lemma MinusThousandOfRfc()
    ensures Decode([0x39, 0x03, 0xe7]) == Some((Int(-1000), []))
  {
    NumberOfTwo(0x03, 0xe7);
    Decodes(Code(0x39, [0x03, 0xe7], [], []), [0x39, 0x03, 0xe7]);
  }
}
