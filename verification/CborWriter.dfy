/**
 auth/passkeytest/passkeytest.go: CBOR as an authenticator writes it, which decodes to what was written, whatever comes
 after it; and auth/passkeys.go's authenticator data, which cuts a key out by how much CBOR it is.
 */
module CborWriter {
  import opened Options
  import opened Cbor
  import CborCodes

  /** What is written: a map is written in the order of its pairs. */
  datatype Written = Int(n: int) | Raw(bytes: Bytes) | Text(bytes: Bytes) | Map(pairs: seq<(Written, Written)>)

  /** A number in so many bytes, the highest first. */
  function BytesOf(n: nat, size: nat): (s: Bytes)
    ensures |s| == size
  {
    if size == 0 then [] else BytesOf(n / 256, size - 1) + [n % 256]
  }

  function Power(size: nat): nat {
    if size == 0 then 1 else 256 * Power(size - 1)
  }

  lemma {:induction false} BytesGiveBack(n: nat, size: nat)
    requires n < Power(size)
    ensures BigEndian(BytesOf(n, size), 0, size) == n
  {
    if size > 0 {
      BytesGiveBack(n / 256, size - 1);
      SameNumber(BytesOf(n / 256, size - 1), BytesOf(n, size), 0, size - 1);
    }
  }

  lemma {:induction false} NumberFits(b: Bytes, size: nat)
    requires size <= |b|
    ensures BigEndian(b, 0, size) < Power(size)
  {
    if size > 0 {
      NumberFits(b, size - 1);
    }
  }

  /** What an item's first byte says of its argument: the argument itself, or how many bytes after it hold it. */
  function Info(n: nat): nat {
    if n < 24 then n else if n <= 0xff then 24 else if n <= 0xffff then 25 else if n <= 0xffff_ffff then 26 else 27
  }

  function Head(major: nat, n: nat): Bytes
    requires major < 8
  {
    [32 * major + Info(n)] + BytesOf(n, CborCodes.Size(Info(n)))
  }

  /** What fits: integers of 64 bits, text that is UTF-8, and lengths a slice may have. */
  predicate Fits(v: Written)
    decreases v, 1
  {
    match v
    case Int(n) => -MAX_INT64 - 1 <= n <= MAX_INT64
    case Raw(s) => |s| <= MAX_INT64
    case Text(s) => |s| <= MAX_INT64 && Utf8(s, 0)
    case Map(pairs) => |pairs| <= MAX_INT64 && PairsFit(v, 0)
  }

  predicate PairsFit(v: Written, i: nat)
    requires v.Map? && i <= |v.pairs|
    decreases v, 0, |v.pairs| - i
  {
    i == |v.pairs| || (Fits(v.pairs[i].0) && Fits(v.pairs[i].1) && PairsFit(v, i + 1))
  }

  function Write(v: Written): Bytes
    requires Fits(v)
    decreases v, 1
  {
    match v
    case Int(n) => if n >= 0 then Head(0, n) else Head(1, -1 - n)
    case Raw(s) => Head(2, |s|) + s
    case Text(s) => Head(3, |s|) + s
    case Map(pairs) => Head(5, |pairs|) + WritePairs(v, 0)
  }

  /** The pairs of a map, from the i-th on. */
  function WritePairs(v: Written, i: nat): Bytes
    requires v.Map? && i <= |v.pairs| && PairsFit(v, i)
    decreases v, 0, |v.pairs| - i
  {
    if i == |v.pairs| then [] else Write(v.pairs[i].0) + (Write(v.pairs[i].1) + WritePairs(v, i + 1))
  }

  lemma AppendedPair(r: Bytes, k: Bytes, x: Bytes, more: Bytes)
    ensures r + (k + (x + more)) == r + k + x + more
  {
  }

  method AppendHead(b: Bytes, major: nat, n: nat) returns (r: Bytes)
    requires major < 8
    ensures r == b + Head(major, n)
  {
    if n < 24 {
      return b + [32 * major + n];
    }
    if n <= 0xff {
      return b + [32 * major + 24] + BytesOf(n, 1);
    }
    if n <= 0xffff {
      return b + [32 * major + 25] + BytesOf(n, 2);
    }
    if n <= 0xffff_ffff {
      return b + [32 * major + 26] + BytesOf(n, 4);
    }
    return b + [32 * major + 27] + BytesOf(n, 8);
  }

  method Append(b: Bytes, v: Written) returns (r: Bytes)
    requires Fits(v)
    ensures r == b + Write(v)
    decreases v, 1
  {
    match v
    case Int(n) =>
      if n >= 0 {
        r := AppendHead(b, 0, n);
      } else {
        r := AppendHead(b, 1, -1 - n);
      }
    case Raw(s) =>
      r := AppendHead(b, 2, |s|);
      r := r + s;
    case Text(s) =>
      r := AppendHead(b, 3, |s|);
      r := r + s;
    case Map(pairs) =>
      r := AppendHead(b, 5, |pairs|);
      r := AppendPairs(r, v);
      assert b + Head(5, |pairs|) + WritePairs(v, 0) == b + (Head(5, |pairs|) + WritePairs(v, 0));
  }

  method AppendPairs(b: Bytes, v: Written) returns (r: Bytes)
    requires v.Map? && PairsFit(v, 0)
    ensures r == b + WritePairs(v, 0)
    decreases v, 0
  {
    r := b;
    for i := 0 to |v.pairs|
      invariant PairsFit(v, i)
      invariant r + WritePairs(v, i) == b + WritePairs(v, 0)
    {
      AppendedPair(r, Write(v.pairs[i].0), Write(v.pairs[i].1), WritePairs(v, i + 1));
      r := Append(r, v.pairs[i].0);
      r := Append(r, v.pairs[i].1);
    }
  }

  /** The value written: a map without the order of its pairs. */
  function ValueOf(v: Written): Value
    decreases v, 1
  {
    match v
    case Int(n) => Value.Int(n)
    case Raw(s) => Value.Raw(s)
    case Text(s) => Value.Text(s)
    case Map(pairs) => Value.Map(Paired(ItemsOf(v, 0)))
  }

  /** The keys and values of the pairs from the i-th on, one after the other. */
  function ItemsOf(v: Written, i: nat): seq<Value>
    requires v.Map? && i <= |v.pairs|
    decreases v, 0, |v.pairs| - i
  {
    if i == |v.pairs| then [] else [ValueOf(v.pairs[i].0)] + ([ValueOf(v.pairs[i].1)] + ItemsOf(v, i + 1))
  }

  /** Nesting up to the limit, and keys that are integers or text, each once. */
  predicate Decodable(v: Written, depth: nat)
    decreases v, 1
  {
    depth <= MAX_DEPTH && (v.Map? ==> KeysOnce(ItemsOf(v, 0)) && PairsDecodable(v, 0, depth + 1))
  }

  predicate PairsDecodable(v: Written, i: nat, depth: nat)
    requires v.Map? && i <= |v.pairs|
    decreases v, 0, |v.pairs| - i
  {
    i == |v.pairs| ||
    (Decodable(v.pairs[i].0, depth) && Decodable(v.pairs[i].1, depth) && PairsDecodable(v, i + 1, depth))
  }

  /** What is written, as the encoding that it is. */
  function CodeOf(v: Written): CborCodes.Code
    requires Fits(v)
    decreases v, 1
  {
    match v
    case Int(n) => if n >= 0 then CodeFor(0, n, [], []) else CodeFor(1, -1 - n, [], [])
    case Raw(s) => CodeFor(2, |s|, s, [])
    case Text(s) => CodeFor(3, |s|, s, [])
    case Map(pairs) => CodeFor(5, |pairs|, [], CodesOf(v, 0))
  }

  function CodeFor(major: nat, n: nat, text: Bytes, items: seq<CborCodes.Code>): CborCodes.Code
    requires major < 8
  {
    CborCodes.Code(32 * major + Info(n), BytesOf(n, CborCodes.Size(Info(n))), text, items)
  }

  function CodesOf(v: Written, i: nat): seq<CborCodes.Code>
    requires v.Map? && i <= |v.pairs| && PairsFit(v, i)
    decreases v, 0, |v.pairs| - i
  {
    if i == |v.pairs| then [] else [CodeOf(v.pairs[i].0)] + ([CodeOf(v.pairs[i].1)] + CodesOf(v, i + 1))
  }

  lemma Powers()
    ensures Power(1) == 0x100 && Power(2) == 0x1_0000 && Power(4) == 0x1_0000_0000 && Power(8) == 0x1_0000_0000_0000_0000
  {
    assert Power(2) == 0x1_0000 && Power(4) == 256 * (256 * Power(2)) && Power(6) == 256 * (256 * Power(4));
  }

  lemma CodeForArg(major: nat, n: nat, text: Bytes, items: seq<CborCodes.Code>)
    requires major < 8 && n < 0x1_0000_0000_0000_0000
    ensures CborCodes.Arg(CodeFor(major, n, text, items)) == n
  {
    Powers();
    if n >= 24 {
      BytesGiveBack(n, CborCodes.Size(Info(n)));
    }
  }

  /** No head with the same argument is shorter. */
  lemma ShortestHead(c: CborCodes.Code, major: nat)
    requires c.head % 32 <= 27 && |c.arg| == CborCodes.Size(c.head % 32) && major < 8
    ensures |Head(major, CborCodes.Arg(c))| <= 1 + |c.arg|
  {
    Powers();
    NumberFits(c.arg, |c.arg|);
  }

  lemma TwoMore(a: CborCodes.Code, b: CborCodes.Code, more: seq<CborCodes.Code>)
    ensures var items := [a] + ([b] + more);
      && CborCodes.AllBytes(items) == CborCodes.Bytes(a) + (CborCodes.Bytes(b) + CborCodes.AllBytes(more))
      && CborCodes.Values(items) == [CborCodes.ValueOf(a)] + ([CborCodes.ValueOf(b)] + CborCodes.Values(more))
      && forall depth :: CborCodes.AllWell(items, depth) <==>
                         CborCodes.Well(a, depth) && CborCodes.Well(b, depth) && CborCodes.AllWell(more, depth)
  {
    var items := [a] + ([b] + more);
    assert items[1..] == [b] + more && items[1..][1..] == more;
  }

  lemma NoContent(major: nat, n: nat, text: Bytes)
    requires major < 8
    ensures CborCodes.Bytes(CodeFor(major, n, text, [])) == Head(major, n) + text
  {
  }

  lemma JustItems(major: nat, n: nat, items: seq<CborCodes.Code>)
    requires major < 8
    ensures CborCodes.Bytes(CodeFor(major, n, [], items)) == Head(major, n) + CborCodes.AllBytes(items)
  {
  }

  lemma NumberCode(n: int)
    requires Fits(Written.Int(n))
    ensures CodeWrites(Written.Int(n))
  {
    var major, m := if n >= 0 then 0 else 1, if n >= 0 then n else -1 - n;
    CodeForArg(major, m, [], []);
    NoContent(major, m, []);
  }

  lemma StringCode(v: Written)
    requires Fits(v) && (v.Raw? || v.Text?)
    ensures CodeWrites(v)
  {
    var major := if v.Raw? then 2 else 3;
    CodeForArg(major, |v.bytes|, v.bytes, []);
    NoContent(major, |v.bytes|, v.bytes);
  }

  lemma MapCode(v: Written)
    requires Fits(v) && v.Map? && CodesWrite(v, 0)
    ensures CodeWrites(v)
  {
    CodeForArg(5, |v.pairs|, [], CodesOf(v, 0));
    JustItems(5, |v.pairs|, CodesOf(v, 0));
  }

  /** What is written is the bytes of an encoding of its value, and of one that decodes. */
  ghost predicate CodeWrites(v: Written)
    requires Fits(v)
  {
    && Write(v) == CborCodes.Bytes(CodeOf(v)) && CborCodes.ValueOf(CodeOf(v)) == ValueOf(v)
    && forall depth: nat :: Decodable(v, depth) ==> CborCodes.Well(CodeOf(v), depth)
  }

  ghost predicate CodesWrite(v: Written, i: nat)
    requires v.Map? && i <= |v.pairs| && PairsFit(v, i)
  {
    var codes := CodesOf(v, i);
    && WritePairs(v, i) == CborCodes.AllBytes(codes) && CborCodes.Values(codes) == ItemsOf(v, i)
    && |codes| == 2 * (|v.pairs| - i)
    && forall depth: nat :: PairsDecodable(v, i, depth) ==> CborCodes.AllWell(codes, depth)
  }

  lemma {:induction false} WritesCode(v: Written)
    requires Fits(v)
    ensures CodeWrites(v)
    decreases v, 1
  {
    match v
    case Int(n) => NumberCode(n);
    case Map(pairs) =>
      WritesCodes(v, 0);
      MapCode(v);
    case _ => StringCode(v);
  }

  lemma {:induction false} WritesCodes(v: Written, i: nat)
    requires v.Map? && i <= |v.pairs| && PairsFit(v, i)
    ensures CodesWrite(v, i)
    decreases v, 0, |v.pairs| - i
  {
    if i < |v.pairs| {
      var (k, x) := v.pairs[i];
      WritesCode(k);
      WritesCode(x);
      WritesCodes(v, i + 1);
      TwoMore(CodeOf(k), CodeOf(x), CodesOf(v, i + 1));
    }
  }

  /** Decoding undoes writing, and leaves exactly the bytes after what was written. */
  lemma DecodeUndoesWrite(v: Written, rest: Bytes)
    requires Fits(v) && Decodable(v, 0)
    ensures Decode(Write(v) + rest) == Some((ValueOf(v), rest))
  {
    WritesCode(v);
    assert CborCodes.Well(CodeOf(v), 0);
    CborCodes.CodeDecodes(CodeOf(v), rest);
  }

  // Authenticator data.

  const PASSKEY_FLAG := 0x40
  const EXTENSIONS_FLAG := 0x80

  datatype AuthData = AuthData(rpIDHash: Bytes, flags: byte, signCount: nat, credentialID: Bytes, publicKey: Bytes)

  predicate HasFlag(flags: byte, flag: nat)
    requires flag > 0
  {
    flags / flag % 2 == 1
  }

  /** What decodes alone to a value decodes to it in front of any other bytes, and leaves those. */
  lemma DecodesInFront(b: Bytes, v: Value, rest: Bytes)
    requires Decode(b) == Some((v, []))
    ensures Decode(b + rest) == Some((v, rest))
  {
    assert Item(b, 0, 0, true).value.1 == |b|;
    ItemUsesItsBytes(b, b + rest, 0, 0, true);
    assert (b + rest)[|b|..] == rest;
  }

  predicate DecodesAlone(b: Bytes) {
    Decode(b).Some? && Decode(b).value.1 == []
  }

  /** The passkey in authenticator data, up to an end: its ID, after the ID's length, and a key that decodes alone. */
  predicate HoldsKey(b: Bytes, id: Bytes, key: Bytes, end: nat) {
    && 55 <= |b| && 1 <= |id| <= 1023 && |id| == BigEndian(b, 53, 55)
    && 55 + |id| <= end <= |b| && b[55..55 + |id|] == id && b[55 + |id|..end] == key && DecodesAlone(key)
  }

  /** Authenticator data, and the end of what is before its extensions, which are a map that decodes alone. */
  predicate Laid(b: Bytes, ad: AuthData, end: nat) {
    && 37 <= |b| && end <= |b| && ad.rpIDHash == b[..32] && ad.flags == b[32] && ad.signCount == BigEndian(b, 33, 37)
    && (if HasFlag(ad.flags, PASSKEY_FLAG) then HoldsKey(b, ad.credentialID, ad.publicKey, end)
        else end == 37 && ad.credentialID == [] && ad.publicKey == [])
    && (if HasFlag(ad.flags, EXTENSIONS_FLAG) then DecodesAlone(b[end..]) && Decode(b[end..]).value.0.Map? else end == |b|)
  }

  /**
   Parses authenticator data, which is well-formed exactly when it is what is returned, laid out: the key is cut out by how
   much CBOR is at its place, and decodes alone.
   */
  method ParseAuthData(b: Bytes) returns (r: Option<AuthData>)
    ensures r.Some? ==> exists end: nat :: Laid(b, r.value, end)
    ensures forall ad, end: nat :: Laid(b, ad, end) ==> r == Some(ad)
  {
    if |b| < 37 {
      return None;
    }
    var ad := AuthData(b[..32], b[32], BigEndian(b, 33, 37), [], []);
    var rest := b[37..];
    if HasFlag(ad.flags, PASSKEY_FLAG) {
      var key := ParseKey(b);
      if key.None? {
        return None;
      }
      ad := ad.(credentialID := key.value.0, publicKey := key.value.1);
      rest := key.value.2;
    }
    ghost var end := |b| - |rest|;
    assert rest == b[end..];
    if HasFlag(ad.flags, EXTENSIONS_FLAG) {
      var ext := Decode(rest);
      if ext.None? || !ext.value.0.Map? {
        return None;
      }
      rest := ext.value.1;
    }
    if rest != [] {
      return None;
    }
    assert Laid(b, ad, end);
    r := Some(ad);
  }

  /** The ID and the key of the passkey in authenticator data, and the bytes after them. */
  method ParseKey(b: Bytes) returns (r: Option<(Bytes, Bytes, Bytes)>)
    requires |b| >= 37
    ensures r.Some? ==> |r.value.2| <= |b| && r.value.2 == b[|b| - |r.value.2|..] && HoldsKey(b, r.value.0, r.value.1, |b| - |r.value.2|)
    ensures forall id, key, end: nat :: HoldsKey(b, id, key, end) ==> r == Some((id, key, b[end..]))
  {
    var rest := b[37..];
    if |rest| < 18 {
      return None;
    }
    var n := BigEndian(rest, 16, 18);
    assert n == BigEndian(b, 53, 55);
    rest := rest[18..];
    assert rest == b[55..];
    if n == 0 || n > 1023 || |rest| < n {
      return None;
    }
    var id := rest[..n];
    rest := rest[n..];
    assert id == b[55..55 + n] && rest == b[55 + n..];
    forall i, k, end: nat | HoldsKey(b, i, k, end)
      ensures i == id && Decode(rest) == Some((Decode(k).value.0, b[end..])) && k == b[55 + n..end]
    {
      assert rest == k + b[end..];
      DecodesInFront(k, Decode(k).value.0, b[end..]);
    }
    var key := Decode(rest);
    if key.None? {
      return None;
    }
    var after := key.value.1;
    CutOutDecodesAlone(rest, after);
    var end := |b| - |after|;
    assert rest[..|rest| - |after|] == b[55 + n..end];
    assert after == b[end..];
    r := Some((id, rest[..|rest| - |after|], after));
  }
}
