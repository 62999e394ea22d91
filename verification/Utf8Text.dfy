/**
 auth/cbor.go: the text that CBOR has is UTF-8, as section 3 of RFC 3629 has it: the characters' bytes, one after the other.
 */
module Utf8Text {
  import opened Cbor

  /** A Unicode scalar value: any code point but the surrogates. */
  predicate Scalar(u: nat) {
    u < 0xd800 || 0xe000 <= u < 0x11_0000
  }

  function Encoded(u: nat): (s: Bytes)
    requires Scalar(u)
    ensures 1 <= |s| <= 4
  {
    if u < 0x80 then [u]
    else if u < 0x800 then [0xc0 + u / 0x40, 0x80 + u % 0x40]
    else if u < 0x1_0000 then [0xe0 + u / 0x1000, 0x80 + u / 0x40 % 0x40, 0x80 + u % 0x40]
    else [0xf0 + u / 0x4_0000, 0x80 + u / 0x1000 % 0x40, 0x80 + u / 0x40 % 0x40, 0x80 + u % 0x40]
  }

  /** The bytes of some characters, one after the other. */
  function AllEncoded(us: seq<nat>): Bytes
    requires forall u :: u in us ==> Scalar(u)
  {
    if us == [] then [] else Encoded(us[0]) + AllEncoded(us[1..])
  }

  ghost predicate There(s: Bytes, at: nat, u: nat)
    requires Scalar(u)
  {
    at + |Encoded(u)| <= |s| && s[at..at + |Encoded(u)|] == Encoded(u)
  }

  lemma OneDigit(a: nat, x: nat)
    requires x < 0x40
    ensures (a * 0x40 + x) / 0x40 == a && (a * 0x40 + x) % 0x40 == x
  {
  }

  lemma Lower(u: nat)
    ensures u / 0x1000 == u / 0x40 / 0x40 && u / 0x4_0000 == u / 0x1000 / 0x40
  {
  }

  /** The six bits of each byte after the first. */
  lemma Digits(a: nat, x: nat, y: nat, z: nat)
    requires x < 0x40 && y < 0x40 && z < 0x40
    ensures var u := a * 0x4_0000 + x * 0x1000 + y * 0x40 + z;
      u / 0x4_0000 == a && u / 0x1000 == a * 0x40 + x && u / 0x1000 % 0x40 == x && u / 0x40 % 0x40 == y && u % 0x40 == z
  {
    var u := a * 0x4_0000 + x * 0x1000 + y * 0x40 + z;
    OneDigit(a, x);
    OneDigit(a * 0x40 + x, y);
    OneDigit((a * 0x40 + x) * 0x40 + y, z);
    assert u == ((a * 0x40 + x) * 0x40 + y) * 0x40 + z;
    Lower(u);
  }

  lemma Made(u: nat)
    ensures u == u / 0x4_0000 * 0x4_0000 + u / 0x1000 % 0x40 * 0x1000 + u / 0x40 % 0x40 * 0x40 + u % 0x40
    ensures u / 0x1000 == u / 0x4_0000 * 0x40 + u / 0x1000 % 0x40
  {
    assert u == u / 0x40 * 0x40 + u % 0x40;
    assert u / 0x40 == u / 0x1000 * 0x40 + u / 0x40 % 0x40;
    assert u / 0x1000 == u / 0x4_0000 * 0x40 + u / 0x1000 % 0x40;
  }

  lemma BytesThere(s: Bytes, at: nat, e: Bytes)
    requires at + |e| <= |s| && s[at..at + |e|] == e
    ensures forall i :: 0 <= i < |e| ==> e[i] == s[at + i]
  {
  }

  /** A character's bytes are as many as its length says. */
  lemma EncodedHasLength(s: Bytes, at: nat, u: nat)
    requires Scalar(u) && There(s, at, u)
    ensures CharLength(s, at) == |Encoded(u)|
  {
    var e := Encoded(u);
    BytesThere(s, at, e);
    assert e[0] == s[at];
    Made(u);
    if |e| > 1 {
      assert e[1] == s[at + 1];
    }
    if |e| > 2 {
      assert e[2] == s[at + 2];
    }
    if |e| > 3 {
      assert e[3] == s[at + 3];
    }
  }

  /** What has a length is the bytes of a character. */
  lemma LengthIsEncoded(s: Bytes, at: nat) returns (u: nat)
    requires at < |s| && CharLength(s, at) > 0
    ensures Scalar(u) && There(s, at, u)
  {
    var c: int, n := s[at], CharLength(s, at);
    if n == 1 {
      u := c;
    } else if n == 2 {
      u := Two(c, s[at + 1]);
    } else if n == 3 {
      u := Three(c, s[at + 1], s[at + 2]);
    } else {
      u := Four(c, s[at + 1], s[at + 2], s[at + 3]);
    }
    assert s[at..at + n] == Encoded(u);
  }

  lemma Two(c: int, x: int) returns (u: nat)
    requires 0xc2 <= c <= 0xdf && 0x80 <= x <= 0xbf
    ensures Scalar(u) && Encoded(u) == [c, x]
  {
    u := (c - 0xc0) * 0x40 + (x - 0x80);
    Digits(0, 0, c - 0xc0, x - 0x80);
  }

  lemma Three(c: int, x: int, y: int) returns (u: nat)
    requires 0xe0 <= c <= 0xef && 0x80 <= x <= 0xbf && 0x80 <= y <= 0xbf
    requires (c == 0xe0 ==> x >= 0xa0) && (c == 0xed ==> x <= 0x9f)
    ensures Scalar(u) && Encoded(u) == [c, x, y]
  {
    u := (c - 0xe0) * 0x1000 + (x - 0x80) * 0x40 + (y - 0x80);
    Digits(0, c - 0xe0, x - 0x80, y - 0x80);
  }

  lemma Four(c: int, x: int, y: int, z: int) returns (u: nat)
    requires 0xf0 <= c <= 0xf4 && 0x80 <= x <= 0xbf && 0x80 <= y <= 0xbf && 0x80 <= z <= 0xbf
    requires (c == 0xf0 ==> x >= 0x90) && (c == 0xf4 ==> x <= 0x8f)
    ensures Scalar(u) && Encoded(u) == [c, x, y, z]
  {
    u := (c - 0xf0) * 0x4_0000 + (x - 0x80) * 0x1000 + (y - 0x80) * 0x40 + (z - 0x80);
    Digits(c - 0xf0, x - 0x80, y - 0x80, z - 0x80);
  }

  /** Bytes are text exactly when they are the bytes of characters. */
  lemma {:induction false} TextExactly(s: Bytes, at: nat)
    requires at <= |s|
    ensures Utf8(s, at) <==> exists us: seq<nat> :: (forall u :: u in us ==> Scalar(u)) && AllEncoded(us) == s[at..]
    decreases |s| - at
  {
    if at < |s| {
      if Utf8(s, at) {
        var us := Characters(s, at);
      }
      forall us: seq<nat> | (forall u :: u in us ==> Scalar(u)) && AllEncoded(us) == s[at..]
        ensures Utf8(s, at)
      {
        CharactersAreText(us, s, at);
      }
    } else {
      assert AllEncoded([]) == s[at..];
    }
  }

  lemma {:induction false} Characters(s: Bytes, at: nat) returns (us: seq<nat>)
    requires at <= |s| && Utf8(s, at)
    ensures (forall u :: u in us ==> Scalar(u)) && AllEncoded(us) == s[at..]
    decreases |s| - at
  {
    us := [];
    if at < |s| {
      var u := LengthIsEncoded(s, at);
      EncodedHasLength(s, at, u);
      var more := Characters(s, at + |Encoded(u)|);
      us := [u] + more;
      assert us[1..] == more;
      assert s[at..] == s[at..at + |Encoded(u)|] + s[at + |Encoded(u)|..];
    }
  }

  lemma {:induction false} CharactersAreText(us: seq<nat>, s: Bytes, at: nat)
    requires at <= |s| && (forall u :: u in us ==> Scalar(u)) && AllEncoded(us) == s[at..]
    ensures Utf8(s, at)
    decreases |us|
  {
    if us != [] {
      var e := Encoded(us[0]);
      assert s[at..][..|e|] == s[at..at + |e|] && s[at..][|e|..] == s[at + |e|..];
      assert (e + AllEncoded(us[1..]))[..|e|] == e && (e + AllEncoded(us[1..]))[|e|..] == AllEncoded(us[1..]);
      EncodedHasLength(s, at, us[0]);
      CharactersAreText(us[1..], s, at + |e|);
    }
  }
}
