/**
 session/session.go: what a handler's calls come to: what it sets, flashes and rotates is what the rows and the next
 request have, under the ID and for the time that it said.
 */
module SessionLaws {
  import opened Options
  import opened Sessions

  // The last word on a key stands.

  predicate Writes(op: Op, key: string) {
    match op
    case Set(k, _) => k == key
    case Delete(k) => k == key
    case Clear => true
    case _ => false
  }

  lemma OneStep(s: State, ops: seq<Op>)
    requires ops != []
    ensures DoAll(s, ops) == DoAll(Do(s, ops[0]), ops[1..])
  {
  }

  lemma NoStep(s: State)
    ensures DoAll(s, []) == s
  {
  }

  lemma UnwrittenOne(s: State, op: Op, key: string)
    requires !Writes(op, key)
    ensures key in Do(s, op).values <==> key in s.values
    ensures key in s.values ==> Do(s, op).values[key] == s.values[key]
  {
  }

  lemma {:induction false} Unwritten(s: State, ops: seq<Op>, key: string)
    requires forall i :: 0 <= i < |ops| ==> !Writes(ops[i], key)
    ensures key in DoAll(s, ops).values <==> key in s.values
    ensures key in s.values ==> DoAll(s, ops).values[key] == s.values[key]
    decreases |ops|
  {
    if ops == [] {
      NoStep(s);
    } else {
      var t := Do(s, ops[0]);
      UnwrittenOne(s, ops[0], key);
      Unwritten(t, ops[1..], key);
      OneStep(s, ops);
    }
  }

  /** The last call that writes a key says what it has: what it was set to, or nothing. */
  lemma {:induction false} LastWrite(s: State, ops: seq<Op>, key: string, i: nat)
    requires i < |ops| && Writes(ops[i], key) && forall j :: i < j < |ops| ==> !Writes(ops[j], key)
    ensures var values := DoAll(s, ops).values;
      if ops[i].Set? then key in values && values[key] == ops[i].value else key !in values
    decreases |ops|
  {
    OneStep(s, ops);
    var t := Do(s, ops[0]);
    if i == 0 {
      Unwritten(t, ops[1..], key);
    } else {
      LastWrite(t, ops[1..], key, i - 1);
    }
  }

  predicate Flashes(op: Op, key: string) {
    match op
    case Flash(k, _) => k == key
    case Unflash(k) => k == key
    case Clear => true
    case _ => false
  }

  /** What a call that does not flash a key leaves of it for the next request. */
  lemma UnflashedOne(s: State, op: Op, key: string)
    requires !Flashes(op, key)
    ensures var t := Do(s, op);
      && (key in t.now <==> key in s.now) && (key in s.now ==> t.now[key] == s.now[key])
      && (key in t.next <==> key in s.next || (op == Reflash && key in s.now))
      && (key in t.next ==> t.next[key] == if key in s.next then s.next[key] else s.now[key])
  {
  }

  /** Where no call flashes a key, what was flashed before it is kept for the next when one keeps it so, and only then. */
  lemma {:induction false} Unflashed(s: State, ops: seq<Op>, key: string)
    requires forall i :: 0 <= i < |ops| ==> !Flashes(ops[i], key)
    ensures var next, keeps := DoAll(s, ops).next, Reflash in ops;
      && (key in next <==> key in s.next || (keeps && key in s.now))
      && (key in next ==> next[key] == if key in s.next then s.next[key] else s.now[key])
    decreases |ops|
  {
    if ops == [] {
      NoStep(s);
    } else {
      var t := Do(s, ops[0]);
      UnflashedOne(s, ops[0], key);
      Unflashed(t, ops[1..], key);
      OneStep(s, ops);
      assert Reflash in ops <==> ops[0] == Reflash || Reflash in ops[1..];
    }
  }

  /** The last call that flashes a key says what the next request has of it. */
  lemma {:induction false} LastFlash(s: State, ops: seq<Op>, key: string, i: nat)
    requires i < |ops| && Flashes(ops[i], key) && forall j :: i < j < |ops| ==> !Flashes(ops[j], key)
    ensures ops[i].Flash? ==> key in DoAll(s, ops).next && DoAll(s, ops).next[key] == ops[i].value
    ensures !ops[i].Flash? && Reflash !in ops[i + 1..] ==> key !in DoAll(s, ops).next
    decreases |ops|
  {
    OneStep(s, ops);
    var t := Do(s, ops[0]);
    if i == 0 {
      Unflashed(t, ops[1..], key);
    } else {
      LastFlash(t, ops[1..], key, i - 1);
      assert ops[1..][i..] == ops[i + 1..];
    }
  }

  predicate Lasts(op: Op) {
    op.SetLifetime? || op.Clear?
  }

  lemma SameLifetimeOne(s: State, op: Op)
    requires !Lasts(op)
    ensures Do(s, op).lifetime == s.lifetime
  {
  }

  lemma {:induction false} SameLifetime(s: State, ops: seq<Op>)
    requires forall i :: 0 <= i < |ops| ==> !Lasts(ops[i])
    ensures DoAll(s, ops).lifetime == s.lifetime
    decreases |ops|
  {
    if ops == [] {
      NoStep(s);
    } else {
      var t := Do(s, ops[0]);
      SameLifetimeOne(s, ops[0]);
      SameLifetime(t, ops[1..]);
      OneStep(s, ops);
    }
  }

  /** The last call that sets a lifetime sets it to the whole seconds of what it says, or to the Store's. */
  lemma {:induction false} LastLifetime(s: State, ops: seq<Op>, i: nat)
    requires i < |ops| && Lasts(ops[i]) && forall j :: i < j < |ops| ==> !Lasts(ops[j])
    ensures var lifetime := DoAll(s, ops).lifetime;
      if ops[i].Clear? || ops[i].d < SECOND then lifetime == 0
      else lifetime % SECOND == 0 && lifetime <= ops[i].d < lifetime + SECOND
    decreases |ops|
  {
    OneStep(s, ops);
    var t := Do(s, ops[0]);
    if i == 0 {
      SameLifetime(t, ops[1..]);
    } else {
      LastLifetime(t, ops[1..], i - 1);
    }
  }

  // What the next request sees.

  lemma StaysLostOne(s: State, op: Op)
    ensures Do(s, op).lost == s.lost && Do(s, op).had == s.had && Do(s, op).id == s.id
  {
  }

  lemma {:induction false} StaysLost(s: State, ops: seq<Op>)
    ensures DoAll(s, ops).lost == s.lost && DoAll(s, ops).had == s.had && DoAll(s, ops).id == s.id
    decreases |ops|
  {
    if ops == [] {
      NoStep(s);
    } else {
      var t := Do(s, ops[0]);
      StaysLostOne(s, ops[0]);
      StaysLost(t, ops[1..]);
      OneStep(s, ops);
    }
  }

  /** What the session's flash comes to as the response starts: a request that passes keeps what was left for the next. */
  function FlashLeft(t: State): Data {
    if t.passed then t.now + t.next else t.next
  }

  /**
   The next request sees the values and the flash that this one left, and none of what was flashed for this one, up to the
   session's lifetime after, and nothing from then on.
   */
  lemma NextSees(base: Time, s: State, ops: seq<Op>, at: Time, later: Time)
    requires var t := DoAll(s, ops);
      !s.lost && !(t.passed && !t.changed && t.next == map[]) && (t.values != map[] || FlashLeft(t) != map[])
    ensures var t, sent := DoAll(s, ops), SavePlain(base, DoAll(s, ops), at);
      var seen := LoadPlain(Some(if sent.Put? then sent.payload else Payload(None, map[], map[], 0, 0, None)), later);
      var lasts := if t.lifetime > 0 then t.lifetime else base;
      && sent.Put? && seen.next == map[] && !seen.passed && !seen.changed && !seen.rotated
      && if later / SECOND <= (at + lasts) / SECOND then seen.values == t.values && seen.now == FlashLeft(t)
         else seen.values == map[] && seen.now == map[]
  {
    StaysLost(s, ops);
  }

  /** A request that only passes writes nothing, so that its flash is there for the one it was left for. */
  lemma {:induction false} PassedIsLeft(base: Time, rows: map<nat, Row>, nextId: nat, s: State, ops: seq<Op>, at: Time, fails: bool)
    requires ops != [] && (forall i :: 0 <= i < |ops| ==> ops[i] == Pass) && !s.changed && s.next == map[]
    ensures SavePlain(base, DoAll(s, ops), at) == Untouched
    ensures SaveKept(base, rows, nextId, DoAll(s, ops), at, fails) == (rows, Untouched)
    decreases |ops|
  {
    assert DoAll(s, ops) == DoAll(Do(s, Pass), ops[1..]);
    if |ops| > 1 {
      PassedIsLeft(base, rows, nextId, Do(s, Pass), ops[1..], at, fails);
    } else {
      assert DoAll(Do(s, Pass), []) == Do(s, Pass);
    }
  }

  // A new ID.

  lemma RotatedStaysOne(s: State, op: Op)
    ensures s.rotated && s.changed ==> Do(s, op).rotated && Do(s, op).changed
  {
  }

  lemma {:induction false} RotatedStays(s: State, ops: seq<Op>)
    ensures s.rotated && s.changed ==> DoAll(s, ops).rotated && DoAll(s, ops).changed
    decreases |ops|
  {
    if ops == [] {
      NoStep(s);
    } else {
      var t := Do(s, ops[0]);
      RotatedStaysOne(s, ops[0]);
      RotatedStays(t, ops[1..]);
      OneStep(s, ops);
    }
  }

  lemma {:induction false} Rotated(s: State, ops: seq<Op>, i: nat)
    requires i < |ops| && (ops[i] == Rotate || ops[i] == Op.Clear)
    ensures DoAll(s, ops).rotated && DoAll(s, ops).changed
    decreases |ops|
  {
    OneStep(s, ops);
    var t := Do(s, ops[0]);
    if i == 0 {
      RotatedStays(t, ops[1..]);
    } else {
      Rotated(t, ops[1..], i - 1);
    }
  }

  /**
   A session that is rotated is written under an ID that no session had, with the values and flash it has, and its cookie
   carries that ID; the row under the old one is gone, and no other is touched: so the ID that its browser came with is no
   session any more, and the next request sees it under the new one.
   */
  lemma RotatedIsNew(base: Time, rows: map<nat, Row>, nextId: nat, s: State, ops: seq<Op>, at: Time, i: nat)
    requires !s.lost && i < |ops| && ops[i] == Rotate
    requires (forall id :: id in rows ==> id < nextId) && (s.id.Some? ==> s.id.value < nextId)
    requires var t := DoAll(s, ops); t.values != map[] || FlashLeft(t) != map[]
    ensures var t := DoAll(s, ops);
      var (after, sent) := SaveKept(base, rows, nextId, t, at, false);
      && sent.Put? && sent.payload.id == Some(nextId) && sent.payload.values == map[] && sent.payload.flash == map[]
      && nextId in after && after[nextId].payload.values == t.values && after[nextId].payload.flash == FlashLeft(t)
      && (s.id.Some? ==> s.id.value !in after)
      && (forall id :: id in rows && s.id != Some(id) ==> id in after && after[id] == rows[id])
      && forall id :: id in after && id != nextId ==> id in rows
  {
    Rotated(s, ops, i);
    StaysLost(s, ops);
    assert !RowWillDo(Closing(DoAll(s, ops)), at);
  }

  /** And when the Keeper fails to answer, the rows and the cookie are as they were. */
  lemma RotatedOrAsItWas(base: Time, rows: map<nat, Row>, nextId: nat, s: State, ops: seq<Op>, at: Time, i: nat)
    requires !s.lost && i < |ops| && ops[i] == Rotate
    requires var t := DoAll(s, ops); t.values != map[] || FlashLeft(t) != map[]
    ensures SaveKept(base, rows, nextId, DoAll(s, ops), at, true) == (rows, Untouched)
  {
    Rotated(s, ops, i);
    StaysLost(s, ops);
  }

  /** The next request that comes with the cookie of a rotated session sees what it left, while it lasts. */
  lemma NextSeesRotated(base: Time, rows: map<nat, Row>, nextId: nat, s: State, ops: seq<Op>, at: Time, i: nat, later: Time)
    requires !s.lost && i < |ops| && ops[i] == Rotate
    requires (forall id :: id in rows ==> id < nextId) && (s.id.Some? ==> s.id.value < nextId)
    requires var t := DoAll(s, ops); t.values != map[] || FlashLeft(t) != map[]
    requires var t := DoAll(s, ops); at <= later <= at + if t.lifetime > 0 then t.lifetime else base
    ensures var t := DoAll(s, ops);
      var (after, sent) := SaveKept(base, rows, nextId, t, at, false);
      sent.Put? && var seen := LoadKept(after, Some(sent.payload), later, false);
      seen.values == t.values && seen.now == FlashLeft(t) && seen.id == Some(nextId)
  {
    RotatedIsNew(base, rows, nextId, s, ops, at, i);
  }
}
