/**
 session/session.go: one visitor's session for the length of a request. Encryption is ideal, so a cookie is what was
 sealed in it, and a row is found by the ID its seal is bound to. Times are nanoseconds, and kept as whole seconds.
 */
module Sessions {
  import opened Options

  type Time = int

  const SECOND: Time := 1_000_000_000

  /** How often a session nothing changed is written again, and how long its row outlasts its cookie. */
  const REFRESH: Time := 60 * SECOND

  datatype Value = Text(text: string) | Flag | Fields(fields: map<string, Value>)

  type Data = map<string, Value>

  function Unix(t: Time): int {
    t / SECOND
  }

  /** What a cookie holds, and a Keeper's row. */
  datatype Payload = Payload(id: Option<nat>, values: Data, flash: Data, expires: int, lifetime: int, wrote: Option<int>)

  datatype Row = Row(payload: Payload, expires: Time)

  /** A session's fields, as one value. */
  datatype State = State(
    values: Data, now: Data, next: Data, had: bool, lifetime: Time, id: Option<nat>, wrote: Option<Time>,
    rotated: bool, lost: bool, changed: bool, passed: bool)

  const NEW := State(map[], map[], map[], false, 0, None, None, false, false, false, false)

  /** What a handler does to its session. */
  datatype Op =
    | Set(key: string, value: Value)
    | Delete(key: string)
    | Clear
    | SetLifetime(d: Time)
    | Rotate
    | Flash(key: string, value: Value)
    | Unflash(key: string)
    | Reflash
    | Pass

  function Do(s: State, op: Op): State {
    match op
    case Set(key, value) => s.(values := s.values[key := value], changed := true)
    case Delete(key) => s.(values := s.values - {key}, changed := true)
    case Clear => s.(values := map[], now := map[], next := map[], lifetime := 0, changed := true, rotated := true)
    case SetLifetime(d) => s.(lifetime := if d < SECOND then 0 else d / SECOND * SECOND, changed := true)
    case Rotate => s.(rotated := true, changed := true)
    case Flash(key, value) => s.(next := s.next[key := value])
    case Unflash(key) => s.(next := s.next - {key})
    case Reflash => s.(next := s.now + s.next)
    case Pass => s.(passed := true)
  }

  function DoAll(s: State, ops: seq<Op>): State
    decreases |ops|
  {
    if ops == [] then s else DoAll(Do(s, ops[0]), ops[1..])
  }

  class Session {
    var values: Data
    var now: Data
    var next: Data
    var had: bool
    var lifetime: Time
    const base: Time
    var id: Option<nat>
    var wrote: Option<Time>
    var rotated: bool
    var lost: bool
    var changed: bool
    var passed: bool

    ghost function View(): State
      reads this
    {
      State(values, now, next, had, lifetime, id, wrote, rotated, lost, changed, passed)
    }

    constructor (base: Time)
      ensures View() == NEW && this.base == base
    {
      values, now, next, had, lifetime, id, wrote := map[], map[], map[], false, 0, None, None;
      rotated, lost, changed, passed := false, false, false, false;
      this.base := base;
    }

    method Set(key: string, value: Value)
      modifies this
      ensures View() == Do(old(View()), Op.Set(key, value))
    {
      values := values[key := value];
      changed := true;
    }

    method Delete(key: string)
      modifies this
      ensures View() == Do(old(View()), Op.Delete(key))
    {
      values := values - {key};
      changed := true;
    }

    method Clear()
      modifies this
      ensures View() == Do(old(View()), Op.Clear)
    {
      values, now, next := map[], map[], map[];
      lifetime := 0;
      changed, rotated := true, true;
    }

    /** The lifetime is in whole seconds, and one below a second is the Store's. */
    method SetLifetime(d: Time)
      modifies this
      ensures View() == Do(old(View()), Op.SetLifetime(d))
    {
      lifetime := if d < SECOND then 0 else d / SECOND * SECOND;
      changed := true;
    }

    method Rotate()
      modifies this
      ensures View() == Do(old(View()), Op.Rotate)
    {
      rotated, changed := true, true;
    }

    method Flash(key: string, value: Value)
      modifies this
      ensures View() == Do(old(View()), Op.Flash(key, value))
    {
      next := next[key := value];
    }

    method Unflash(key: string)
      modifies this
      ensures View() == Do(old(View()), Op.Unflash(key))
    {
      next := next - {key};
    }

    method Pass()
      modifies this
      ensures View() == Do(old(View()), Op.Pass)
    {
      passed := true;
    }

    /** Keeps what the request before flashed, but for what this one flashed under the same key. */
    method Reflash()
      modifies this
      ensures View() == Do(old(View()), Op.Reflash)
    {
      var left := now.Keys;
      while left != {}
        invariant View() == old(View()).(next := next)
        invariant left <= now.Keys && next.Keys == old(next).Keys + (now.Keys - left)
        invariant forall k :: k in next ==> next[k] == if k in old(next) then old(next)[k] else now[k]
        decreases left
      {
        var key :| key in left;
        if key !in next {
          next := next[key := now[key]];
        }
        left := left - {key};
      }
      assert next == now + old(next);
    }
  }

  // Loading and saving, on values.

  /** The session a request starts with when its cookie opens to nothing it can use. */
  const AFRESH := NEW.(had := true)

  /** The cookie's payload, when it has one that has not expired. */
  predicate Opens(cookie: Option<Payload>, at: Time) {
    cookie.Some? && Unix(at) <= cookie.value.expires
  }

  /** The cookie's lifetime for the session, in whole seconds. */
  function OwnLifetime(p: Payload): Time {
    (if p.lifetime < 0 then 0 else p.lifetime) * SECOND
  }

  function LoadPlain(cookie: Option<Payload>, at: Time): State {
    if cookie.None? then NEW
    else if !Opens(cookie, at) then AFRESH
    else AFRESH.(lifetime := OwnLifetime(cookie.value), values := cookie.value.values, now := cookie.value.flash)
  }

  /** Whether the Keeper has a row for the ID that a read at a time finds. */
  predicate Found(rows: map<nat, Row>, id: nat, at: Time) {
    id in rows && at < rows[id].expires && Unix(at) <= rows[id].payload.expires
  }

  /** fails says that the Keeper does not answer. */
  function LoadKept(rows: map<nat, Row>, cookie: Option<Payload>, at: Time, fails: bool): State {
    if !Opens(cookie, at) || cookie.value.id.None? then LoadPlain(cookie, at)
    else
      var s := AFRESH.(lifetime := OwnLifetime(cookie.value));
      var id := cookie.value.id.value;
      if fails then s.(lost := true)
      else if !Found(rows, id, at) then s
      else
        var p := rows[id].payload;
        s.(id := Some(id), wrote := if p.wrote.Some? then Some(p.wrote.value * SECOND) else None, values := p.values, now := p.flash)
  }

  /** What a response does to the browser's cookie. */
  datatype Sent = Untouched | Dropped | Put(payload: Payload)

  /** What the session comes to as the response starts: a passed one that is written keeps its flash. */
  function Closing(s: State): State {
    if s.passed then Do(s, Op.Reflash) else s
  }

  predicate LeftAsItCame(s: State) {
    s.passed && !s.changed && s.next == map[]
  }

  predicate Empty(s: State) {
    s.values == map[] && s.next == map[]
  }

  function LifetimeOf(base: Time, s: State): Time {
    if s.lifetime > 0 then s.lifetime else base
  }

  /** What is written of a session at a time. */
  function Written(base: Time, s: State, at: Time): Payload {
    Payload(None, s.values, s.next, Unix(at + LifetimeOf(base, s)), s.lifetime / SECOND, None)
  }

  function SavePlain(base: Time, s: State, at: Time): Sent {
    var c := Closing(s);
    if LeftAsItCame(s) || c.lost then Untouched
    else if Empty(c) then if c.had then Dropped else Untouched
    else Put(Written(base, c, at))
  }

  /** The row a session was read from will do: nothing changed, nothing was flashed, and it was written a moment ago. */
  predicate RowWillDo(c: State, at: Time) {
    c.id.Some? && !c.rotated && !c.changed && c.next == map[] && c.now == map[] && c.wrote.Some? && at - c.wrote.value < REFRESH
  }

  /** The rows and the cookie after a response, where nextId is an ID no session has had, and fails a write that fails. */
  function SaveKept(base: Time, rows: map<nat, Row>, nextId: nat, s: State, at: Time, fails: bool): (map<nat, Row>, Sent) {
    var c := Closing(s);
    if LeftAsItCame(s) || c.lost then (rows, Untouched)
    else if Empty(c) then
      if c.had then (if c.id.Some? then rows - {c.id.value} else rows, Dropped) else (rows, Untouched)
    else
      var p := Written(base, c, at);
      var id := if c.id.None? || c.rotated then nextId else c.id.value;
      var sent := Put(Payload(Some(id), map[], map[], p.expires, p.lifetime, None));
      if RowWillDo(c, at) then (rows, sent)
      else if fails then (rows, Untouched)
      else
        var row := Row(p.(wrote := Some(Unix(at))), at + LifetimeOf(base, c) + REFRESH);
        var rows' := rows[id := row];
        (if c.id.Some? && c.id.value != id then rows' - {c.id.value} else rows', sent)
  }

  /** The app's session Store: without a Keeper the cookie is the session, and with one the rows are. */
  class Store {
    const lifetime: Time
    const keeps: bool
    var rows: map<nat, Row>
    var nextId: nat

    constructor (lifetime: Time, keeps: bool)
      ensures this.lifetime == lifetime && this.keeps == keeps && rows == map[]
    {
      this.lifetime, this.keeps, rows, nextId := lifetime, keeps, map[], 0;
    }

    method Load(cookie: Option<Payload>, at: Time, fails: bool) returns (s: Session)
      ensures s.base == lifetime && fresh(s)
      ensures s.View() == if keeps then LoadKept(rows, cookie, at, fails) else LoadPlain(cookie, at)
    {
      s := new Session(lifetime);
      if cookie.None? {
        return;
      }
      s.had := true;
      var p := cookie.value;
      if Unix(at) > p.expires {
        return;
      }
      s.lifetime := (if p.lifetime < 0 then 0 else p.lifetime) * SECOND;
      if keeps && p.id.Some? {
        Read(s, p.id.value, at, fails);
        return;
      }
      s.values := p.values;
      s.now := p.flash;
    }

    /** Fills s from the Keeper's row; a row that is not there is a new session, and a Keeper that fails leaves s lost. */
    method Read(s: Session, id: nat, at: Time, fails: bool)
      modifies s
      ensures s.View() ==
              var was := old(s.View());
              if fails then was.(lost := true)
              else if !Found(rows, id, at) then was
              else
                var p := rows[id].payload;
                was.(id := Some(id), wrote := if p.wrote.Some? then Some(p.wrote.value * SECOND) else None,
                     values := p.values, now := p.flash)
    {
      if fails {
        s.lost := true;
        return;
      }
      if id !in rows || at >= rows[id].expires {
        return;
      }
      var p := rows[id].payload;
      if Unix(at) > p.expires {
        return;
      }
      s.id := Some(id);
      s.wrote := if p.wrote.Some? then Some(p.wrote.value * SECOND) else None;
      s.values := p.values;
      s.now := p.flash;
    }

    method Save(s: Session, at: Time, fails: bool) returns (sent: Sent)
      requires s.base == lifetime
      modifies this, s
      ensures !keeps ==> sent == SavePlain(lifetime, old(s.View()), at) && rows == old(rows)
      ensures keeps ==> (rows, sent) == SaveKept(lifetime, old(rows), old(nextId), old(s.View()), at, fails)
      ensures old(nextId) <= nextId
    {
      if s.passed {
        if !s.changed && s.next == map[] {
          return Untouched;
        }
        s.Reflash();
      }
      if s.lost {
        return Untouched;
      }
      if s.values == map[] && s.next == map[] {
        if s.had {
          Forget(s);
          return Dropped;
        }
        return Untouched;
      }
      var life := if s.lifetime > 0 then s.lifetime else lifetime;
      var p := Payload(None, s.values, s.next, Unix(at + life), s.lifetime / SECOND, None);
      if keeps {
        var kept := Keep(s, p, at + life, at, fails);
        if !kept {
          return Untouched;
        }
        p := Payload(s.id, map[], map[], p.expires, p.lifetime, None);
      }
      sent := Put(p);
    }

    /** Writes the session's row, unless the one it was read from will do, and says whether the response can carry its ID. */
    method Keep(s: Session, p: Payload, expires: Time, at: Time, fails: bool) returns (kept: bool)
      modifies this, s
      ensures var c := old(s.View());
        var id := if c.id.None? || c.rotated then old(nextId) else c.id.value;
        && s.View() == c.(id := Some(id))
        && kept == (RowWillDo(c, at) || !fails)
        && rows == (if RowWillDo(c, at) || fails then old(rows)
                    else
                      var rows' := old(rows)[id := Row(p.(wrote := Some(Unix(at))), expires + REFRESH)];
                      if c.id.Some? && c.id.value != id then rows' - {c.id.value} else rows')
        && nextId == if c.id.None? || c.rotated then old(nextId) + 1 else old(nextId)
    {
      var was := s.id;
      if s.id.None? || s.rotated {
        s.id := Some(nextId);
        nextId := nextId + 1;
      }
      var soon := s.wrote.Some? && at - s.wrote.value < REFRESH;
      if was.Some? && !s.rotated && !s.changed && s.next == map[] && s.now == map[] && soon {
        return true;
      }
      if fails {
        return false;
      }
      rows := rows[s.id.value := Row(p.(wrote := Some(Unix(at))), expires + REFRESH)];
      if was.Some? && was != s.id {
        rows := rows - {was.value};
      }
      kept := true;
    }

    method Forget(s: Session)
      modifies `rows
      ensures rows == if keeps && s.id.Some? then old(rows) - {s.id.value} else old(rows)
    {
      if keeps && s.id.Some? {
        rows := rows - {s.id.value};
      }
    }
  }

  // What is cleared is gone.

  /** What a session that was cleared has in common with one that was new. */
  ghost predicate AsNew(s: State, anew: State) {
    s.values == anew.values && s.now == anew.now && s.next == anew.next && s.lifetime == anew.lifetime && s.now == map[]
  }

  /** A session that will take a new ID, in place of the one it has. */
  ghost predicate TakesNewID(s: State, was: State) {
    s.id == was.id && s.had == was.had && s.lost == was.lost && s.rotated && s.changed
  }

  lemma ClearedStep(s: State, anew: State, was: State, op: Op)
    requires AsNew(s, anew) && TakesNewID(s, was)
    ensures AsNew(Do(s, op), Do(anew, op)) && TakesNewID(Do(s, op), was)
  {
  }

  lemma {:induction false} ClearedStays(s: State, anew: State, was: State, ops: seq<Op>)
    requires AsNew(s, anew) && TakesNewID(s, was)
    ensures AsNew(DoAll(s, ops), DoAll(anew, ops)) && TakesNewID(DoAll(s, ops), was)
    decreases |ops|
  {
    if ops != [] {
      var t, n := Do(s, ops[0]), Do(anew, ops[0]);
      ClearedStep(s, anew, was, ops[0]);
      ClearedStays(t, n, was, ops[1..]);
      assert DoAll(s, ops) == DoAll(t, ops[1..]) && DoAll(anew, ops) == DoAll(n, ops[1..]);
    } else {
      assert DoAll(s, ops) == s && DoAll(anew, ops) == anew;
    }
  }

  /**
   Once a session is cleared, whatever the handler does after, what is written of it is what a new
   session would have, under an ID that no session had, and the row it was read from is gone: or else nothing is written
   and the browser's cookie is dropped.
   */
  lemma ClearedIsNew(base: Time, rows: map<nat, Row>, nextId: nat, s: State, ops: seq<Op>, at: Time)
    requires !s.lost && s.had && (forall id :: id in rows ==> id < nextId) && (s.id.Some? ==> s.id.value < nextId)
    ensures var t, anew := DoAll(Do(s, Op.Clear), ops), Closing(DoAll(NEW, ops));
      var (after, sent) := SaveKept(base, rows, nextId, t, at, false);
      && (s.id.Some? ==> s.id.value !in after)
      && (forall id :: id in rows && s.id != Some(id) ==> id in after && after[id] == rows[id])
      && if Empty(anew) then sent == Dropped && nextId !in after
         else
           && sent.Put? && sent.payload.id == Some(nextId) && sent.payload.values == map[] && sent.payload.flash == map[]
           && nextId in after && after[nextId].payload.values == anew.values && after[nextId].payload.flash == anew.next
  {
    var t := DoAll(Do(s, Op.Clear), ops);
    ClearedStays(Do(s, Op.Clear), NEW, s, ops);
    assert map[] + t.next == t.next;
    assert AsNew(Closing(t), Closing(DoAll(NEW, ops)));
    assert !RowWillDo(Closing(t), at);
  }
}
