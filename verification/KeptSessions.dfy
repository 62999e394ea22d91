/**
 Sessions kept by a Keeper against sessions in the cookie alone: the same requests see the same values and flash,
 through skipped writes, new IDs, clears, lifetimes, and sessions that began in the cookie.
 */
module KeptSessions {
  import opened Options
  import opened Sessions

  /** One request: when it comes, whether the browser still sends its cookie, and what its handler does. */
  datatype Request = Request(at: Time, sends: bool, ops: seq<Op>)

  /** A browser and a Store without a Keeper; wrote is when the cookie was last written, and life its session's lifetime. */
  datatype Plain = Plain(cookie: Option<Payload>, wrote: Time, life: Time)

  /** A browser and a Store with one. */
  datatype Kept = Kept(cookie: Option<Payload>, rows: map<nat, Row>, nextId: nat)

  function Browser(cookie: Option<Payload>, sent: Sent): Option<Payload> {
    match sent
    case Untouched => cookie
    case Dropped => None
    case Put(p) => Some(p)
  }

  function CookieOf(cookie: Option<Payload>, r: Request): Option<Payload> {
    if r.sends then cookie else None
  }

  function SeenPlain(b: Plain, r: Request): State {
    LoadPlain(CookieOf(b.cookie, r), r.at)
  }

  function SeenKept(b: Kept, r: Request): State {
    LoadKept(b.rows, CookieOf(b.cookie, r), r.at, false)
  }

  function ServePlain(base: Time, b: Plain, r: Request): Plain {
    var s := DoAll(SeenPlain(b, r), r.ops);
    var sent := SavePlain(base, s, r.at);
    Plain(Browser(CookieOf(b.cookie, r), sent), if sent.Put? then r.at else b.wrote,
          if sent.Put? then LifetimeOf(base, s) else b.life)
  }

  function ServeKept(base: Time, b: Kept, r: Request): Kept {
    var s := DoAll(SeenKept(b, r), r.ops);
    var (rows, sent) := SaveKept(base, b.rows, b.nextId, s, r.at, false);
    Kept(Browser(CookieOf(b.cookie, r), sent), rows, b.nextId + 1)
  }

  /** What a handler can tell of its session. */
  predicate SameToHandler(s: State, t: State) {
    s == t.(id := None, wrote := None)
  }

  /** The row says what the plain cookie says, and was written less than REFRESH before it, under the same lifetime. */
  ghost predicate RowSays(row: Row, a: Payload, wrote: Time, life: Time) {
    exists w: Time :: WroteAt(row, a, life, w) && w <= wrote && wrote - Unix(w) * SECOND < REFRESH
  }

  predicate WroteAt(row: Row, a: Payload, life: Time, w: Time) {
    row == Row(Payload(None, a.values, a.flash, Unix(w + life), a.lifetime, Some(Unix(w))), w + life + REFRESH)
  }

  /** The two browsers have the same session. */
  ghost predicate Agree(base: Time, a: Plain, b: Kept) {
    && (forall id :: id in b.rows ==> id < b.nextId)
    && (a.cookie.None? <==> b.cookie.None?)
    && (a.cookie.Some? ==>
          var p, q := a.cookie.value, b.cookie.value;
          && p.id == None && p.wrote == None && p.expires == Unix(a.wrote + a.life) && p.lifetime >= 0
          && a.life == (if p.lifetime > 0 then p.lifetime * SECOND else base)
          && q.expires == p.expires && q.lifetime == p.lifetime
          && if q.id.None? then q == p
             else q.id.value in b.rows && RowSays(b.rows[q.id.value], p, a.wrote, a.life))
  }

  /** The request comes no later than the lifetime less REFRESH after the cookie was written, when it sends one. */
  predicate InTime(a: Plain, r: Request) {
    r.at >= a.wrote && (r.sends && a.cookie.Some? ==> r.at - a.wrote <= a.life - REFRESH)
  }

  lemma UnixGrows(a: Time, b: Time)
    requires a <= b
    ensures Unix(a) <= Unix(b)
  {
  }

  /** A request in time sees the same session from either Store. */
  lemma SeenAlike(base: Time, a: Plain, b: Kept, r: Request)
    requires Agree(base, a, b) && InTime(a, r)
    ensures SameToHandler(SeenPlain(a, r), SeenKept(b, r))
  {
    if r.sends && a.cookie.Some? && b.cookie.value.id.Some? {
      var p := a.cookie.value;
      var w: Time :| WroteAt(b.rows[b.cookie.value.id.value], p, a.life, w) && w <= a.wrote &&
                     a.wrote - Unix(w) * SECOND < REFRESH;
      assert r.at <= w + a.life;
      UnixGrows(r.at, w + a.life);
      UnixGrows(w + a.life, a.wrote + a.life);
    }
  }

  lemma SameDone(s: State, t: State, op: Op)
    requires SameToHandler(s, t)
    ensures SameToHandler(Do(s, op), Do(t, op))
    ensures Do(t, op).id == t.id && Do(t, op).wrote == t.wrote && Do(t, op).lost == t.lost
  {
  }

  lemma {:induction false} SameAfter(s: State, t: State, ops: seq<Op>)
    requires SameToHandler(s, t)
    ensures SameToHandler(DoAll(s, ops), DoAll(t, ops))
    ensures DoAll(t, ops).id == t.id && DoAll(t, ops).wrote == t.wrote && DoAll(t, ops).lost == t.lost
    decreases |ops|
  {
    if ops != [] {
      SameDone(s, t, ops[0]);
      SameAfter(Do(s, ops[0]), Do(t, ops[0]), ops[1..]);
    }
  }

  /** A handler that did not say it changed the session left what it was read with. */
  predicate LeftAlone(s: State, t: State) {
    t.changed || (!s.changed && t.values == s.values && t.lifetime == s.lifetime && t.now == s.now && t.rotated == s.rotated)
  }

  lemma LeftAloneDo(s: State, op: Op)
    ensures LeftAlone(s, Do(s, op))
    ensures s.changed ==> Do(s, op).changed
  {
  }

  lemma {:induction false} ChangedStays(s: State, ops: seq<Op>)
    ensures s.changed ==> DoAll(s, ops).changed
    decreases |ops|
  {
    if ops != [] {
      LeftAloneDo(s, ops[0]);
      ChangedStays(Do(s, ops[0]), ops[1..]);
    }
  }

  lemma LeftAloneStill(s: State, m: State, t: State)
    requires LeftAlone(s, m) && LeftAlone(m, t) && (m.changed ==> t.changed)
    ensures LeftAlone(s, t)
  {
  }

  lemma {:induction false} UnchangedAfter(s: State, ops: seq<Op>)
    ensures LeftAlone(s, DoAll(s, ops))
    decreases |ops|
  {
    if ops != [] {
      var m := Do(s, ops[0]);
      LeftAloneDo(s, ops[0]);
      UnchangedAfter(m, ops[1..]);
      ChangedStays(m, ops[1..]);
      LeftAloneStill(s, m, DoAll(m, ops[1..]));
    } else {
      assert DoAll(s, ops) == s;
    }
  }

  lemma WholeSecondsDo(s: State, op: Op)
    requires s.lifetime >= 0 && s.lifetime % SECOND == 0
    ensures Do(s, op).lifetime >= 0 && Do(s, op).lifetime % SECOND == 0
  {
  }

  lemma {:induction false} WholeSeconds(s: State, ops: seq<Op>)
    requires s.lifetime >= 0 && s.lifetime % SECOND == 0
    ensures var t := DoAll(s, ops); t.lifetime >= 0 && t.lifetime % SECOND == 0
    decreases |ops|
  {
    if ops != [] {
      WholeSecondsDo(s, ops[0]);
      WholeSeconds(Do(s, ops[0]), ops[1..]);
    }
  }

  /** Serving a request in time leaves the two browsers with the same session. */
  lemma ServedAlike(base: Time, a: Plain, b: Kept, r: Request)
    requires Agree(base, a, b) && InTime(a, r)
    ensures Agree(base, ServePlain(base, a, r), ServeKept(base, b, r))
  {
    SeenAlike(base, a, b, r);
    var s0, t0 := SeenPlain(a, r), SeenKept(b, r);
    var s, t := DoAll(s0, r.ops), DoAll(t0, r.ops);
    SameAfter(s0, t0, r.ops);
    WholeSeconds(s0, r.ops);
    SavedAlike(base, a, b, r, s, t);
  }

  /** A session written to both at once, or whose row was written a moment ago. */
  lemma WrittenAlike(base: Time, p: Payload, at: Time, life: Time, rows: map<nat, Row>, id: nat, nextId: nat)
    requires p.id == None && p.wrote == None && p.expires == Unix(at + life) && p.lifetime >= 0
    requires life == if p.lifetime > 0 then p.lifetime * SECOND else base
    requires forall d :: d in rows ==> d < nextId
    requires id in rows && RowSays(rows[id], p, at, life)
    ensures Agree(base, Plain(Some(p), at, life), Kept(Some(Payload(Some(id), map[], map[], p.expires, p.lifetime, None)), rows, nextId))
  {
  }

  /** What a session read from a row has of it. */
  lemma ReadFromRow(b: Kept, r: Request)
    requires SeenKept(b, r).id.Some?
    ensures r.sends && b.cookie.Some? && b.cookie.value.id == SeenKept(b, r).id
    ensures var t, id := SeenKept(b, r), SeenKept(b, r).id.value;
      && id in b.rows && t.values == b.rows[id].payload.values && t.now == b.rows[id].payload.flash
      && t.lifetime == OwnLifetime(b.cookie.value)
      && (t.wrote.Some? ==> b.rows[id].payload.wrote.Some? && t.wrote.value == b.rows[id].payload.wrote.value * SECOND)
  {
  }

  /** A row that will do says what the plain cookie is about to. */
  lemma RowStillSays(base: Time, a: Plain, b: Kept, r: Request, c: State)
    requires Agree(base, a, b) && InTime(a, r) && LeftAlone(SeenKept(b, r), c)
    requires c.id == SeenKept(b, r).id && c.wrote == SeenKept(b, r).wrote && RowWillDo(c, r.at)
    ensures c.id.value in b.rows && RowSays(b.rows[c.id.value], Written(base, c, r.at), r.at, LifetimeOf(base, c))
  {
    ReadFromRow(b, r);
    var p, row := a.cookie.value, b.rows[c.id.value];
    assert RowSays(row, p, a.wrote, a.life);
    var w: Time :| WroteAt(row, p, a.life, w) && w <= a.wrote && a.wrote - Unix(w) * SECOND < REFRESH;
    assert LifetimeOf(base, c) == a.life;
    assert WroteAt(row, Written(base, c, r.at), a.life, w);
  }

  lemma SavedAlike(base: Time, a: Plain, b: Kept, r: Request, s: State, t: State)
    requires Agree(base, a, b) && InTime(a, r) && SameToHandler(s, t) && s.lifetime >= 0 && s.lifetime % SECOND == 0
    requires s == DoAll(SeenPlain(a, r), r.ops) && t == DoAll(SeenKept(b, r), r.ops)
    requires t.id == SeenKept(b, r).id && t.wrote == SeenKept(b, r).wrote && !t.lost
    ensures Agree(base, ServePlain(base, a, r), ServeKept(base, b, r))
  {
    var c := Closing(t);
    if LeftAsItCame(t) || Empty(c) {
      NothingWritten(base, a, b, r, s, t);
    } else {
      UnchangedAfter(SeenKept(b, r), r.ops);
      if RowWillDo(c, r.at) {
        assert LeftAlone(SeenKept(b, r), c);
        RowStillSays(base, a, b, r, c);
      }
      SomethingWritten(base, a, b, r, s, t);
    }
  }

  lemma NothingWritten(base: Time, a: Plain, b: Kept, r: Request, s: State, t: State)
    requires Agree(base, a, b) && SameToHandler(s, t) && (LeftAsItCame(t) || Empty(Closing(t)))
    requires s == DoAll(SeenPlain(a, r), r.ops) && t == DoAll(SeenKept(b, r), r.ops) && t.id == SeenKept(b, r).id
    ensures Agree(base, ServePlain(base, a, r), ServeKept(base, b, r))
  {
  }

  lemma SomethingWritten(base: Time, a: Plain, b: Kept, r: Request, s: State, t: State)
    requires Agree(base, a, b) && SameToHandler(s, t) && s.lifetime >= 0 && s.lifetime % SECOND == 0
    requires s == DoAll(SeenPlain(a, r), r.ops) && t == DoAll(SeenKept(b, r), r.ops) && t.id == SeenKept(b, r).id
    requires !LeftAsItCame(t) && !Empty(Closing(t)) && !t.lost
    requires var c := Closing(t);
      RowWillDo(c, r.at) ==>
        c.id.value in b.rows && RowSays(b.rows[c.id.value], Written(base, c, r.at), r.at, LifetimeOf(base, c))
    ensures Agree(base, ServePlain(base, a, r), ServeKept(base, b, r))
  {
    var c := Closing(t);
    var p, life := Written(base, c, r.at), LifetimeOf(base, c);
    var rows, id := RowsAfter(base, b, c, r.at);
    KeptIsWritten(base, b, t, r.at, rows, id);
    PlainIsWritten(base, s, t, r.at);
    WrittenAlike(base, p, r.at, life, rows, id, b.nextId + 1);
  }

  lemma PlainIsWritten(base: Time, s: State, t: State, at: Time)
    requires SameToHandler(s, t) && !LeftAsItCame(t) && !Empty(Closing(t)) && !t.lost
    ensures SavePlain(base, s, at) == Put(Written(base, Closing(t), at))
  {
  }

  lemma KeptIsWritten(base: Time, b: Kept, t: State, at: Time, rows: map<nat, Row>, id: nat)
    requires !LeftAsItCame(t) && !Empty(Closing(t)) && !t.lost
    requires var c := Closing(t);
      && id == (if c.id.None? || c.rotated then b.nextId else c.id.value)
      && rows == if RowWillDo(c, at) then b.rows
                 else
                   var life := LifetimeOf(base, c);
                   var rows' := b.rows[id := Row(Written(base, c, at).(wrote := Some(Unix(at))), at + life + REFRESH)];
                   if c.id.Some? && c.id.value != id then rows' - {c.id.value} else rows'
    ensures var p := Written(base, Closing(t), at);
      SaveKept(base, b.rows, b.nextId, t, at, false) == (rows, Put(Payload(Some(id), map[], map[], p.expires, p.lifetime, None)))
  {
  }

  /** The rows after a session is written, and the one it is in, which says what the cookie is about to. */
  lemma RowsAfter(base: Time, b: Kept, c: State, at: Time) returns (rows: map<nat, Row>, id: nat)
    requires forall d :: d in b.rows ==> d < b.nextId
    requires c.id.Some? ==> c.id.value < b.nextId
    requires RowWillDo(c, at) ==> c.id.value in b.rows && RowSays(b.rows[c.id.value], Written(base, c, at), at, LifetimeOf(base, c))
    ensures id == (if c.id.None? || c.rotated then b.nextId else c.id.value) && id in rows
    ensures rows == if RowWillDo(c, at) then b.rows
                    else
                      var life := LifetimeOf(base, c);
                      var rows' := b.rows[id := Row(Written(base, c, at).(wrote := Some(Unix(at))), at + life + REFRESH)];
                      if c.id.Some? && c.id.value != id then rows' - {c.id.value} else rows'
    ensures RowSays(rows[id], Written(base, c, at), at, LifetimeOf(base, c))
    ensures forall d :: d in rows ==> d < b.nextId + 1
  {
    id := if c.id.None? || c.rotated then b.nextId else c.id.value;
    if RowWillDo(c, at) {
      rows := b.rows;
    } else {
      var life := LifetimeOf(base, c);
      rows := b.rows[id := Row(Written(base, c, at).(wrote := Some(Unix(at))), at + life + REFRESH)];
      if c.id.Some? && c.id.value != id {
        rows := rows - {c.id.value};
      }
      assert WroteAt(rows[id], Written(base, c, at), life, at);
    }
  }

  /** Any run of requests, each in time for the cookie the one before left. */
  ghost predicate AllInTime(base: Time, a: Plain, rs: seq<Request>)
    decreases |rs|
  {
    rs != [] ==> InTime(a, rs[0]) && AllInTime(base, ServePlain(base, a, rs[0]), rs[1..])
  }

  /** What handlers see, request by request. */
  function AllSeenPlain(base: Time, a: Plain, rs: seq<Request>): (seen: seq<State>)
    ensures |seen| == |rs|
    decreases |rs|
  {
    if rs == [] then [] else [SeenPlain(a, rs[0])] + AllSeenPlain(base, ServePlain(base, a, rs[0]), rs[1..])
  }

  function AllSeenKept(base: Time, b: Kept, rs: seq<Request>): (seen: seq<State>)
    ensures |seen| == |rs|
    decreases |rs|
  {
    if rs == [] then [] else [SeenKept(b, rs[0])] + AllSeenKept(base, ServeKept(base, b, rs[0]), rs[1..])
  }

  const FIRST_PLAIN := Plain(None, 0, 0)

  const FIRST_KEPT := Kept(None, map[], 0)

  lemma {:induction false} AllAlike(base: Time, a: Plain, b: Kept, rs: seq<Request>)
    requires Agree(base, a, b) && AllInTime(base, a, rs)
    ensures var ss, ts := AllSeenPlain(base, a, rs), AllSeenKept(base, b, rs);
      |ss| == |ts| == |rs| && forall i :: 0 <= i < |rs| ==> SameToHandler(ss[i], ts[i])
    decreases |rs|
  {
    if rs != [] {
      SeenAlike(base, a, b, rs[0]);
      ServedAlike(base, a, b, rs[0]);
      AllAlike(base, ServePlain(base, a, rs[0]), ServeKept(base, b, rs[0]), rs[1..]);
    }
  }

  /**
   Kept sessions give each request what the cookie alone would, for any requests in time. began is a cookie an app had
   before it had a Keeper, or none.
   */
  lemma KeptAsInTheCookie(base: Time, began: Option<Payload>, wrote: Time, life: Time, rs: seq<Request>)
    requires began.Some? ==>
               var p := began.value;
               && p.id == None && p.wrote == None && p.lifetime >= 0 && p.expires == Unix(wrote + life)
               && life == if p.lifetime > 0 then p.lifetime * SECOND else base
    requires AllInTime(base, Plain(began, wrote, life), rs)
    ensures var ss, ts := AllSeenPlain(base, Plain(began, wrote, life), rs), AllSeenKept(base, Kept(began, map[], 0), rs);
      |ss| == |ts| == |rs| && forall i :: 0 <= i < |rs| ==> SameToHandler(ss[i], ts[i])
  {
    AllAlike(base, Plain(began, wrote, life), Kept(began, map[], 0), rs);
  }

  /**
   The margin is needed: a read sees what the cookie alone would exactly when it does not come between the row's own
   time and the cookie's.
   */
  lemma SeenAlikeExactlyWhen(base: Time, a: Plain, b: Kept, r: Request)
    requires Agree(base, a, b) && r.sends && b.cookie.Some? && b.cookie.value.id.Some?
    requires a.cookie.value.values != map[] || a.cookie.value.flash != map[]
    ensures SameToHandler(SeenPlain(a, r), SeenKept(b, r)) <==>
            !(b.rows[b.cookie.value.id.value].payload.expires < Unix(r.at) <= a.cookie.value.expires)
  {
    var p, row := a.cookie.value, b.rows[b.cookie.value.id.value];
    assert RowSays(row, p, a.wrote, a.life);
    var w: Time :| WroteAt(row, p, a.life, w) && w <= a.wrote && a.wrote - Unix(w) * SECOND < REFRESH;
    if Unix(r.at) <= row.payload.expires {
      assert r.at < w + a.life + REFRESH;
      UnixGrows(w + a.life, a.wrote + a.life);
    }
  }

  /** A session whose Keeper fails to answer is left alone, whatever the handler does to it. */
  lemma LostIsLeftAlone(base: Time, b: Kept, r: Request, fails: bool)
    requires Opens(CookieOf(b.cookie, r), r.at) && b.cookie.value.id.Some?
    ensures var t := DoAll(LoadKept(b.rows, CookieOf(b.cookie, r), r.at, true), r.ops);
      SaveKept(base, b.rows, b.nextId, t, r.at, fails) == (b.rows, Untouched)
  {
    var t := LoadKept(b.rows, CookieOf(b.cookie, r), r.at, true);
    SameAfter(t, t, r.ops);
  }

  const ANN: map<string, Value> := map["user" := Text("ann")]

  /** A minute into a lifetime of two, after requests that write the cookie at 0 and at 59 seconds. */
  lemma TwoServed()
    ensures var base, row := 120 * SECOND, Row(Payload(None, ANN, map[], 120, 0, Some(0)), 120 * SECOND + REFRESH);
      var r0, r1 := Request(0, true, [Set("user", Text("ann"))]), Request(59 * SECOND, true, []);
      && ServePlain(base, ServePlain(base, FIRST_PLAIN, r0), r1) == Plain(Some(Payload(None, ANN, map[], 179, 0, None)), 59 * SECOND, base)
      && ServeKept(base, ServeKept(base, FIRST_KEPT, r0), r1) == Kept(Some(Payload(Some(0), map[], map[], 179, 0, None)), map[0 := row], 2)
  {
    var base, row := 120 * SECOND, Row(Payload(None, ANN, map[], 120, 0, Some(0)), 120 * SECOND + REFRESH);
    var r0 := Request(0, true, [Set("user", Text("ann"))]);
    var s0 := Do(NEW, Set("user", Text("ann")));
    assert s0.values == ANN && SeenPlain(FIRST_PLAIN, r0) == NEW && SeenKept(FIRST_KEPT, r0) == NEW;
    assert DoAll(NEW, r0.ops) == DoAll(s0, []) == s0;
    assert Closing(s0) == s0 && "user" in s0.values && !Empty(s0);
    assert Written(base, s0, 0) == Payload(None, ANN, map[], 120, 0, None);
    assert ServePlain(base, FIRST_PLAIN, r0) == Plain(Some(Payload(None, ANN, map[], 120, 0, None)), 0, base);
    assert ServeKept(base, FIRST_KEPT, r0) == Kept(Some(Payload(Some(0), map[], map[], 120, 0, None)), map[0 := row], 1);
  }

  /**
   The time is the cookie's, not the last request's: a request that passes the session writes no cookie, so requests a
   minute apart see different sessions once the first have passed it, with a lifetime of two minutes.
   */
  lemma PassedTimeCounts()
    ensures var base := 120 * SECOND;
      var rs := [
        Request(0, true, [Set("user", Text("ann"))]), Request(59 * SECOND, true, []),
        Request(118 * SECOND, true, [Pass]), Request(150 * SECOND, true, [])];
      && (forall i :: 1 <= i < 4 ==> rs[i].at - rs[i - 1].at <= base - REFRESH)
      && !SameToHandler(AllSeenPlain(base, FIRST_PLAIN, rs)[3], AllSeenKept(base, FIRST_KEPT, rs)[3])
  {
    var base := 120 * SECOND;
    var r0, r1 := Request(0, true, [Set("user", Text("ann"))]), Request(59 * SECOND, true, []);
    var r2, r3 := Request(118 * SECOND, true, [Pass]), Request(150 * SECOND, true, []);
    TwoServed();
    var a1, b1 := ServePlain(base, FIRST_PLAIN, r0), ServeKept(base, FIRST_KEPT, r0);
    var a2, b2 := ServePlain(base, a1, r1), ServeKept(base, b1, r1);
    assert DoAll(SeenPlain(a2, r2), [Pass]) == Do(SeenPlain(a2, r2), Pass);
    assert DoAll(SeenKept(b2, r2), [Pass]) == Do(SeenKept(b2, r2), Pass);
    assert ServePlain(base, a2, r2) == a2 && ServeKept(base, b2, r2) == b2.(nextId := 3);
    assert AllSeenPlain(base, a2, [r3]) == [SeenPlain(a2, r3)];
    assert AllSeenKept(base, b2.(nextId := 3), [r3]) == [SeenKept(b2.(nextId := 3), r3)];
    assert AllSeenPlain(base, a1, [r1, r2, r3])[2] == SeenPlain(a2, r3);
    assert AllSeenKept(base, b1, [r1, r2, r3])[2] == SeenKept(b2.(nextId := 3), r3);
    assert [r0, r1, r2, r3][1..] == [r1, r2, r3] && [r1, r2, r3][1..] == [r2, r3] && [r2, r3][1..] == [r3];
  }
}
