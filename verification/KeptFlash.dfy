/**
 forms.go and session/session.go: flash data of a session that a Keeper keeps. Each visit does to the session what some
 requests of a session do, so that its pages show what they would of a session in the cookie alone.
 */
module KeptFlash {
  import opened Options
  import opened Sessions
  import KeptSessions
  import FlashForms

  function FlashIf(flashes: bool, key: string, value: Value): seq<Op> {
    if flashes then [Op.Flash(key, value)] else []
  }

  /** Three flashes, each of which may not be. */
  function Three(flash: Option<Data>, clear: bool, fragment: bool): seq<Op> {
    FlashIf(flash.Some?, FlashForms.FLASH, Fields(if flash.Some? then flash.value else map[]))
    + (FlashIf(clear, FlashForms.CLEAR_HISTORY, Flag) + FlashIf(fragment, FlashForms.FRAGMENT, Flag))
  }

  /** What flashing own does to a session. */
  function FlashOps(own: FlashForms.Extras): seq<Op> {
    Three(FlashForms.NonEmpty(own.flash), own.clearHistory, own.fragment)
  }

  /** What a redirect sends on, as what it does to the session. */
  function CarryOps(now: Data, flash: Data): seq<Op> {
    var before := FlashForms.FieldsOf(now, FlashForms.FLASH);
    Three(if before == map[] then None else Some(before + flash),
          FlashForms.IsSet(now, FlashForms.CLEAR_HISTORY), FlashForms.IsSet(now, FlashForms.FRAGMENT))
  }

  function RenderOps(partial: bool): seq<Op> {
    (if partial then [Pass] else [])
    + [Unflash(FlashForms.FLASH), Unflash(FlashForms.CLEAR_HISTORY), Unflash(FlashForms.FRAGMENT)]
  }

  function AnswerOps(now: Data, v: FlashForms.Visit): seq<Op> {
    match v.answer
    case Redirects => CarryOps(now, v.own.flash)
    case GoesBack(errors) => [Op.Flash(FlashForms.ERRORS, Fields(FlashForms.AsText(errors)))] + CarryOps(now, v.own.flash)
    case _ => RenderOps(v.answer.PartialReload?)
  }

  /** All that a visit does to its session, which was left now. */
  function VisitOps(now: Data, v: FlashForms.Visit): seq<Op> {
    if v.answer.Stale? then [Reflash] else v.edits + (FlashOps(v.own) + AnswerOps(now, v))
  }

  lemma {:induction false} DoBoth(s: State, a: seq<Op>, b: seq<Op>)
    ensures DoAll(s, a + b) == DoAll(DoAll(s, a), b)
    decreases |a|
  {
    if a == [] {
      assert a + b == b;
    } else {
      assert (a + b)[1..] == a[1..] + b;
      DoBoth(Do(s, a[0]), a[1..], b);
    }
  }

  lemma DoOne(s: State, op: Op)
    ensures DoAll(s, [op]) == Do(s, op)
  {
    assert DoAll(Do(s, op), []) == Do(s, op);
  }

  lemma FlashIfIs(s: State, flashes: bool, key: string, value: Value)
    ensures DoAll(s, FlashIf(flashes, key, value)) == s.(next := if flashes then s.next[key := value] else s.next)
  {
    if flashes {
      DoOne(s, Op.Flash(key, value));
    }
  }

  lemma ThreeFlashes(s: State, flash: Option<Data>, clear: bool, fragment: bool)
    ensures DoAll(s, Three(flash, clear, fragment)) == s.(next := FlashForms.Put(s.next, flash, clear, fragment))
  {
    var value := Fields(if flash.Some? then flash.value else map[]);
    var a := FlashIf(flash.Some?, FlashForms.FLASH, value);
    var b, c := FlashIf(clear, FlashForms.CLEAR_HISTORY, Flag), FlashIf(fragment, FlashForms.FRAGMENT, Flag);
    DoBoth(s, a, b + c);
    FlashIfIs(s, flash.Some?, FlashForms.FLASH, value);
    var s1 := DoAll(s, a);
    DoBoth(s1, b, c);
    FlashIfIs(s1, clear, FlashForms.CLEAR_HISTORY, Flag);
    FlashIfIs(DoAll(s1, b), fragment, FlashForms.FRAGMENT, Flag);
  }

  lemma FlashesAreOps(s: State, own: FlashForms.Extras)
    ensures DoAll(s, FlashOps(own)) == FlashForms.Flashes(s, own)
  {
    ThreeFlashes(s, FlashForms.NonEmpty(own.flash), own.clearHistory, own.fragment);
  }

  lemma CarryIsOps(s: State, flash: Data)
    ensures DoAll(s, CarryOps(s.now, flash)) == FlashForms.Carry(s, flash)
  {
    var before := FlashForms.FieldsOf(s.now, FlashForms.FLASH);
    ThreeFlashes(s, if before == map[] then None else Some(before + flash),
                 FlashForms.IsSet(s.now, FlashForms.CLEAR_HISTORY), FlashForms.IsSet(s.now, FlashForms.FRAGMENT));
  }

  lemma RenderIsOps(s: State, own: FlashForms.Extras, partial: bool)
    ensures DoAll(s, RenderOps(partial)) == FlashForms.Render(s, own, partial).0
  {
    var passes := if partial then [Pass] else [];
    var ops := [Unflash(FlashForms.FLASH), Unflash(FlashForms.CLEAR_HISTORY), Unflash(FlashForms.FRAGMENT)];
    DoBoth(s, passes, ops);
    var t := DoAll(s, passes);
    if partial {
      DoOne(s, Pass);
    }
    var t1 := Do(t, ops[0]);
    var t2 := Do(t1, ops[1]);
    assert ops[1..] == [ops[1], ops[2]] && ops[1..][1..] == [ops[2]];
    DoOne(t2, ops[2]);
    assert t.next - {FlashForms.FLASH} - {FlashForms.CLEAR_HISTORY} - {FlashForms.FRAGMENT} ==
           t.next - {FlashForms.FLASH, FlashForms.CLEAR_HISTORY, FlashForms.FRAGMENT};
  }

  lemma AnswerIsOps(t: State, v: FlashForms.Visit)
    requires !v.answer.Stale?
    ensures DoAll(t, AnswerOps(t.now, v)) ==
            match v.answer
            case Redirects => FlashForms.Carry(t, v.own.flash)
            case GoesBack(errors) =>
              FlashForms.Carry(t.(next := t.next[FlashForms.ERRORS := Fields(FlashForms.AsText(errors))]), v.own.flash)
            case _ => FlashForms.Render(t, v.own, v.answer.PartialReload?).0
  {
    match v.answer
    case Redirects => CarryIsOps(t, v.own.flash);
    case GoesBack(errors) =>
      var errs := Op.Flash(FlashForms.ERRORS, Fields(FlashForms.AsText(errors)));
      DoBoth(t, [errs], CarryOps(t.now, v.own.flash));
      DoOne(t, errs);
      CarryIsOps(Do(t, errs), v.own.flash);
    case _ => RenderIsOps(t, v.own, v.answer.PartialReload?);
  }

  /** A visit is a request of its session. */
  lemma VisitIsOps(s: State, v: FlashForms.Visit)
    requires FlashForms.Edits(v.edits)
    ensures DoAll(s, VisitOps(s.now, v)) == FlashForms.Serve(s, v).0
  {
    if v.answer.Stale? {
      DoOne(s, Reflash);
    } else {
      FlashForms.EditsLeaveFlash(s, v.edits);
      var e := DoAll(s, v.edits);
      var t := FlashForms.Flashes(e, v.own);
      DoBoth(s, v.edits, FlashOps(v.own) + AnswerOps(s.now, v));
      DoBoth(e, FlashOps(v.own), AnswerOps(s.now, v));
      FlashesAreOps(e, v.own);
      assert t.now == s.now;
      AnswerIsOps(t, v);
    }
  }

  // A run of visits, of a session that a Keeper keeps.

  function RequestOf(s: State, v: FlashForms.Visit): KeptSessions.Request {
    KeptSessions.Request(v.at, true, VisitOps(s.now, v))
  }

  function SeenKept(b: KeptSessions.Kept, at: Time): State {
    LoadKept(b.rows, b.cookie, at, false)
  }

  function ShownKept(b: KeptSessions.Kept, v: FlashForms.Visit): Option<FlashForms.Extras> {
    FlashForms.Serve(SeenKept(b, v.at), v).1
  }

  function ServedKept(base: Time, b: KeptSessions.Kept, v: FlashForms.Visit): KeptSessions.Kept {
    KeptSessions.ServeKept(base, b, RequestOf(SeenKept(b, v.at), v))
  }

  function AllShownKept(base: Time, b: KeptSessions.Kept, vs: seq<FlashForms.Visit>): (shown: seq<Option<FlashForms.Extras>>)
    ensures |shown| == |vs|
    decreases |vs|
  {
    if vs == [] then [] else [ShownKept(b, vs[0])] + AllShownKept(base, ServedKept(base, b, vs[0]), vs[1..])
  }

  function ServedPlain(base: Time, a: KeptSessions.Plain, v: FlashForms.Visit): KeptSessions.Plain {
    KeptSessions.ServePlain(base, a, RequestOf(LoadPlain(a.cookie, v.at), v))
  }

  /** Each visit is usable, and in time for the cookie that the one before left. */
  ghost predicate AllInTime(base: Time, a: KeptSessions.Plain, vs: seq<FlashForms.Visit>)
    decreases |vs|
  {
    vs != [] ==>
      && FlashForms.Usable(a.cookie, vs[0]) && KeptSessions.InTime(a, RequestOf(LoadPlain(a.cookie, vs[0].at), vs[0]))
      && AllInTime(base, ServedPlain(base, a, vs[0]), vs[1..])
  }

  lemma PlainIsVisited(base: Time, a: KeptSessions.Plain, v: FlashForms.Visit)
    requires FlashForms.Edits(v.edits)
    ensures ServedPlain(base, a, v).cookie == FlashForms.After(base, a.cookie, v)
  {
    VisitIsOps(LoadPlain(a.cookie, v.at), v);
  }

  lemma ShowsAlike(s: State, t: State, v: FlashForms.Visit)
    requires KeptSessions.SameToHandler(s, t) && FlashForms.Edits(v.edits)
    ensures FlashForms.Serve(s, v).1 == FlashForms.Serve(t, v).1
  {
    FlashForms.EditsLeaveFlash(s, v.edits);
    FlashForms.EditsLeaveFlash(t, v.edits);
  }

  /** Over any visits in time, a kept session's pages show what those of one in the cookie alone show. */
  lemma {:induction false} KeptPagesAlike(base: Time, a: KeptSessions.Plain, b: KeptSessions.Kept, vs: seq<FlashForms.Visit>)
    requires KeptSessions.Agree(base, a, b) && AllInTime(base, a, vs)
    ensures AllShownKept(base, b, vs) == FlashForms.AllShown(base, a.cookie, vs) && FlashForms.AllUsable(base, a.cookie, vs)
    decreases |vs|
  {
    if vs != [] {
      var v := vs[0];
      var r := RequestOf(LoadPlain(a.cookie, v.at), v);
      KeptSessions.SeenAlike(base, a, b, r);
      ShowsAlike(LoadPlain(a.cookie, v.at), SeenKept(b, v.at), v);
      assert r == RequestOf(SeenKept(b, v.at), v);
      KeptSessions.ServedAlike(base, a, b, r);
      PlainIsVisited(base, a, v);
      KeptPagesAlike(base, ServedPlain(base, a, v), ServedKept(base, b, v), vs[1..]);
    }
  }

  /** So what a redirecting request flashes in a kept session is shown by exactly one page: the next in full. */
  lemma KeptFlashShownOnce(base: Time, a: KeptSessions.Plain, b: KeptSessions.Kept, vs: seq<FlashForms.Visit>, key: string, i: nat)
    requires KeptSessions.Agree(base, a, b) && AllInTime(base, a, vs) && 0 < i < |vs|
    requires vs[0].answer.Redirects? && key in vs[0].own.flash
    requires vs[i].answer.Page? && forall k :: 1 <= k < i ==> !vs[k].answer.Page?
    requires forall k :: 1 <= k < |vs| ==> key !in vs[k].own.flash
    ensures var shown := AllShownKept(base, b, vs);
      && shown[i].Some? && key in shown[i].value.flash && shown[i].value.flash[key] == vs[0].own.flash[key]
      && forall k :: 0 <= k < |vs| && shown[k].Some? && key in shown[k].value.flash ==> k == i
  {
    KeptPagesAlike(base, a, b, vs);
    FlashForms.FlashedOnceShownOnce(base, a.cookie, vs, key, i);
  }
}
