/**
 forms.go: what a request leaves in its session for the page after it, and what a page shows of it. Visits are
 redirects, partial reloads, visits of a stale build, which are answered with a 409, and pages rendered in full.
 */
module FlashForms {
  import opened Options
  import opened Sessions

  const ERRORS := "tug.errors"
  const FLASH := "tug.flash"
  const CLEAR_HISTORY := "tug.clear_history"
  const FRAGMENT := "tug.preserve_fragment"

  /** What a page shows besides its props, or what is left for one to show. */
  datatype Extras = Extras(flash: Data, clearHistory: bool, fragment: bool, errors: map<string, string>)

  const NOTHING := Extras(map[], false, false, map[])

  function FieldsOf(d: Data, key: string): Data {
    if key in d && d[key].Fields? then d[key].fields else map[]
  }

  predicate IsSet(d: Data, key: string) {
    key in d && d[key] == Flag
  }

  /** The validation errors in the session, those that are text. */
  function Messages(d: Data): map<string, string> {
    var fields := FieldsOf(d, ERRORS);
    map k | k in fields && fields[k].Text? :: fields[k].text
  }

  function AsText(errors: map<string, string>): Data {
    map k | k in errors :: Text(errors[k])
  }

  /** What a session's flash data says. */
  function Says(d: Data): Extras {
    Extras(FieldsOf(d, FLASH), IsSet(d, CLEAR_HISTORY), IsSet(d, FRAGMENT), Messages(d))
  }

  /** A request's context: its session, and what it flashed itself. */
  class Ctx {
    const session: Session
    var flash: Data
    var clearHistory: bool
    var fragment: bool

    constructor (session: Session)
      ensures this.session == session && flash == map[] && !clearHistory && !fragment
    {
      this.session, flash, clearHistory, fragment := session, map[], false, false;
    }

    method Flash(key: string, value: Value)
      modifies this, session
      ensures flash == old(flash)[key := value] && clearHistory == old(clearHistory) && fragment == old(fragment)
      ensures session.View() == Do(old(session.View()), Op.Flash(FLASH, Fields(flash)))
    {
      flash := flash[key := value];
      session.Flash(FLASH, Fields(flash));
    }

    method ClearHistory()
      modifies this, session
      ensures clearHistory && flash == old(flash) && fragment == old(fragment)
      ensures session.View() == Do(old(session.View()), Op.Flash(CLEAR_HISTORY, Flag))
    {
      clearHistory := true;
      session.Flash(CLEAR_HISTORY, Flag);
    }

    method PreserveFragment()
      modifies this, session
      ensures fragment && flash == old(flash) && clearHistory == old(clearHistory)
      ensures session.View() == Do(old(session.View()), Op.Flash(FRAGMENT, Flag))
    {
      fragment := true;
      session.Flash(FRAGMENT, Flag);
    }

    function Own(): Extras
      reads this
    {
      Extras(flash, clearHistory, fragment, map[])
    }

    /** What the page shows: a partial reload only what this request flashed, leaving the rest for the page it is for. */
    method PageRequest(partial: bool) returns (shows: Extras)
      modifies session
      ensures (session.View(), shows) == Render(old(session.View()), Own(), partial)
    {
      shows := NOTHING;
      if partial {
        session.Pass();
      } else {
        shows := Extras(FieldsOf(session.now, FLASH), IsSet(session.now, CLEAR_HISTORY), IsSet(session.now, FRAGMENT),
                        Messages(session.now));
      }
      session.Unflash(FLASH);
      session.Unflash(CLEAR_HISTORY);
      session.Unflash(FRAGMENT);
      assert session.next == old(session.next) - {FLASH, CLEAR_HISTORY, FRAGMENT};
      shows := Extras(shows.flash + flash, clearHistory || shows.clearHistory, fragment || shows.fragment, shows.errors);
    }

    /** Sends on what the request before flashed, with what this one did, which wins. */
    method CarryFlash()
      modifies session
      ensures session.View() == Carry(old(session.View()), flash)
    {
      var before := FieldsOf(session.now, FLASH);
      if before != map[] {
        session.Flash(FLASH, Fields(before + flash));
      }
      if IsSet(session.now, CLEAR_HISTORY) {
        session.Flash(CLEAR_HISTORY, Flag);
      }
      if IsSet(session.now, FRAGMENT) {
        session.Flash(FRAGMENT, Flag);
      }
    }

    method Redirect()
      modifies session
      ensures session.View() == Carry(old(session.View()), flash)
    {
      CarryFlash();
    }

    /** A form that does not validate goes back where it came from, with its errors in the session. */
    method AnswerInvalid(errors: map<string, string>)
      modifies session
      ensures session.View() == Carry(Do(old(session.View()), Op.Flash(ERRORS, Fields(AsText(errors)))), flash)
    {
      session.Flash(ERRORS, Fields(AsText(errors)));
      Redirect();
    }
  }

  // The same, on values.

  function Render(s: State, own: Extras, partial: bool): (State, Extras) {
    var before := if partial then NOTHING else Says(s.now);
    (s.(next := s.next - {FLASH, CLEAR_HISTORY, FRAGMENT}, passed := s.passed || partial),
     Extras(before.flash + own.flash, own.clearHistory || before.clearHistory, own.fragment || before.fragment, before.errors))
  }

  /** The session keys a request puts, and those it leaves as they are. */
  function Put(d: Data, flash: Option<Data>, clear: bool, fragment: bool): (r: Data)
    ensures FLASH in r <==> flash.Some? || FLASH in d
    ensures FLASH in r ==> r[FLASH] == if flash.Some? then Fields(flash.value) else d[FLASH]
    ensures IsSet(r, CLEAR_HISTORY) <==> clear || IsSet(d, CLEAR_HISTORY)
    ensures IsSet(r, FRAGMENT) <==> fragment || IsSet(d, FRAGMENT)
    ensures ERRORS in r <==> ERRORS in d
    ensures ERRORS in r ==> r[ERRORS] == d[ERRORS]
  {
    var d1 := if flash.Some? then d[FLASH := Fields(flash.value)] else d;
    var d2 := if clear then d1[CLEAR_HISTORY := Flag] else d1;
    if fragment then d2[FRAGMENT := Flag] else d2
  }

  function NonEmpty(d: Data): Option<Data> {
    if d == map[] then None else Some(d)
  }

  function Carry(s: State, flash: Data): State {
    var before := FieldsOf(s.now, FLASH);
    var carried := if before == map[] then None else Some(before + flash);
    s.(next := Put(s.next, carried, IsSet(s.now, CLEAR_HISTORY), IsSet(s.now, FRAGMENT)))
  }

  /** What a request has put in its session by flashing own. */
  function Flashes(s: State, own: Extras): State {
    s.(next := Put(s.next, NonEmpty(own.flash), own.clearHistory, own.fragment))
  }

  /** Writes to a session's values, or its lifetime or ID. */
  predicate Edits(ops: seq<Op>) {
    forall i :: 0 <= i < |ops| ==> ops[i].Set? || ops[i].Delete? || ops[i].SetLifetime? || ops[i].Rotate?
  }

  /** How a request answers, having edited its session and flashed what it flashes. */
  datatype Answer =
    | Redirects
    | GoesBack(errors: map<string, string>)
    | Page
    | PartialReload
    | Stale

  datatype Visit = Visit(at: Time, edits: seq<Op>, own: Extras, answer: Answer)

  /** A visit's session as its response starts, and what its page shows. A stale one never gets to its handler. */
  function Serve(s: State, v: Visit): (State, Option<Extras>) {
    if v.answer.Stale? then (Do(s, Reflash), None)
    else
      var t := Flashes(DoAll(s, v.edits), v.own);
      match v.answer
      case Redirects => (Carry(t, v.own.flash), None)
      case GoesBack(errors) => (Carry(t.(next := t.next[ERRORS := Fields(AsText(errors))]), v.own.flash), None)
      case _ => var (u, shows) := Render(t, v.own, v.answer.PartialReload?); (u, Some(shows))
  }

  function Browser(cookie: Option<Payload>, sent: Sent): Option<Payload> {
    match sent
    case Untouched => cookie
    case Dropped => None
    case Put(p) => Some(p)
  }

  function After(base: Time, cookie: Option<Payload>, v: Visit): Option<Payload> {
    Browser(cookie, SavePlain(base, Serve(LoadPlain(cookie, v.at), v).0, v.at))
  }

  function Shows(cookie: Option<Payload>, v: Visit): Option<Extras> {
    Serve(LoadPlain(cookie, v.at), v).1
  }

  // What it comes to: a box that redirects add to, and the next page in full empties.

  /** What is left for the next page in full. */
  function BoxAfter(box: Extras, v: Visit): Extras {
    match v.answer
    case Redirects =>
      Extras(box.flash + v.own.flash, box.clearHistory || v.own.clearHistory, box.fragment || v.own.fragment, map[])
    case GoesBack(errors) =>
      Extras(box.flash + v.own.flash, box.clearHistory || v.own.clearHistory, box.fragment || v.own.fragment, errors)
    case Page => NOTHING
    case _ => box
  }

  /** What a visit's page shows: a page in full what was left for it, and its own. */
  function BoxShows(box: Extras, v: Visit): Option<Extras> {
    match v.answer
    case Page =>
      Some(Extras(box.flash + v.own.flash, v.own.clearHistory || box.clearHistory, v.own.fragment || box.fragment, box.errors))
    case PartialReload => Some(Extras(v.own.flash, v.own.clearHistory, v.own.fragment, map[]))
    case _ => None
  }

  function Left(cookie: Option<Payload>): Extras {
    if cookie.Some? then Says(cookie.value.flash) else NOTHING
  }

  /** The visit's cookie has not run out, and its flash is what requests flash. */
  ghost predicate Usable(cookie: Option<Payload>, v: Visit) {
    (cookie.Some? ==> Opens(cookie, v.at)) && Edits(v.edits) && v.own.errors == map[] &&
    (v.answer.GoesBack? ==> v.answer.errors != map[])
  }

  /** Nothing of a session but its values, its lifetime and its ID differs. */
  predicate SameFlash(s: State, t: State) {
    t.now == s.now && t.next == s.next && t.had == s.had && t.passed == s.passed && t.lost == s.lost
  }

  lemma EditLeavesFlash(s: State, op: Op)
    requires op.Set? || op.Delete? || op.SetLifetime? || op.Rotate?
    ensures SameFlash(s, Do(s, op))
  {
  }

  lemma {:induction false} EditsLeaveFlash(s: State, ops: seq<Op>)
    requires Edits(ops)
    ensures SameFlash(s, DoAll(s, ops))
    decreases |ops|
  {
    if ops != [] {
      EditLeavesFlash(s, ops[0]);
      EditsLeaveFlash(Do(s, ops[0]), ops[1..]);
    }
  }

  lemma TextsAreMessages(d: Data, errors: map<string, string>)
    requires ERRORS in d && d[ERRORS] == Fields(AsText(errors))
    ensures Messages(d) == errors
  {
  }

  /** What a response that was not passed leaves is what its session has for the next. */
  lemma LeavesNext(base: Time, cookie: Option<Payload>, s: State, at: Time)
    requires !s.passed && !s.lost && s.had == cookie.Some?
    ensures Left(Browser(cookie, SavePlain(base, s, at))) == Says(s.next)
  {
  }

  lemma SaysPlain(d: Data)
    requires FLASH !in d && CLEAR_HISTORY !in d && FRAGMENT !in d && ERRORS !in d
    ensures Says(d) == NOTHING
  {
  }

  /** A redirect sends on what was left before, and its own, beside errors. */
  lemma CarryAdds(t: State, own: Extras, errors: Data)
    requires t.next == map[] && errors.Keys <= {ERRORS}
    ensures var f := Flashes(t, own);
      var u := Carry(f.(next := f.next + errors), own.flash);
      && u == t.(next := u.next)
      && Says(u.next) == Extras(FieldsOf(t.now, FLASH) + own.flash, IsSet(t.now, CLEAR_HISTORY) || own.clearHistory,
                                IsSet(t.now, FRAGMENT) || own.fragment, Messages(errors))
  {
    var f := Flashes(t, own);
    var u := Carry(f.(next := f.next + errors), own.flash);
    assert FieldsOf(u.next, FLASH) == FieldsOf(t.now, FLASH) + own.flash;
    assert FieldsOf(u.next, ERRORS) == FieldsOf(errors, ERRORS);
  }

  /** A passed response leaves what its request came with. */
  lemma PassedLeaves(base: Time, cookie: Option<Payload>, s: State, at: Time)
    requires s.passed && !s.lost && s.had == cookie.Some? && s.next == map[] && Says(s.now) == Left(cookie)
    ensures Left(Browser(cookie, SavePlain(base, s, at))) == Left(cookie)
  {
    assert Closing(s).next == s.now;
    if s.now == map[] {
      SaysPlain(s.now);
    }
  }

  /** A visit's session once its handler has edited it. */
  lemma Edited(cookie: Option<Payload>, v: Visit) returns (t: State)
    requires Usable(cookie, v)
    ensures t == DoAll(LoadPlain(cookie, v.at), v.edits)
    ensures t.next == map[] && Says(t.now) == Left(cookie) && t.had == cookie.Some? && !t.passed && !t.lost
    ensures t.now == LoadPlain(cookie, v.at).now
  {
    SaysPlain(map[]);
    var s := LoadPlain(cookie, v.at);
    EditsLeaveFlash(s, v.edits);
    t := DoAll(s, v.edits);
  }

  lemma PageVisit(base: Time, cookie: Option<Payload>, v: Visit)
    requires Usable(cookie, v) && (v.answer.Page? || v.answer.PartialReload?)
    ensures Shows(cookie, v) == BoxShows(Left(cookie), v)
    ensures Left(After(base, cookie, v)) == BoxAfter(Left(cookie), v)
  {
    var t := Edited(cookie, v);
    var u := Serve(LoadPlain(cookie, v.at), v).0;
    assert u.next == map[] && map[] + v.own.flash == v.own.flash;
    if v.answer.Page? {
      SaysPlain(u.next);
      LeavesNext(base, cookie, u, v.at);
    } else {
      PassedLeaves(base, cookie, u, v.at);
    }
  }

  lemma RedirectVisit(base: Time, cookie: Option<Payload>, v: Visit)
    requires Usable(cookie, v) && (v.answer.Redirects? || v.answer.GoesBack?)
    ensures Left(After(base, cookie, v)) == BoxAfter(Left(cookie), v)
  {
    var t := Edited(cookie, v);
    var f := Flashes(t, v.own);
    var errors: Data := if v.answer.GoesBack? then map[ERRORS := Fields(AsText(v.answer.errors))] else map[];
    CarryAdds(t, v.own, errors);
    if v.answer.GoesBack? {
      TextsAreMessages(errors, v.answer.errors);
      assert f.next + errors == f.next[ERRORS := errors[ERRORS]];
    } else {
      assert f.next + errors == f.next;
    }
    LeavesNext(base, cookie, Serve(LoadPlain(cookie, v.at), v).0, v.at);
  }

  lemma StaleVisit(base: Time, cookie: Option<Payload>, v: Visit)
    requires Usable(cookie, v) && v.answer.Stale?
    ensures Left(After(base, cookie, v)) == BoxAfter(Left(cookie), v)
  {
    var t := Edited(cookie, v);
    var u := Serve(LoadPlain(cookie, v.at), v).0;
    assert u.next == t.now;
    LeavesNext(base, cookie, u, v.at);
  }

  /** One visit does to what is left, and shows, what the box says. */
  lemma VisitIsTheBoxs(base: Time, cookie: Option<Payload>, v: Visit)
    requires Usable(cookie, v)
    ensures Shows(cookie, v) == BoxShows(Left(cookie), v)
    ensures Left(After(base, cookie, v)) == BoxAfter(Left(cookie), v)
  {
    match v.answer
    case Page => PageVisit(base, cookie, v);
    case PartialReload => PageVisit(base, cookie, v);
    case Stale => StaleVisit(base, cookie, v);
    case _ => RedirectVisit(base, cookie, v);
  }

  // Any sequence of visits.

  ghost predicate AllUsable(base: Time, cookie: Option<Payload>, vs: seq<Visit>)
    decreases |vs|
  {
    vs != [] ==> Usable(cookie, vs[0]) && AllUsable(base, After(base, cookie, vs[0]), vs[1..])
  }

  function AllShown(base: Time, cookie: Option<Payload>, vs: seq<Visit>): (shown: seq<Option<Extras>>)
    ensures |shown| == |vs|
    decreases |vs|
  {
    if vs == [] then [] else [Shows(cookie, vs[0])] + AllShown(base, After(base, cookie, vs[0]), vs[1..])
  }

  function AllBoxShows(box: Extras, vs: seq<Visit>): (shown: seq<Option<Extras>>)
    ensures |shown| == |vs|
    decreases |vs|
  {
    if vs == [] then [] else [BoxShows(box, vs[0])] + AllBoxShows(BoxAfter(box, vs[0]), vs[1..])
  }

  /** Over any visits, the pages show what a box that redirects fill and pages in full empty would show. */
  lemma {:induction false} PagesShowTheBox(base: Time, cookie: Option<Payload>, vs: seq<Visit>)
    requires AllUsable(base, cookie, vs)
    ensures AllShown(base, cookie, vs) == AllBoxShows(Left(cookie), vs)
    decreases |vs|
  {
    if vs != [] {
      VisitIsTheBoxs(base, cookie, vs[0]);
      PagesShowTheBox(base, After(base, cookie, vs[0]), vs[1..]);
    }
  }

  /** A visit that neither renders a page in full nor flashes the key on its way to one. */
  predicate PassesOn(v: Visit, key: string) {
    !v.answer.Page? && (v.answer.Redirects? || v.answer.GoesBack? ==> key !in v.own.flash)
  }

  /** Until a page in full comes, what was left under a key stays, and shows nowhere else. */
  lemma {:induction false} WaitsForThePage(box: Extras, key: string, vs: seq<Visit>, i: nat)
    requires key in box.flash && i < |vs| && forall k :: 0 <= k < i ==> PassesOn(vs[k], key)
    requires vs[i].answer.Page? && key !in vs[i].own.flash
    ensures var shown := AllBoxShows(box, vs);
      && shown[i].Some? && key in shown[i].value.flash && shown[i].value.flash[key] == box.flash[key]
      && forall k :: 0 <= k < i && shown[k].Some? && key in shown[k].value.flash ==> key in vs[k].own.flash
    decreases |vs|
  {
    if i > 0 {
      WaitsForThePage(BoxAfter(box, vs[0]), key, vs[1..], i - 1);
      assert forall k :: 1 <= k <= i ==> AllBoxShows(box, vs)[k] == AllBoxShows(BoxAfter(box, vs[0]), vs[1..])[k - 1];
    }
  }

  /** What is not left shows on no page, but the page of a visit that flashes it itself, until a redirect flashes it. */
  lemma {:induction false} NotShownAgain(box: Extras, key: string, vs: seq<Visit>)
    requires key !in box.flash && forall k :: 0 <= k < |vs| ==> vs[k].answer.Page? || PassesOn(vs[k], key)
    ensures forall k :: 0 <= k < |vs| && AllBoxShows(box, vs)[k].Some? && key in AllBoxShows(box, vs)[k].value.flash ==>
              key in vs[k].own.flash
    decreases |vs|
  {
    if vs != [] {
      NotShownAgain(BoxAfter(box, vs[0]), key, vs[1..]);
      assert forall k :: 1 <= k < |vs| ==> AllBoxShows(box, vs)[k] == AllBoxShows(BoxAfter(box, vs[0]), vs[1..])[k - 1];
    }
  }

  /**
   What a request that redirects flashes is shown by exactly one page: the next rendered in full, over any redirects,
   partial reloads and stale visits in between, and never after it, while no visit flashes the key again.
   */
  lemma FlashedOnceShownOnce(base: Time, cookie: Option<Payload>, vs: seq<Visit>, key: string, i: nat)
    requires AllUsable(base, cookie, vs) && 0 < i < |vs|
    requires vs[0].answer.Redirects? && key in vs[0].own.flash
    requires vs[i].answer.Page? && forall k :: 1 <= k < i ==> !vs[k].answer.Page?
    requires forall k :: 1 <= k < |vs| ==> key !in vs[k].own.flash
    ensures var shown := AllShown(base, cookie, vs);
      && shown[i].Some? && key in shown[i].value.flash && shown[i].value.flash[key] == vs[0].own.flash[key]
      && forall k :: 0 <= k < |vs| && shown[k].Some? && key in shown[k].value.flash ==> k == i
  {
    PagesShowTheBox(base, cookie, vs);
    ShownOnceByTheBox(Left(cookie), vs, key, i);
  }

  lemma ShownOnceByTheBox(box: Extras, vs: seq<Visit>, key: string, i: nat)
    requires 0 < i < |vs| && vs[0].answer.Redirects? && key in vs[0].own.flash
    requires vs[i].answer.Page? && forall k :: 1 <= k < i ==> !vs[k].answer.Page?
    requires forall k :: 1 <= k < |vs| ==> key !in vs[k].own.flash
    ensures var shown := AllBoxShows(box, vs);
      && shown[i].Some? && key in shown[i].value.flash && shown[i].value.flash[key] == vs[0].own.flash[key]
      && forall k :: 0 <= k < |vs| && shown[k].Some? && key in shown[k].value.flash ==> k == i
  {
    var left, rest := BoxAfter(box, vs[0]), vs[1..];
    WaitsForThePage(left, key, rest, i - 1);
    var after := BoxRun(left, rest, i);
    assert forall k :: 1 <= k < |vs| ==> AllBoxShows(box, vs)[k] == AllBoxShows(left, rest)[k - 1];
    NotShownAgain(after, key, rest[i..]);
  }

  /** The box after the first n visits, the last of which is a page in full. */
  lemma {:induction false} BoxRun(box: Extras, vs: seq<Visit>, n: nat) returns (after: Extras)
    requires 0 < n <= |vs| && vs[n - 1].answer.Page?
    ensures after == NOTHING
    ensures forall k :: n <= k < |vs| ==> AllBoxShows(box, vs)[k] == AllBoxShows(after, vs[n..])[k - n]
    decreases n
  {
    if n == 1 {
      after := NOTHING;
    } else {
      after := BoxRun(BoxAfter(box, vs[0]), vs[1..], n - 1);
      assert vs[1..][n - 1..] == vs[n..];
    }
  }
}
