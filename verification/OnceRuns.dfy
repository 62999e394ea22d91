/**
 inertia/props.go and tugtest/tugtest.go: a client and a server over any run of visits and partial reloads, of pages
 whose once props, by their keys, do not change.
 */
module OnceRuns {
  import opened Options
  import opened PropPaths
  import opened PropTree
  import opened PageMerge
  import opened OnceProps
  import opened OncePages
  import opened OnceLabels
  import PartialReloads

  // What an app promises of its pages.

  predicate InCatalog(node: Node, key: string, catalog: Fields)
    requires node.Prop?
  {
    key in catalog && node.made == Made(Data(catalog[key]))
  }

  /** Once props are worth what the catalog says, wherever they are, and a key names one place of a page. */
  ghost predicate WellMade(v: Value, catalog: Fields) {
    && Placed(v, [])
    && (forall ks :: OnceAt(v, ks, true) ==> InCatalog(NodeIn(v, ks, true).value, KeyAt(v, [], ks, true), catalog))
    && (forall ks, other :: OnceAt(v, ks, false) && OnceAt(v, other, false) && KeyAt(v, [], ks, false) == KeyAt(v, [], other, false)
          ==> ks == other)
  }

  ghost predicate Current(held: Held, catalog: Fields) {
    forall key :: key in held ==> key in catalog && held[key].value == catalog[key]
  }

  lemma Visited(v: Value, catalog: Fields, ks: Keys)
    requires WellMade(v, catalog) && OnceAt(v, ks, false)
    ensures OnceAt(v, ks, true) && InCatalog(NodeIn(v, ks, false).value, KeyAt(v, [], ks, false), catalog)
  {
    VisitedIsThere(v, ks);
  }

  lemma WellMadeNestsNothing(v: Value, catalog: Fields)
    requires WellMade(v, catalog)
    ensures NothingNested(v, [])
  {
    forall ks | OnceAt(v, ks, false)
      ensures Inner(NodeIn(v, ks, false).value, true).None?
    {
      Visited(v, catalog, ks);
    }
  }

  // What the client learns.

  /** A once prop that goes out, goes out as its value. */
  lemma {:induction false} SentAsItIs(rq: Request, v: Value, pre: Keys, ks: Keys, whole: bool, out: Fields, json: Json)
    requires Placed(v, pre) && OnceAt(v, ks, true) && NodeIn(v, ks, true).value.made == Made(Data(json))
    requires LevelOut(rq, v, |v.entries|, Join(pre), whole) == Some(out)
    ensures AtKeys(out, ks).Some? ==> AtKeys(out, ks) == Some(json)
    decreases |ks|
  {
    var i := PartialReloads.IndexOf(v, ks[0], |v.entries|).value;
    var e := v.entries[i];
    PlacedBelow(v, pre, i);
    SentUnderKey(rq, v, |v.entries|, Join(pre), whole, i);
    if |ks| > 1 && ks[0] in out {
      assert ks == [e.key] + ks[1..];
      OnceBelow(v, pre, i, ks[1..], true);
      SentAsItIs(rq, Inner(e.node, true).value, pre + [e.key], ks[1..], whole || e.node.Prop?, out[e.key].fields, json);
    }
  }

  /** What a client holds stays current, whatever the answer. */
  lemma LearnsWhatIsCurrent(rq: Request, v: Value, catalog: Fields, got: Fields, held: Held, after: Held)
    requires WellMade(v, catalog) && Current(held, catalog) && LevelOut(rq, v, |v.entries|, "", false) == Some(got)
    requires Learned(held, got, ValueLabels(rq, v, "", false, NONE).once, after)
    ensures Current(after, catalog)
  {
    var once := ValueLabels(rq, v, "", false, NONE).once;
    ValueSound(rq, v, [], false, NONE);
    forall key | key in after
      ensures key in catalog && after[key].value == catalog[key]
    {
      assert Lookup(after, key) == Latest(held, got, once, key);
      if CameWith(got, once, key) {
        var ks :| NamedAt(rq, v, [], ks, key, once[key]);
        assert [] + ks == ks;
        KeysAreNeat(v, [], ks, true);
        PathsAreKeys(got, ks, Null);
        SentAsItIs(rq, v, [], ks, false, got, catalog[key]);
      } else {
        assert Lookup(held, key) == Some(after[key]);
      }
    }
  }

  lemma {:induction false} KeysAreNeat(v: Value, pre: Keys, ks: Keys, all: bool)
    requires Placed(v, pre) && ks != [] && NodeIn(v, ks, all).Some?
    ensures DotFree(ks) && (pre == [] ==> Join(ks) != "")
    decreases |ks|
  {
    var i := PartialReloads.IndexOf(v, ks[0], |v.entries|).value;
    PlacedBelow(v, pre, i);
    assert (pre + [ks[0]])[|pre|] == ks[0];
    if |ks| > 1 {
      KeysAreNeat(Inner(v.entries[i].node, all).value, pre + [ks[0]], ks[1..], all);
      assert forall k :: 1 <= k < |ks| ==> ks[k] == ks[1..][k - 1];
    }
  }

  // What the client shows.

  function LiveOf(order: seq<string>, held: Held, now: int): set<string> {
    set i | 0 <= i < |order| && Live(held, order[i], now) :: order[i]
  }

  function Showing(w: View, order: seq<string>, held: Held, now: int): View {
    w.(shown := w.shown + LiveOf(order, held, now))
  }

  ghost predicate Names(v: Value, once: Onces)
    requires v.Branch?
  {
    forall key :: key in once ==> exists ks :: IsNamed(v, ks, key, once[key])
  }

  ghost predicate IsNamed(v: Value, ks: Keys, key: string, o: Once)
    requires v.Branch?
  {
    OnceAt(v, ks, false) && KeyAt(v, [], ks, false) == key && o.path == Join(ks)
  }

  /** The once props a client puts back, in any order, make the page with those it holds shown. */
  lemma {:induction false} RestoredIsPage(v: Value, catalog: Fields, w: View, out: Fields, once: Onces, held: Held, now: int,
                                          order: seq<string>)
    requires WellMade(v, catalog) && Current(held, catalog) && Names(v, once)
    requires LevelPage(w, v, |v.entries|, "") == Some(out) && forall i :: 0 <= i < |order| ==> order[i] in once
    ensures LevelPage(Showing(w, order, held, now), v, |v.entries|, "") == Some(Restored(out, order, once, held, now))
    decreases |order|
  {
    if order == [] {
      assert Showing(w, order, held, now) == w;
    } else {
      var front, key := order[..|order| - 1], order[|order| - 1];
      RestoredIsPage(v, catalog, w, out, once, held, now, front);
      ShowingOneMore(w, order, held, now);
      if Live(held, key, now) {
        OneRestored(v, catalog, Showing(w, front, held, now), Restored(out, front, once, held, now), once, held, now, key);
      }
    }
  }

  lemma LiveOfOneMore(front: seq<string>, key: string, held: Held, now: int)
    ensures LiveOf(front + [key], held, now) == LiveOf(front, held, now) + if Live(held, key, now) then {key} else {}
  {
    var order := front + [key];
    assert forall i :: 0 <= i < |front| ==> order[i] == front[i];
    forall k
      ensures k in LiveOf(order, held, now) <==> k in LiveOf(front, held, now) || (Live(held, key, now) && k == key)
    {
      if k in LiveOf(front, held, now) {
        var i :| 0 <= i < |front| && Live(held, front[i], now) && front[i] == k;
        assert order[i] == k;
      }
      assert order[|front|] == key;
    }
  }

  lemma ShowingOneMore(w: View, order: seq<string>, held: Held, now: int)
    requires order != []
    ensures var before, key := Showing(w, order[..|order| - 1], held, now), order[|order| - 1];
      Showing(w, order, held, now) == if Live(held, key, now) then WithShown(before, key) else before
  {
    var front, key := order[..|order| - 1], order[|order| - 1];
    LiveOfOneMore(front, key, held, now);
    assert order == front + [key];
  }

  lemma OneRestored(v: Value, catalog: Fields, w: View, out: Fields, once: Onces, held: Held, now: int, key: string)
    requires WellMade(v, catalog) && Current(held, catalog) && Names(v, once) && key in once && Live(held, key, now)
    requires LevelPage(w, v, |v.entries|, "") == Some(out)
    ensures LevelPage(WithShown(w, key), v, |v.entries|, "") == Some(RestoredOne(out, key, once, held, now))
  {
    var ks :| IsNamed(v, ks, key, once[key]);
    assert [] + ks == ks;
    KeysAreNeat(v, [], ks, false);
    PathsAreKeys(out, ks, held[key].value);
    Visited(v, catalog, ks);
    WellMadeNestsNothing(v, catalog);
    PutBackShows(w, v, [], ks, key, out, catalog[key]);
  }

  // A run.

  datatype State = State(props: Json, page: string, once: Held)

  /**
   An answer to a client: of a page's tree, to a request of it. The client says it is a partial reload when it is of the
   page it is on; the server answers it as one when the page it renders is the same.
   */
  datatype Event = Event(v: Value, component: string, rq: Request, partial: bool, asked: int, came: int)

  /** What the client holds as it asks; only a visit of Inertia's client says so. */
  function Holding(s: State, e: Event): Held {
    if e.rq.inertia then Unexpired(s.once, e.asked) else s.once
  }

  predicate Fair(s: State, e: Event) {
    && e.v.Branch? && SetOf(e.rq.loaded) == (if e.rq.inertia then Holding(s, e).Keys else {})
    && (e.rq.partial ==> e.partial) && (e.partial && !e.rq.partial ==> e.component != s.page)
    && ValueOut(e.rq, e.v, "", false).Sends?
  }

  function Got(e: Event): Fields
    requires e.v.Branch? && ValueOut(e.rq, e.v, "", false).Sends?
  {
    ValueOut(e.rq, e.v, "", false).json.fields
  }

  function Labeling(e: Event): Labels {
    ValueLabels(e.rq, e.v, "", false, NONE)
  }

  ghost predicate Step(s: State, e: Event, t: State) {
    Fair(s, e) &&
    var merged := Merged(if e.component == s.page then s.props else Null, Object(Got(e)), Labeling(e), e.partial);
    && t.page == e.component && merged.Object?
    && Learned(Holding(s, e), Got(e), Labeling(e).once, t.once)
    && exists order :: Lists(order, Labeling(e).once.Keys) &&
                       t.props == Object(Restored(merged.fields, order, Labeling(e).once, t.once, e.came))
  }

  /** The client does what a step says. */
  method Answered(c: Client, e: Event)
    requires Fair(State(c.props, c.page, c.once), e)
    modifies c
    ensures Step(old(State(c.props, c.page, c.once)), e, State(c.props, c.page, c.once))
  {
    if e.rq.inertia {
      var keys := c.Holding(e.asked);
    }
    var server := new Resolver(e.rq);
    var out := server.Level(e.v, "", false);
    var labels := Labels(server.deferred, server.rescued, server.merge, server.prepends, server.deepMerge, server.matchOn, server.once);
    assert labels == Labeling(e);
    ghost var order;
    order := c.Hold(e.component, out.value, labels, e.partial, e.came);
  }

  /** The keys of the once props that a client holds, and that have not expired. */
  function LiveSet(held: Held, now: int): set<string> {
    set key | key in held && (held[key].expires.Some? ==> now < held[key].expires.value)
  }

  /**
   When a page is that of a client holding nothing: no once prop that the first load leaves out is held, and none that
   the client said it has has expired since it asked.
   */
  ghost predicate Settled(e: Event, live: set<string>)
    requires e.v.Branch?
  {
    forall ks :: OnceAt(e.v, ks, false) ==> SettledAt(e, NodeIn(e.v, ks, false).value.b, KeyAt(e.v, [], ks, false), live)
  }

  predicate SettledAt(e: Event, b: Behavior, key: string, live: set<string>) {
    if b.firstLoad != Sent then key !in live
    else e.rq.inertia && !b.isFresh && key in e.rq.loaded ==> key in live
  }

  /** What a client shows after a full visit: the page, with the once props it holds where the server left them out. */
  ghost predicate Shows(e: Event, t: State) {
    && e.v.Branch?
    && Page(View(e.rq.inertia, SetOf(e.rq.loaded), LiveSet(t.once, e.came)), e.v, "") == Sends(t.props)
    && (ValueOut(e.rq.(loaded := []), e.v, "", false) == Sends(t.props) <==> Settled(e, LiveSet(t.once, e.came)))
  }

  lemma VisitLabelsAll(e: Event, catalog: Fields)
    requires WellMade(e.v, catalog) && !e.rq.partial
    ensures forall ks :: OnceAt(e.v, ks, false) ==> KeyAt(e.v, [], ks, false) in Labeling(e).once
  {
    WellMadeNestsNothing(e.v, catalog);
    forall ks | OnceAt(e.v, ks, false)
      ensures KeyAt(e.v, [], ks, false) in Labeling(e).once
    {
      Visited(e.v, catalog, ks);
      VisitNames(e.rq, e.v, [], false, NONE, ks);
    }
  }

  lemma VisitLabelsName(e: Event, catalog: Fields)
    requires WellMade(e.v, catalog) && !e.rq.partial
    ensures Names(e.v, Labeling(e).once)
    ensures forall ks :: OnceAt(e.v, ks, false) ==> KeyAt(e.v, [], ks, false) in Labeling(e).once
  {
    VisitLabelsAll(e, catalog);
    ValueSound(e.rq, e.v, [], false, NONE);
    forall key | key in Labeling(e).once
      ensures exists ks :: IsNamed(e.v, ks, key, Labeling(e).once[key])
    {
      NamedAtIsNamed(e.rq, e.v, key, Labeling(e).once[key]);
    }
  }

  lemma NamedAtIsNamed(rq: Request, v: Value, key: string, o: Once)
    requires v.Branch? && !rq.partial && exists ks :: NamedAt(rq, v, [], ks, key, o)
    ensures exists ks :: IsNamed(v, ks, key, o)
  {
    var ks :| NamedAt(rq, v, [], ks, key, o);
    assert [] + ks == ks;
    assert IsNamed(v, ks, key, o);
  }

  /** Showing the props put back is showing all that are held: those of the page are among them. */
  lemma ShowingAllHeld(e: Event, catalog: Fields, w: View, order: seq<string>, held: Held)
    requires WellMade(e.v, catalog) && !e.rq.partial && Lists(order, Labeling(e).once.Keys) && w.shown == {}
    ensures Page(Showing(w, order, held, e.came), e.v, "") == Page(w.(shown := LiveSet(held, e.came)), e.v, "")
  {
    VisitLabelsName(e, catalog);
    var shown, live := Showing(w, order, held, e.came), w.(shown := LiveSet(held, e.came));
    forall ks | OnceAt(e.v, ks, false)
      ensures SameAt(shown, live, NodeIn(e.v, ks, false).value, Join([] + ks))
    {
      Visited(e.v, catalog, ks);
      var key := KeyAt(e.v, [], ks, false);
      assert key in order;
      assert key in LiveOf(order, held, e.came) <==> Live(held, key, e.came);
    }
    SamePage(shown, live, e.v, [], |e.v.entries|);
  }

  lemma PageAfterVisit(s: State, e: Event, t: State, catalog: Fields)
    requires Step(s, e, t) && !e.rq.partial && WellMade(e.v, catalog) && Current(t.once, catalog)
    ensures Page(View(e.rq.inertia, SetOf(e.rq.loaded), LiveSet(t.once, e.came)), e.v, "") == Sends(t.props)
  {
    var w := View(e.rq.inertia, SetOf(e.rq.loaded), {});
    var once := Labeling(e).once;
    ServerPage(e.rq, e.v, "", false);
    var order :| Lists(order, once.Keys) && t.props == Object(Restored(Got(e), order, once, t.once, e.came));
    VisitLabelsName(e, catalog);
    RestoredIsPage(e.v, catalog, w, Got(e), once, t.once, e.came, order);
    ShowingAllHeld(e, catalog, w, order, t.once);
  }

  lemma PlainExactlyWhen(e: Event, live: set<string>, props: Json, catalog: Fields)
    requires WellMade(e.v, catalog) && !e.rq.partial
    requires Page(View(e.rq.inertia, SetOf(e.rq.loaded), live), e.v, "") == Sends(props)
    ensures ValueOut(e.rq.(loaded := []), e.v, "", false) == Sends(props) <==> Settled(e, live)
  {
    var w, plain := View(e.rq.inertia, SetOf(e.rq.loaded), live), View(e.rq.inertia, {}, {});
    ServerPage(e.rq.(loaded := []), e.v, "", false);
    assert SetOf([]) == {};
    WellMadeNestsNothing(e.v, catalog);
    if Settled(e, live) {
      forall ks | OnceAt(e.v, ks, false)
        ensures SameAt(w, plain, NodeIn(e.v, ks, false).value, Join([] + ks))
      {
        Visited(e.v, catalog, ks);
        assert SettledAt(e, NodeIn(e.v, ks, false).value.b, KeyAt(e.v, [], ks, false), live);
      }
      SamePage(w, plain, e.v, [], |e.v.entries|);
    }
    if Page(plain, e.v, "") == Sends(props) {
      forall ks | OnceAt(e.v, ks, false)
        ensures SettledAt(e, NodeIn(e.v, ks, false).value.b, KeyAt(e.v, [], ks, false), live)
      {
        Visited(e.v, catalog, ks);
        var json := catalog[KeyAt(e.v, [], ks, false)];
        OnPage(w, e.v, [], ks, props.fields, json);
        OnPage(plain, e.v, [], ks, props.fields, json);
      }
    }
  }

  /** Every visit of a run shows its page with the once props held, which is the plain page exactly when it is settled. */
  lemma {:induction false} RunShowsPages(states: seq<State>, events: seq<Event>, catalog: Fields)
    requires |states| == |events| + 1 && states[0].once == map[]
    requires forall i :: 0 <= i < |events| ==> WellMade(events[i].v, catalog) && Step(states[i], events[i], states[i + 1])
    ensures Current(states[|events|].once, catalog)
    ensures forall i :: 0 <= i < |events| && !events[i].rq.partial ==> Shows(events[i], states[i + 1])
    decreases |events|
  {
    if |events| > 0 {
      var n := |events| - 1;
      RunShowsPages(states[..n + 1], events[..n], catalog);
      var s, e, t := states[n], events[n], states[n + 1];
      assert Step(s, e, t);
      LearnsWhatIsCurrent(e.rq, e.v, catalog, Got(e), Holding(s, e), t.once);
      if !e.rq.partial {
        PageAfterVisit(s, e, t, catalog);
        PlainExactlyWhen(e, LiveSet(t.once, e.came), t.props, catalog);
      }
    }
  }

  /** An answer had a once prop of a key, with its value and for as long as the page says. */
  ghost predicate CameAs(e: Event, key: string, it: KeptProp, ks: Keys) {
    && e.v.Branch? && ValueOut(e.rq, e.v, "", false).Sends? && OnceAt(e.v, ks, true) && KeyAt(e.v, [], ks, true) == key
    && AtKeys(Got(e), ks) == Some(it.value)
    && it == KeptProp(Join(ks), it.value, NodeIn(e.v, ks, true).value.b.expires)
  }

  lemma LabeledCame(e: Event, catalog: Fields, key: string)
    requires WellMade(e.v, catalog) && ValueOut(e.rq, e.v, "", false).Sends? && CameWith(Got(e), Labeling(e).once, key)
    ensures exists ks :: CameAs(e, key, KeptFrom(Got(e), Labeling(e).once[key]), ks)
  {
    var o := Labeling(e).once[key];
    ValueSound(e.rq, e.v, [], false, NONE);
    var ks :| NamedAt(e.rq, e.v, [], ks, key, o);
    assert [] + ks == ks;
    KeysAreNeat(e.v, [], ks, true);
    PathsAreKeys(Got(e), ks, Null);
    assert CameAs(e, key, KeptFrom(Got(e), o), ks);
  }

  lemma LearnsAsItCame(s: State, e: Event, t: State, catalog: Fields, key: string)
    requires WellMade(e.v, catalog) && Step(s, e, t) && key in t.once
    ensures (key in s.once && s.once[key] == t.once[key]) || exists ks :: CameAs(e, key, t.once[key], ks)
  {
    var once := Labeling(e).once;
    assert Lookup(t.once, key) == Latest(Holding(s, e), Got(e), once, key);
    if CameWith(Got(e), once, key) {
      LabeledCame(e, catalog, key);
    } else {
      assert Lookup(Holding(s, e), key) == Some(t.once[key]);
    }
  }

  /** Whatever a client holds after a run came with an answer of it, with that value, and expires when that page said. */
  lemma {:induction false} HeldAsItCame(states: seq<State>, events: seq<Event>, catalog: Fields, key: string)
    returns (i: nat, ks: Keys)
    requires |states| == |events| + 1 && states[0].once == map[] && key in states[|events|].once
    requires forall k :: 0 <= k < |events| ==> WellMade(events[k].v, catalog) && Step(states[k], events[k], states[k + 1])
    ensures i < |events| && CameAs(events[i], key, states[|events|].once[key], ks)
    decreases |events|
  {
    var n := |events| - 1;
    var s, e, t := states[n], events[n], states[n + 1];
    assert Step(s, e, t);
    LearnsAsItCame(s, e, t, catalog, key);
    if key in s.once && s.once[key] == t.once[key] {
      i, ks := HeldAsItCame(states[..n + 1], events[..n], catalog, key);
    } else {
      i := n;
      ks :| CameAs(e, key, t.once[key], ks);
    }
  }

  /**
   A once prop that the first load leaves out, and that the client holds, is on the page of every visit of a run at once,
   where a client holding none waits for it.
   */
  lemma HeldIsShown(states: seq<State>, events: seq<Event>, catalog: Fields, i: nat, ks: Keys)
    requires |states| == |events| + 1 && states[0].once == map[]
    requires forall k :: 0 <= k < |events| ==> WellMade(events[k].v, catalog) && Step(states[k], events[k], states[k + 1])
    requires i < |events| && !events[i].rq.partial && events[i].v.Branch? && OnceAt(events[i].v, ks, false)
    requires NodeIn(events[i].v, ks, false).value.b.firstLoad != Sent
    requires KeyAt(events[i].v, [], ks, false) in LiveSet(states[i + 1].once, events[i].came)
    ensures var e, t, plain := events[i], states[i + 1], ValueOut(events[i].rq.(loaded := []), events[i].v, "", false);
      && KeyAt(e.v, [], ks, false) in catalog
      && t.props.Object? && AtKeys(t.props.fields, ks) == Some(catalog[KeyAt(e.v, [], ks, false)])
      && (plain.Sends? ==> plain.json.Object? && AtKeys(plain.json.fields, ks).None?)
  {
    RunShowsPages(states, events, catalog);
    var e, t := events[i], states[i + 1];
    assert Shows(e, t);
    var w := View(e.rq.inertia, SetOf(e.rq.loaded), LiveSet(t.once, e.came));
    Visited(e.v, catalog, ks);
    WellMadeNestsNothing(e.v, catalog);
    assert [] + ks == ks;
    OnPage(w, e.v, [], ks, t.props.fields, catalog[KeyAt(e.v, [], ks, false)]);
    var plain := ValueOut(e.rq.(loaded := []), e.v, "", false);
    if plain.Sends? {
      ServerPage(e.rq.(loaded := []), e.v, "", false);
      assert SetOf([]) == {};
      OnPage(View(e.rq.inertia, {}, {}), e.v, [], ks, plain.json.fields, catalog[KeyAt(e.v, [], ks, false)]);
    }
  }

  const DEFERRED := Behavior(Deferred, false, "later", false, false, false, false, [], [], [], true, "", None, false, false)

  const NAMED: Onces := map["a" := Once("a", None)]

  function DeferredPage(json: Json): Value {
    Branch([Entry("a", Prop(DEFERRED, Made(Data(json))))])
  }

  lemma DotOfA()
    ensures Dot("a") == 1
  {
  }

  /** The reload that fetches the deferred prop. */
  lemma Fetched(json: Json) returns (e: Event)
    ensures e == Event(DeferredPage(json), "page", Request(true, true, Some(["a"]), None, [], [], false), true, 0, 0)
    ensures ValueOut(e.rq, e.v, "", false) == Sends(Object(map["a" := json])) && Labeling(e) == NONE.(once := NAMED)
  {
    var v, rq := DeferredPage(json), Request(true, true, Some(["a"]), None, [], [], false);
    e := Event(v, "page", rq, true, 0, 0);
    assert rq.only.value[0] == "a" && IsOrIn("a", "a");
    assert LevelOut(rq, v, 0, "", false) == Some(map[]) && EntryOut(rq, v, 0, "", false) == Sends(json);
    assert map[]["a" := json] == map["a" := json];
    assert LeftOutLabels(rq, v, 0, "", NONE) == NONE && LeftOutLabels(rq, v, 1, "", NONE) == NONE;
    assert LevelLabels(rq, v, 0, "", false, NONE) == NONE;
    assert NONE.once["a" := Once("a", None)] == NAMED;
    assert Labeled(rq, "a") && MergeNoted(rq, DEFERRED, "a", NONE) == NONE;
    assert EntryLabels(rq, v, 0, "", false, NONE) == Noted(rq, DEFERRED, "a", NONE) == NONE.(once := NAMED);
    assert ValueLabels(rq, v, "", false, NONE) == LevelLabels(rq, v, 1, "", false, NONE) == NONE.(once := NAMED);
  }

  /** A visit of a client that holds it: the server leaves it out, and still names it. */
  lemma VisitedHolding(json: Json) returns (e: Event)
    ensures e == Event(DeferredPage(json), "page", Request(false, true, None, None, [], ["a"], false), false, 0, 0)
    ensures ValueOut(e.rq, e.v, "", false) == Sends(Object(map[])) && Labeling(e) == NONE.(once := NAMED)
  {
    var v, rq := DeferredPage(json), Request(false, true, None, None, [], ["a"], false);
    e := Event(v, "page", rq, false, 0, 0);
    assert LevelOut(rq, v, 0, "", false) == Some(map[]) && EntryOut(rq, v, 0, "", false) == Nothing;
    assert LeftOutLabels(rq, v, 0, "", NONE) == NONE;
    assert NONE.once["a" := Once("a", None)] == NAMED;
    assert ClientHas(rq, DEFERRED, "a") && DeferredNoted(rq, DEFERRED, "a", NONE) == NONE;
    assert LeftOutNoted(rq, DEFERRED, "a", NONE) == NONE.(once := NAMED);
    assert LeftOutLabels(rq, v, 1, "", NONE) == NONE.(once := NAMED);
    ghost var l := NONE.(once := NAMED);
    assert LevelLabels(rq, v, 0, "", false, l) == l && EntryLabels(rq, v, 0, "", false, l) == l;
    assert ValueLabels(rq, v, "", false, NONE) == LevelLabels(rq, v, 1, "", false, l) == l;
  }

  lemma RestoresA(fields: Fields, held: Held, json: Json)
    requires held == map["a" := KeptProp("a", json, None)] && (fields == map[] || fields == map["a" := json])
    ensures Lists(["a"], NAMED.Keys) && Restored(fields, ["a"], NAMED, held, 0) == map["a" := json]
  {
    DotOfA();
    assert "a"[..1] == "a";
    assert Restored(fields, [], NAMED, held, 0) == fields;
    assert ["a"][..0] == [];
    assert map[]["a" := json] == map["a" := json];
  }

  /** A client on a page fetches a deferred once prop, and visits it again: it is there at once, where the plain page lacks it. */
  lemma HeldDeferredIsShown(json: Json) returns (states: seq<State>, events: seq<Event>)
    ensures |events| == 2 && |states| == 3 && states[0].once == map[] && !events[1].rq.partial
    ensures Step(states[0], events[0], states[1]) && Step(states[1], events[1], states[2])
    ensures states[2].props == Object(map["a" := json])
    ensures ValueOut(events[1].rq.(loaded := []), events[1].v, "", false) == Sends(Object(map[]))
  {
    var fetch := Fetched(json);
    var visit := VisitedHolding(json);
    var held: Held := map["a" := KeptProp("a", json, None)];
    var s0, s1 := State(Object(map[]), "page", map[]), State(Object(map["a" := json]), "page", held);
    states, events := [s0, s1, s1], [fetch, visit];
    DotOfA();
    assert "a"[..1] == "a";
    FetchLearns(json, fetch, s0, s1);
    VisitShows(json, visit, s1);
    var v, rq := visit.v, visit.rq.(loaded := []);
    assert LevelOut(rq, v, 0, "", false) == Some(map[]) && EntryOut(rq, v, 0, "", false) == Nothing;
  }

  lemma FetchLearns(json: Json, e: Event, s: State, t: State)
    requires e == Event(DeferredPage(json), "page", Request(true, true, Some(["a"]), None, [], [], false), true, 0, 0)
    requires ValueOut(e.rq, e.v, "", false) == Sends(Object(map["a" := json])) && Labeling(e) == NONE.(once := NAMED)
    requires s == State(Object(map[]), "page", map[])
    requires t == State(Object(map["a" := json]), "page", map["a" := KeptProp("a", json, None)])
    ensures Step(s, e, t)
  {
    DotOfA();
    assert "a"[..1] == "a" && SetOf([]) == {} && Unexpired(map[], 0) == map[];
    var merged := Merged(s.props, Object(Got(e)), Labeling(e), true);
    assert map[] + map["a" := json] == map["a" := json];
    assert merged == Object(map["a" := json]);
    RestoresA(map["a" := json], t.once, json);
    assert Lists(["a"], Labeling(e).once.Keys);
  }

  lemma VisitShows(json: Json, e: Event, s: State)
    requires e == Event(DeferredPage(json), "page", Request(false, true, None, None, [], ["a"], false), false, 0, 0)
    requires ValueOut(e.rq, e.v, "", false) == Sends(Object(map[])) && Labeling(e) == NONE.(once := NAMED)
    requires s == State(Object(map["a" := json]), "page", map["a" := KeptProp("a", json, None)])
    ensures Step(s, e, s)
  {
    DotOfA();
    assert "a"[..1] == "a" && SetOf(["a"]) == {"a"} && Unexpired(s.once, 0) == s.once;
    RestoresA(map[], s.once, json);
    assert Lists(["a"], Labeling(e).once.Keys);
  }
}
