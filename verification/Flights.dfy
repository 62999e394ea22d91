/**
 cache/cache.go: Remember, which any number of callers are in at once. The first that wants a key works its value out, on
 a flight that those who come meanwhile wait for. What is under the mutex is one step, and so is what a caller does alone.
 */
module Flights {
  import opened Options

  type Key = string
  type Bytes = string
  type Caller = nat

  /** A value being worked out for a key, by who leads it: its JSON, once there is one, and whether those waiting are let go. */
  datatype Flight = Flight(key: Key, leader: Caller, value: Option<Bytes>, done: bool)

  /**
   Where a caller is: at work as a flight's leader, at work no more and about to take the flight off, or to let the others
   go; waiting; at work on its own after a flight that gave it nothing; or back, with a value or none, its own or a flight's.
   */
  datatype Place =
    | Works(f: nat)
    | Lands(f: nat, result: Option<Bytes>)
    | LetsGo(f: nat, result: Option<Bytes>)
    | Waits(f: nat)
    | Alone(f: nat)
    | Back(result: Option<Bytes>, from: Option<nat>)

  datatype Call = Call(key: Key, place: Place)

  /** The flights by key, all there have been, and the calls. */
  datatype State = State(flights: map<Key, nat>, all: seq<Flight>, calls: map<Caller, Call>)

  const START := State(map[], [], map[])

  datatype Step =
    | Enter(c: Caller, key: Key)
    | Work(c: Caller, result: Option<Bytes>)
    | Land(c: Caller)
    | LetGo(c: Caller)
    | Wake(c: Caller)
    | GiveUp(c: Caller)

  /** A flight's value is JSON of the type that a caller wants. */
  type Fits = (Caller, Bytes) -> bool

  predicate Enabled(s: State, step: Step) {
    match step
    case Enter(c, _) => c !in s.calls
    case Work(c, _) => c in s.calls && (s.calls[c].place.Works? || s.calls[c].place.Alone?)
    case Land(c) => c in s.calls && s.calls[c].place.Lands?
    case LetGo(c) => c in s.calls && s.calls[c].place.LetsGo?
    case Wake(c) => c in s.calls && s.calls[c].place.Waits? && s.calls[c].place.f < |s.all| && s.all[s.calls[c].place.f].done
    case GiveUp(c) => c in s.calls && s.calls[c].place.Waits?
  }

  function Move(s: State, c: Caller, place: Place): State
    requires c in s.calls
  {
    s.(calls := s.calls[c := Call(s.calls[c].key, place)])
  }

  predicate GivesTo(flight: Flight, c: Caller, fits: Fits) {
    flight.value.Some? && fits(c, flight.value.value)
  }

  function Next(s: State, step: Step, fits: Fits): State
    requires Enabled(s, step)
  {
    match step
    case Enter(c, key) =>
      if key in s.flights then s.(calls := s.calls[c := Call(key, Waits(s.flights[key]))])
      else State(s.flights[key := |s.all|], s.all + [Flight(key, c, None, false)], s.calls[c := Call(key, Works(|s.all|))])
    case Work(c, result) =>
      var place := s.calls[c].place;
      if place.Alone? then Move(s, c, Back(result, None))
      else
        var given := if place.f < |s.all| && result.Some? then s.all[place.f := s.all[place.f].(value := result)] else s.all;
        Move(s.(all := given), c, Lands(place.f, result))
    case Land(c) => Move(s.(flights := s.flights - {s.calls[c].key}), c, LetsGo(s.calls[c].place.f, s.calls[c].place.result))
    case LetGo(c) =>
      var f := s.calls[c].place.f;
      var let := if f < |s.all| then s.all[f := s.all[f].(done := true)] else s.all;
      Move(s.(all := let), c, Back(s.calls[c].place.result, None))
    case Wake(c) =>
      var f := s.calls[c].place.f;
      if GivesTo(s.all[f], c, fits) then Move(s, c, Back(s.all[f].value, Some(f))) else Move(s, c, Alone(f))
    case GiveUp(c) => Move(s, c, Back(None, None))
  }

  /** The cache's flights, as its mutex guards them, and as the callers move on. */
  class Cache {
    var flights: map<Key, nat>
    var all: seq<Flight>
    ghost var calls: map<Caller, Call>

    ghost function Now(): State
      reads this
    {
      State(flights, all, calls)
    }

    constructor ()
      ensures Now() == START
    {
      flights, all, calls := map[], [], map[];
    }

    /** Finds the key's flight to wait for, or none, having started one to lead. */
    method Enter(c: Caller, key: Key) returns (waits: Option<nat>)
      requires Enabled(Now(), Step.Enter(c, key))
      modifies this
      ensures forall fits: Fits :: Now() == Next(old(Now()), Step.Enter(c, key), fits)
      ensures waits == if key in old(flights) then Some(old(flights)[key]) else None
    {
      if key in flights {
        calls := calls[c := Call(key, Waits(flights[key]))];
        return Some(flights[key]);
      }
      flights := flights[key := |all|];
      calls := calls[c := Call(key, Works(|all|))];
      all := all + [Flight(key, c, None, false)];
      waits := None;
    }

    /** give: a value that was read or worked out is the flight's, for those who wait for it. */
    method Give(c: Caller, f: nat, result: Option<Bytes>)
      requires Enabled(Now(), Step.Work(c, result)) && calls[c].place == Works(f) && f < |all|
      modifies this
      ensures forall fits: Fits :: Now() == Next(old(Now()), Step.Work(c, result), fits)
    {
      if result.Some? {
        all := all[f := all[f].(value := result)];
      }
      calls := calls[c := Call(calls[c].key, Lands(f, result))];
    }

    /** What is deferred, so that it is done when the work panics too: first under the mutex, and then the closing. */
    method Land(c: Caller, key: Key)
      requires Enabled(Now(), Step.Land(c)) && calls[c].key == key
      modifies this
      ensures forall fits: Fits :: Now() == Next(old(Now()), Step.Land(c), fits)
    {
      flights := flights - {key};
      calls := calls[c := Call(key, LetsGo(calls[c].place.f, calls[c].place.result))];
    }

    method LetGo(c: Caller, f: nat)
      requires Enabled(Now(), Step.LetGo(c)) && calls[c].place.f == f < |all|
      modifies this
      ensures forall fits: Fits :: Now() == Next(old(Now()), Step.LetGo(c), fits)
    {
      all := all[f := all[f].(done := true)];
      calls := calls[c := Call(calls[c].key, Back(calls[c].place.result, None))];
    }

    /** A caller that waited has the flight's value, or works on its own. */
    method Wake(c: Caller, f: nat, fits: Fits) returns (value: Option<Bytes>)
      requires Enabled(Now(), Step.Wake(c)) && calls[c].place == Waits(f)
      modifies this`calls
      ensures Now() == Next(old(Now()), Step.Wake(c), fits)
      ensures value == if GivesTo(all[f], c, fits) then all[f].value else None
    {
      value := if all[f].value.Some? && fits(c, all[f].value.value) then all[f].value else None;
      calls := calls[c := Call(calls[c].key, if value.Some? then Back(value, Some(f)) else Alone(f))];
    }
  }

  // What every step keeps.

  predicate Leads(place: Place) {
    place.Works? || place.Lands? || place.LetsGo?
  }

  /** A leader's flight is its own, has what it was given, and has not let those waiting go. */
  predicate LeaderRight(s: State, c: Caller)
    requires c in s.calls && Leads(s.calls[c].place)
  {
    var (key, place) := (s.calls[c].key, s.calls[c].place);
    && place.f < |s.all| && s.all[place.f].key == key && s.all[place.f].leader == c && !s.all[place.f].done
    && s.all[place.f].value == (if place.Works? then None else place.result)
    && (!place.LetsGo? ==> key in s.flights && s.flights[key] == place.f)
  }

  predicate OtherRight(s: State, c: Caller, fits: Fits)
    requires c in s.calls && !Leads(s.calls[c].place)
  {
    match s.calls[c].place
    case Waits(f) => f < |s.all| && s.all[f].key == s.calls[c].key
    case Alone(f) => f < |s.all| && s.all[f].key == s.calls[c].key && s.all[f].done && !GivesTo(s.all[f], c, fits)
    case Back(result, from) =>
      from.Some? ==> from.value < |s.all| && s.all[from.value].key == s.calls[c].key && s.all[from.value].done
                     && s.all[from.value].value == result && GivesTo(s.all[from.value], c, fits)
    case _ => true
  }

  /** A flight's leader is at it until it lets the others go, and then is back with what the flight gave. */
  predicate FlightRight(s: State, f: nat)
    requires f < |s.all|
  {
    var flight := s.all[f];
    && flight.leader in s.calls
    && s.calls[flight.leader] == Call(flight.key, s.calls[flight.leader].place)
    && if flight.done then s.calls[flight.leader].place == Back(flight.value, None)
       else Leads(s.calls[flight.leader].place) && s.calls[flight.leader].place.f == f
  }

  predicate CallRight(s: State, c: Caller, fits: Fits)
    requires c in s.calls
  {
    if Leads(s.calls[c].place) then LeaderRight(s, c) else OtherRight(s, c, fits)
  }

  ghost predicate Invariant(s: State, fits: Fits) {
    && (forall c :: c in s.calls ==> CallRight(s, c, fits))
    && (forall f :: 0 <= f < |s.all| ==> FlightRight(s, f))
    && (forall key :: key in s.flights ==> s.flights[key] < |s.all| && s.all[s.flights[key]].key == key)
  }

  lemma MoverNext(s: State, step: Step, fits: Fits)
    requires Invariant(s, fits) && Enabled(s, step)
    ensures step.c in Next(s, step, fits).calls && CallRight(Next(s, step, fits), step.c, fits)
  {
    assert step.c in s.calls ==> CallRight(s, step.c, fits);
  }

  lemma OthersNext(s: State, step: Step, fits: Fits, c: Caller)
    requires Invariant(s, fits) && Enabled(s, step) && c != step.c && c in s.calls
    ensures c in Next(s, step, fits).calls && CallRight(Next(s, step, fits), c, fits)
  {
    assert CallRight(s, c, fits);
    assert step.c in s.calls ==> CallRight(s, step.c, fits);
  }

  lemma FlightNext(s: State, step: Step, fits: Fits, f: nat)
    requires Invariant(s, fits) && Enabled(s, step) && f < |Next(s, step, fits).all|
    ensures FlightRight(Next(s, step, fits), f)
  {
    assert f < |s.all| ==> FlightRight(s, f);
    assert step.c in s.calls ==> CallRight(s, step.c, fits);
  }

  lemma InvariantNext(s: State, step: Step, fits: Fits)
    requires Invariant(s, fits) && Enabled(s, step)
    ensures Invariant(Next(s, step, fits), fits)
  {
    var t := Next(s, step, fits);
    forall c | c in t.calls
      ensures CallRight(t, c, fits)
    {
      if c == step.c {
        MoverNext(s, step, fits);
      } else {
        OthersNext(s, step, fits, c);
      }
    }
    forall f | 0 <= f < |t.all|
      ensures FlightRight(t, f)
    {
      FlightNext(s, step, fits, f);
    }
    assert step.c in s.calls ==> CallRight(s, step.c, fits);
  }

  ghost predicate CanRun(s: State, steps: seq<Step>, fits: Fits)
    decreases |steps|
  {
    steps != [] ==> Enabled(s, steps[0]) && CanRun(Next(s, steps[0], fits), steps[1..], fits)
  }

  ghost function After(s: State, steps: seq<Step>, fits: Fits): State
    requires CanRun(s, steps, fits)
    decreases |steps|
  {
    if steps == [] then s else After(Next(s, steps[0], fits), steps[1..], fits)
  }

  lemma {:induction false} InvariantAfter(s: State, steps: seq<Step>, fits: Fits)
    requires Invariant(s, fits) && CanRun(s, steps, fits)
    ensures Invariant(After(s, steps, fits), fits)
    decreases |steps|
  {
    if steps != [] {
      InvariantNext(s, steps[0], fits);
      InvariantAfter(Next(s, steps[0], fits), steps[1..], fits);
    }
  }

  // What that says of any number of callers, after any run.

  ghost predicate Reached(s: State, fits: Fits) {
    exists steps :: CanRun(START, steps, fits) && After(START, steps, fits) == s
  }

  lemma ReachedHolds(s: State, fits: Fits)
    requires Reached(s, fits)
    ensures Invariant(s, fits)
  {
    var steps :| CanRun(START, steps, fits) && After(START, steps, fits) == s;
    InvariantAfter(START, steps, fits);
  }

  /** A caller reads a key's value, or runs what works it out. */
  predicate AtWork(s: State, c: Caller, key: Key) {
    c in s.calls && s.calls[c].key == key && (s.calls[c].place.Works? || s.calls[c].place.Alone?)
  }

  /** A caller waited for a flight of the key that came to nothing it could use. */
  predicate WaitedInVain(s: State, c: Caller, key: Key, fits: Fits) {
    c in s.calls && s.calls[c].place.Alone? &&
    var f := s.calls[c].place.f;
    f < |s.all| && s.all[f].key == key && s.all[f].done && !GivesTo(s.all[f], c, fits)
  }

  /** Two callers are at work on one key at once only when one of them waited in vain. */
  lemma OneAtWork(s: State, fits: Fits, key: Key, a: Caller, b: Caller)
    requires Reached(s, fits) && AtWork(s, a, key) && AtWork(s, b, key)
    ensures a == b || WaitedInVain(s, a, key, fits) || WaitedInVain(s, b, key, fits)
  {
    ReachedHolds(s, fits);
    assert CallRight(s, a, fits) && CallRight(s, b, fits);
  }

  /** So the work runs once at a time while each flight comes to what those who wait for it want. */
  lemma OnceAtATime(s: State, fits: Fits, key: Key, a: Caller, b: Caller)
    requires Reached(s, fits) && AtWork(s, a, key) && AtWork(s, b, key)
    requires forall f, c :: 0 <= f < |s.all| && s.all[f].key == key && s.all[f].done ==> GivesTo(s.all[f], c, fits)
    ensures a == b
  {
    OneAtWork(s, fits, key, a, b);
  }

  /** What a caller has of a flight is what its leader came back with, and is of its type. */
  lemma WaiterHasLeaders(s: State, fits: Fits, c: Caller)
    requires Reached(s, fits) && c in s.calls && s.calls[c].place.Back? && s.calls[c].place.from.Some?
    ensures var f := s.calls[c].place.from.value;
      && f < |s.all| && s.all[f].leader in s.calls
      && s.calls[s.all[f].leader] == Call(s.calls[c].key, Back(s.calls[c].place.result, None))
      && s.calls[c].place.result.Some? && fits(c, s.calls[c].place.result.value)
  {
    ReachedHolds(s, fits);
    assert CallRight(s, c, fits);
    assert FlightRight(s, s.calls[c].place.from.value);
  }

  /** What the leader of a flight has yet to do, when its work fails, or panics. */
  function LeadersSteps(c: Caller, place: Place): seq<Step> {
    match place
    case Works(_) => [Work(c, None), Land(c), LetGo(c)]
    case Lands(_, _) => [Land(c), LetGo(c)]
    case LetsGo(_, _) => [LetGo(c)]
    case _ => []
  }

  /** The leader of a flight can take all the steps that it has to, and then the flight is done, and no one else moved. */
  lemma LeaderGoesOn(s: State, fits: Fits, c: Caller)
    requires c in s.calls && Leads(s.calls[c].place) && s.calls[c].place.f < |s.all|
    ensures var steps, f := LeadersSteps(c, s.calls[c].place), s.calls[c].place.f;
      CanRun(s, steps, fits) && var t := After(s, steps, fits);
      |t.all| == |s.all| && t.all[f].done && forall d :: d in s.calls && d != c ==> d in t.calls && t.calls[d] == s.calls[d]
    decreases if s.calls[c].place.Works? then 2 else if s.calls[c].place.Lands? then 1 else 0
  {
    var place := s.calls[c].place;
    var steps := LeadersSteps(c, place);
    if place.LetsGo? {
      OneLeft(s, steps[0], fits);
    } else {
      var t := Next(s, steps[0], fits);
      LeaderGoesOn(t, fits, c);
      assert steps[1..] == LeadersSteps(c, t.calls[c].place);
      MoreLeft(s, steps, fits);
    }
  }

  /** No caller waits for good: the leader of its flight can always go on, by itself, to let it go. */
  lemma WaiterIsLetGo(s: State, fits: Fits, c: Caller)
    requires Reached(s, fits) && c in s.calls && s.calls[c].place.Waits?
    ensures var f := s.calls[c].place.f;
      && f < |s.all| && s.all[f].leader in s.calls
      && var steps := LeadersSteps(s.all[f].leader, s.calls[s.all[f].leader].place);
      CanRun(s, steps, fits) && Enabled(After(s, steps, fits), Wake(c))
  {
    ReachedHolds(s, fits);
    var f := s.calls[c].place.f;
    assert CallRight(s, c, fits) && FlightRight(s, f);
    if !s.all[f].done {
      LeaderGoesOn(s, fits, s.all[f].leader);
    }
  }

  lemma OneLeft(s: State, step: Step, fits: Fits)
    requires Enabled(s, step)
    ensures CanRun(s, [step], fits) && After(s, [step], fits) == Next(s, step, fits)
  {
    assert After(Next(s, step, fits), [], fits) == Next(s, step, fits);
  }

  lemma MoreLeft(s: State, steps: seq<Step>, fits: Fits)
    requires steps != [] && Enabled(s, steps[0]) && CanRun(Next(s, steps[0], fits), steps[1..], fits)
    ensures CanRun(s, steps, fits) && After(s, steps, fits) == After(Next(s, steps[0], fits), steps[1..], fits)
  {
  }

  lemma {:induction false} OneMore(s: State, steps: seq<Step>, step: Step, fits: Fits)
    requires CanRun(s, steps, fits) && Enabled(After(s, steps, fits), step)
    ensures CanRun(s, steps + [step], fits) && After(s, steps + [step], fits) == Next(After(s, steps, fits), step, fits)
    decreases |steps|
  {
    if steps == [] {
      assert steps + [step] == [step];
      OneLeft(s, step, fits);
    } else {
      OneMore(Next(s, steps[0], fits), steps[1..], step, fits);
      assert (steps + [step])[1..] == steps[1..] + [step];
    }
  }

  lemma ReachedNext(s: State, step: Step, fits: Fits) returns (t: State)
    requires Reached(s, fits) && Enabled(s, step)
    ensures Reached(t, fits) && t == Next(s, step, fits)
  {
    t := Next(s, step, fits);
    var steps :| CanRun(START, steps, fits) && After(START, steps, fits) == s;
    OneMore(START, steps, step, fits);
  }

  /** A flight that two wait for. */
  lemma FlightOfThree(fits: Fits) returns (s: State)
    ensures Reached(s, fits)
    ensures s == State(map["k" := 0], [Flight("k", 0, None, false)],
                       map[0 := Call("k", Works(0)), 1 := Call("k", Waits(0)), 2 := Call("k", Waits(0))])
  {
    assert CanRun(START, [], fits) && After(START, [], fits) == START;
    s := ReachedNext(START, Enter(0, "k"), fits);
    assert s.flights == map["k" := 0] && s.all == [Flight("k", 0, None, false)];
    s := ReachedNext(s, Enter(1, "k"), fits);
    s := ReachedNext(s, Enter(2, "k"), fits);
  }

  lemma FlightThatFails(fits: Fits) returns (s: State)
    ensures Reached(s, fits) && s.all == [Flight("k", 0, None, true)]
    ensures {1, 2} <= s.calls.Keys && s.calls[1] == Call("k", Waits(0)) && s.calls[2] == Call("k", Waits(0))
  {
    s := FlightOfThree(fits);
    s := ReachedNext(s, Work(0, None), fits);
    s := ReachedNext(s, Land(0), fits);
    s := ReachedNext(s, LetGo(0), fits);
  }

  /** A run in which two callers work a key out at once: both waited for a flight whose work failed. */
  lemma TwoAtWork(fits: Fits) returns (s: State)
    ensures Reached(s, fits) && AtWork(s, 1, "k") && AtWork(s, 2, "k")
  {
    s := FlightThatFails(fits);
    s := ReachedNext(s, Wake(1), fits);
    s := ReachedNext(s, Wake(2), fits);
  }

  /** Two callers wait for a flight of a key, or for two, that let them go. */
  predicate BothWait(s: State, a: Caller, b: Caller, key: Key) {
    a != b && WaitsDone(s, a, key) && WaitsDone(s, b, key)
  }

  predicate WaitsDone(s: State, c: Caller, key: Key) {
    c in s.calls && s.calls[c].key == key && s.calls[c].place.Waits? && s.calls[c].place.f < |s.all| && s.all[s.calls[c].place.f].done
  }

  /** Two that wait are both at work once they are woken exactly when their flights came to nothing that either can use. */
  lemma BothAtWorkExactly(s: State, fits: Fits, key: Key, a: Caller, b: Caller)
    requires Reached(s, fits) && BothWait(s, a, b, key)
    ensures CanRun(s, [Wake(a), Wake(b)], fits)
    ensures var t := After(s, [Wake(a), Wake(b)], fits);
      && Reached(t, fits)
      && (AtWork(t, a, key) && AtWork(t, b, key) <==>
            !GivesTo(s.all[s.calls[a].place.f], a, fits) && !GivesTo(s.all[s.calls[b].place.f], b, fits))
  {
    var s1 := ReachedNext(s, Wake(a), fits);
    var s2 := ReachedNext(s1, Wake(b), fits);
    OneLeft(s1, Wake(b), fits);
    assert [Wake(a), Wake(b)][1..] == [Wake(b)];
    MoreLeft(s, [Wake(a), Wake(b)], fits);
  }

  /** One that waits is at work beside a caller that comes anew exactly when its flight came to nothing that it can use. */
  lemma BesideNewExactly(s: State, fits: Fits, key: Key, a: Caller, b: Caller)
    requires Reached(s, fits) && WaitsDone(s, a, key) && b !in s.calls && key !in s.flights
    ensures CanRun(s, [Wake(a), Enter(b, key)], fits)
    ensures var t := After(s, [Wake(a), Enter(b, key)], fits);
      && Reached(t, fits) && AtWork(t, b, key)
      && (AtWork(t, a, key) <==> !GivesTo(s.all[s.calls[a].place.f], a, fits))
  {
    var s1 := ReachedNext(s, Wake(a), fits);
    var s2 := ReachedNext(s1, Enter(b, key), fits);
    OneLeft(s1, Enter(b, key), fits);
    assert [Wake(a), Enter(b, key)][1..] == [Enter(b, key)];
    MoreLeft(s, [Wake(a), Enter(b, key)], fits);
  }
}
