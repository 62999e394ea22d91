/**
 queue/queue.go: the runs each instance pushes for its schedules, ahead of their times. Instances have clocks of their
 own and restart, the Store may fail a push before or after keeping it, and a schedule's Next is a function.
 */
module QueueSchedules {
  import opened StoreContract
  import opened Options
  import MemoryStore
  import opened QueueRuns
  import QueueSafety

  /** A kind's schedule: next is its first time after a time, or none. */
  datatype Scheduled = Scheduled(
    kind: string, payload: string, key: string, oneAtATime: bool, atOnce: nat, next: Time -> Option<Time>)

  function RunOf(sc: Scheduled, at: Time): Job {
    Job(0, sc.kind, sc.payload, sc.key, at, 0, "", sc.oneAtATime, sc.atOnce, ZERO_TIME)
  }

  /** How a push went: the Store answered, or failed, having kept the run or not. */
  datatype Answer = Answered | Lost | KeptUnanswered

  ghost predicate Promises(scheduled: seq<Scheduled>) {
    forall i, t :: 0 <= i < |scheduled| && scheduled[i].next(t).Some? ==> scheduled[i].next(t).value > t
  }

  /** The run of each schedule this instance takes to be pushed is on record, or a later one is. */
  ghost predicate OnRecord(s: Store, scheduled: seq<Scheduled>, pushed: seq<Time>) {
    |pushed| == |scheduled| &&
    forall i :: 0 <= i < |pushed| && pushed[i] != ZERO_TIME ==>
      scheduled[i].kind in s.schedules && s.schedules[scheduled[i].kind] >= pushed[i]
  }

  /** What one turn of the pass, for one schedule, keeps and takes to be pushed. */
  ghost function Turn(s: Store, sc: Scheduled, pushed: Time, now: nat, answer: Answer): (Store, Time) {
    if now < pushed then (s, pushed)
    else
      var at := sc.next(now);
      if at.None? || answer.Lost? then (s, pushed)
      else (StoreContract.PushScheduled(s, sc.kind, RunOf(sc, at.value)),
            if answer.Answered? then at.value else pushed)
  }

  /** A pass over the schedules from the i-th on, which stops before the stop-th when the queue stops. */
  ghost function Pass(s: Store, scheduled: seq<Scheduled>, pushed: seq<Time>, now: nat, answers: seq<Answer>, i: nat, stop: nat):
    (Store, seq<Time>)
    requires |pushed| == |scheduled| == |answers|
    decreases |scheduled| - i
  {
    if i >= |scheduled| || i >= stop then (s, pushed)
    else
      var (s', at) := Turn(s, scheduled[i], pushed[i], now, answers[i]);
      Pass(s', scheduled, pushed[i := at], now, answers, i + 1, stop)
  }

  method PushScheduled(store: MemoryStore.Memory, scheduled: seq<Scheduled>, pushed: array<Time>, now: nat,
                       answers: seq<Answer>, stop: nat)
    requires store.Valid() && pushed.Length == |scheduled| == |answers|
    modifies store, pushed
    ensures store.Valid()
    ensures (store.store, pushed[..]) == Pass(old(store.store), scheduled, old(pushed[..]), now, answers, 0, stop)
  {
    var i := 0;
    while i < |scheduled|
      invariant i <= |scheduled| && store.Valid()
      invariant Pass(store.store, scheduled, pushed[..], now, answers, i, stop) ==
                Pass(old(store.store), scheduled, old(pushed[..]), now, answers, 0, stop)
    {
      if i >= stop {
        return;
      }
      ghost var s, was := store.store, pushed[..];
      var sc := scheduled[i];
      if now >= pushed[i] {
        var at := sc.next(now);
        if at.Some? && !answers[i].Lost? {
          var first := store.PushScheduled(sc.kind, RunOf(sc, at.value));
          if answers[i].Answered? {
            pushed[i] := at.value;
          }
        }
      }
      assert store.store == Turn(s, sc, was[i], now, answers[i]).0;
      assert pushed[..] == was[i := Turn(s, sc, was[i], now, answers[i]).1];
      i := i + 1;
    }
  }

  /** Another job of a schedule waits under its key. */
  ghost predicate Waits(s: Store, sc: Scheduled) {
    sc.key != "" && exists id :: id in s.jobs && s.jobs[id].job.kind == sc.kind && s.jobs[id].job.key == sc.key
  }

  /** The job of a schedule's run at a time, as it is kept. */
  function RunKept(id: nat, sc: Scheduled, at: Time): Kept {
    Kept(Job(id, sc.kind, sc.payload, sc.key, at, 0, "", sc.oneAtATime, sc.atOnce, 0), 0, false,
         if sc.oneAtATime then sc.key else "")
  }

  /**
   A turn that comes once the run taken to be pushed is due keeps a job of the schedule's next run, as the schedule has it
   and due at its time, unless that run or a later one is on record, or a job of its key waits: then it is on record alone.
   */
  lemma TurnPushes(s: Store, sc: Scheduled, pushed: Time, now: nat, answer: Answer)
    ensures var (t, p), at := Turn(s, sc, pushed, now, answer), sc.next(now);
      if now < pushed || at.None? || answer.Lost? then t == s && p == pushed
      else
        && (p == if answer.Answered? then at.value else pushed)
        && if sc.kind in s.schedules && s.schedules[sc.kind] >= at.value then t == s
           else
             && t.schedules == s.schedules[sc.kind := at.value] && t.held == s.held
             && (Waits(s, sc) ==> t.jobs == s.jobs)
             && (!Waits(s, sc) ==> t.last == s.last + 1 && t.jobs == s.jobs[t.last := RunKept(t.last, sc, at.value)])
  {
    if KeyWaits(s.jobs, sc.kind, sc.key) {
      var id :| id in s.jobs && HasKey(s.jobs[id], sc.kind, sc.key);
      assert s.jobs[id].job.key == sc.key;
    }
    if Waits(s, sc) {
      var id :| id in s.jobs && s.jobs[id].job.kind == sc.kind && s.jobs[id].job.key == sc.key;
      assert HasKey(s.jobs[id], sc.kind, sc.key);
    }
  }

  /** The schedule's record is no earlier than before. */
  ghost predicate NoEarlier(s: Store, s': Store) {
    forall name :: name in s.schedules ==> name in s'.schedules && s.schedules[name] <= s'.schedules[name]
  }

  lemma TurnKeeps(s: Store, scheduled: seq<Scheduled>, pushed: seq<Time>, now: nat, answer: Answer, i: nat)
    requires OnRecord(s, scheduled, pushed) && Promises(scheduled) && i < |scheduled|
    ensures var (s', at) := Turn(s, scheduled[i], pushed[i], now, answer);
      && NoEarlier(s, s') && OnRecord(s', scheduled, pushed[i := at])
      && (answer.Answered? && scheduled[i].next(now).Some? ==>
            scheduled[i].kind in s'.schedules && s'.schedules[scheduled[i].kind] > now)
  {
    var (s', at) := Turn(s, scheduled[i], pushed[i], now, answer);
    assert NoEarlier(s, s');
  }

  /**
   After a pass, every schedule whose push the Store answered, and that comes round again, has a run later than the
   instance's clock on record, whoever pushed it; and no record goes back.
   */
  lemma {:induction false} PassLeavesARunAhead(
    s: Store, scheduled: seq<Scheduled>, pushed: seq<Time>, now: nat, answers: seq<Answer>, i: nat, stop: nat)
    requires OnRecord(s, scheduled, pushed) && Promises(scheduled) && |answers| == |scheduled|
    ensures var (s', pushed') := Pass(s, scheduled, pushed, now, answers, i, stop);
      && OnRecord(s', scheduled, pushed') && NoEarlier(s, s')
      && (forall k :: i <= k < |scheduled| && k < stop && answers[k].Answered? && scheduled[k].next(now).Some? ==>
            scheduled[k].kind in s'.schedules && s'.schedules[scheduled[k].kind] > now)
    decreases |scheduled| - i
  {
    if i < |scheduled| && i < stop {
      var (s1, at) := Turn(s, scheduled[i], pushed[i], now, answers[i]);
      TurnKeeps(s, scheduled, pushed, now, answers[i], i);
      PassLeavesARunAhead(s1, scheduled, pushed[i := at], now, answers, i + 1, stop);
    }
  }

  /** What an instance takes to be pushed stays on record, through every step of the others. */
  lemma OnRecordNext(s: Sys, step: Step, scheduled: seq<Scheduled>, pushed: seq<Time>)
    requires OnRecord(s.store, scheduled, pushed) && Enabled(s, step)
    ensures OnRecord(Next(s, step).store, scheduled, pushed)
  {
  }

  /** The times of the runs that won, for one schedule, over a run of the whole system. */
  ghost function RunsPushed(s: Sys, steps: seq<Step>, name: string): seq<Time>
    requires CanRun(s, steps)
    decreases |steps|
  {
    if steps == [] then []
    else
      var step, rest := steps[0], RunsPushed(Next(s, steps[0]), steps[1..], name);
      if step.PushRun? && step.schedule == name && NewRun(s.store, name, step.j.runAt) then [step.j.runAt] + rest else rest
  }

  predicate Increasing(times: seq<Time>) {
    forall i, j :: 0 <= i < j < |times| ==> times[i] < times[j]
  }

  predicate PastRecord(s: Store, name: string, times: seq<Time>) {
    forall i :: 0 <= i < |times| && name in s.schedules ==> s.schedules[name] < times[i]
  }

  /** The runs pushed for a schedule have strictly increasing times, so each is pushed at most once. */
  lemma {:induction false} RunsIncrease(s: Sys, steps: seq<Step>, name: string)
    requires CanRun(s, steps)
    ensures Increasing(RunsPushed(s, steps, name)) && PastRecord(s.store, name, RunsPushed(s, steps, name))
    decreases |steps|
  {
    if steps != [] {
      var step, s' := steps[0], Next(s, steps[0]);
      var runs, rest := RunsPushed(s, steps, name), RunsPushed(s', steps[1..], name);
      RunsIncrease(s', steps[1..], name);
      assert NoEarlier(s.store, s'.store);
      if step.PushRun? && step.schedule == name && NewRun(s.store, name, step.j.runAt) {
        assert s'.store.schedules[name] == step.j.runAt;
        assert runs == [step.j.runAt] + rest;
      } else {
        assert runs == rest;
      }
    }
  }

  // An instance among the others.

  /**
   What happens to an instance, or around it: the others take any steps of a run, this one comes to a schedule of a pass by
   its own clock and the Store answers or fails, or it is started again.
   */
  datatype Event = Others(steps: seq<Step>) | Comes(i: nat, now: nat, answer: Answer) | Starts

  /** The whole system, and the times this instance takes to be pushed. */
  datatype Life = Life(s: Sys, pushed: seq<Time>)

  /** The steps of a run that a turn is: a push, or none. */
  function StepsOf(sc: Scheduled, pushed: Time, now: nat, answer: Answer): seq<Step> {
    if now < pushed || sc.next(now).None? || answer.Lost? then [] else [PushRun(sc.kind, RunOf(sc, sc.next(now).value))]
  }

  function TakesPushed(sc: Scheduled, pushed: Time, now: nat, answer: Answer): Time {
    if now < pushed || sc.next(now).None? || !answer.Answered? then pushed else sc.next(now).value
  }

  function NonePushed(scheduled: seq<Scheduled>): (pushed: seq<Time>)
    ensures |pushed| == |scheduled|
  {
    seq(|scheduled|, _ => ZERO_TIME)
  }

  ghost predicate May(l: Life, scheduled: seq<Scheduled>, e: Event) {
    |l.pushed| == |scheduled| &&
    match e
    case Others(steps) => CanRun(l.s, steps)
    case Comes(i, _, _) => i < |scheduled|
    case Starts => true
  }

  lemma TurnRuns(s: Sys, sc: Scheduled, pushed: Time, now: nat, answer: Answer)
    ensures CanRun(s, StepsOf(sc, pushed, now, answer))
  {
    var steps := StepsOf(sc, pushed, now, answer);
    if steps != [] {
      assert steps[1..] == [] && Enabled(s, steps[0]);
      assert CanRun(Next(s, steps[0]), []);
    }
  }

  ghost function Goes(l: Life, scheduled: seq<Scheduled>, e: Event): Life
    requires May(l, scheduled, e)
  {
    match e
    case Others(steps) => Life(After(l.s, steps), l.pushed)
    case Comes(i, now, answer) =>
      TurnRuns(l.s, scheduled[i], l.pushed[i], now, answer);
      Life(After(l.s, StepsOf(scheduled[i], l.pushed[i], now, answer)),
           l.pushed[i := TakesPushed(scheduled[i], l.pushed[i], now, answer)])
    case Starts => Life(l.s, NonePushed(scheduled))
  }

  ghost predicate MayAll(l: Life, scheduled: seq<Scheduled>, es: seq<Event>)
    decreases |es|
  {
    es != [] ==> May(l, scheduled, es[0]) && MayAll(Goes(l, scheduled, es[0]), scheduled, es[1..])
  }

  ghost function GoesOn(l: Life, scheduled: seq<Scheduled>, es: seq<Event>): Life
    requires MayAll(l, scheduled, es)
    decreases |es|
  {
    if es == [] then l else GoesOn(Goes(l, scheduled, es[0]), scheduled, es[1..])
  }

  /** A turn, as its steps of a run, does to the Store what the code does. */
  lemma TurnIsSteps(s: Sys, sc: Scheduled, pushed: Time, now: nat, answer: Answer)
    ensures CanRun(s, StepsOf(sc, pushed, now, answer))
    ensures Turn(s.store, sc, pushed, now, answer) ==
            (After(s, StepsOf(sc, pushed, now, answer)).store, TakesPushed(sc, pushed, now, answer))
  {
    TurnRuns(s, sc, pushed, now, answer);
    var steps := StepsOf(sc, pushed, now, answer);
    if steps != [] {
      assert steps[1..] == [] && After(s, steps) == Next(s, steps[0]);
    }
  }

  /** A pass as the turns it is, with none of the others between them. */
  function PassEvents(now: nat, answers: seq<Answer>, i: nat, stop: nat): seq<Event>
    decreases |answers| - i
  {
    if i >= |answers| || i >= stop then [] else [Comes(i, now, answers[i])] + PassEvents(now, answers, i + 1, stop)
  }

  lemma {:induction false} PassIsTurns(l: Life, scheduled: seq<Scheduled>, now: nat, answers: seq<Answer>, i: nat, stop: nat)
    requires |l.pushed| == |scheduled| == |answers|
    ensures MayAll(l, scheduled, PassEvents(now, answers, i, stop))
    ensures var after := GoesOn(l, scheduled, PassEvents(now, answers, i, stop));
      (after.s.store, after.pushed) == Pass(l.s.store, scheduled, l.pushed, now, answers, i, stop)
    decreases |answers| - i
  {
    if i < |answers| && i < stop {
      var es := PassEvents(now, answers, i, stop);
      TurnIsSteps(l.s, scheduled[i], l.pushed[i], now, answers[i]);
      assert es[1..] == PassEvents(now, answers, i + 1, stop);
      PassIsTurns(Goes(l, scheduled, es[0]), scheduled, now, answers, i + 1, stop);
    }
  }

  lemma NoEarlierTwice(a: Store, b: Store, c: Store)
    requires NoEarlier(a, b) && NoEarlier(b, c)
    ensures NoEarlier(a, c)
  {
  }

  lemma NoEarlierNext(s: Sys, step: Step)
    requires Enabled(s, step)
    ensures NoEarlier(s.store, Next(s, step).store)
  {
  }

  lemma {:induction false} NoEarlierAfter(s: Sys, steps: seq<Step>)
    requires CanRun(s, steps)
    ensures NoEarlier(s.store, After(s, steps).store)
    decreases |steps|
  {
    if steps != [] {
      NoEarlierNext(s, steps[0]);
      NoEarlierAfter(Next(s, steps[0]), steps[1..]);
      NoEarlierTwice(s.store, Next(s, steps[0]).store, After(s, steps).store);
    }
  }

  lemma OnRecordLater(s: Store, t: Store, scheduled: seq<Scheduled>, pushed: seq<Time>)
    requires OnRecord(s, scheduled, pushed) && NoEarlier(s, t)
    ensures OnRecord(t, scheduled, pushed)
  {
  }

  lemma {:induction false} ReachedAfter(s: Sys, steps: seq<Step>)
    requires QueueSafety.Reached(s) && CanRun(s, steps)
    ensures QueueSafety.Reached(After(s, steps))
    decreases |steps|
  {
    if steps != [] {
      QueueSafety.ReachedNext(s, steps[0]);
      ReachedAfter(Next(s, steps[0]), steps[1..]);
    }
  }

  /** A schedule has a run later than a time on record. */
  predicate Ahead(s: Store, sc: Scheduled, now: Time) {
    sc.kind in s.schedules && s.schedules[sc.kind] > now
  }

  /** The turn of a schedule that the Store answers, and that comes round again. */
  predicate Answers(scheduled: seq<Scheduled>, e: Event) {
    e.Comes? && e.answer.Answered? && e.i < |scheduled| && scheduled[e.i].next(e.now).Some?
  }

  lemma GoesKeeps(l: Life, scheduled: seq<Scheduled>, e: Event)
    requires May(l, scheduled, e) && OnRecord(l.s.store, scheduled, l.pushed) && Promises(scheduled) && QueueSafety.Reached(l.s)
    ensures var m := Goes(l, scheduled, e);
      && QueueSafety.Reached(m.s) && NoEarlier(l.s.store, m.s.store) && OnRecord(m.s.store, scheduled, m.pushed)
      && (Answers(scheduled, e) ==> Ahead(m.s.store, scheduled[e.i], e.now))
  {
    match e
    case Others(steps) =>
      NoEarlierAfter(l.s, steps);
      ReachedAfter(l.s, steps);
      OnRecordLater(l.s.store, After(l.s, steps).store, scheduled, l.pushed);
    case Comes(i, now, answer) =>
      TurnIsSteps(l.s, scheduled[i], l.pushed[i], now, answer);
      ReachedAfter(l.s, StepsOf(scheduled[i], l.pushed[i], now, answer));
      TurnKeeps(l.s.store, scheduled, l.pushed, now, answer, i);
    case Starts =>
  }

  lemma {:induction false} AlwaysAheadFrom(l: Life, scheduled: seq<Scheduled>, es: seq<Event>)
    requires MayAll(l, scheduled, es) && Promises(scheduled)
    requires OnRecord(l.s.store, scheduled, l.pushed) && QueueSafety.Reached(l.s)
    ensures var m := GoesOn(l, scheduled, es);
      && QueueSafety.Reached(m.s) && NoEarlier(l.s.store, m.s.store) && OnRecord(m.s.store, scheduled, m.pushed)
      && forall k :: 0 <= k < |es| && Answers(scheduled, es[k]) ==> Ahead(m.s.store, scheduled[es[k].i], es[k].now)
    decreases |es|
  {
    if es != [] {
      var n, m := Goes(l, scheduled, es[0]), GoesOn(l, scheduled, es);
      GoesKeeps(l, scheduled, es[0]);
      AlwaysAheadFrom(n, scheduled, es[1..]);
      NoEarlierTwice(l.s.store, n.s.store, m.s.store);
      forall k | 0 <= k < |es| && Answers(scheduled, es[k])
        ensures Ahead(m.s.store, scheduled[es[k].i], es[k].now)
      {
        if k > 0 {
          assert es[k] == es[1..][k - 1];
        }
      }
    }
  }

  /**
   From any reached state, an instance that starts, and passes over its schedules by a clock of its own, through whatever
   the others do between one turn and the next, through its starting again and failures of the Store: once the Store
   answered it for a schedule that comes round again, there is a run later than its clock said on record, from then on.
   */
  lemma AlwaysAhead(s: Sys, scheduled: seq<Scheduled>, es: seq<Event>)
    requires QueueSafety.Reached(s) && Promises(scheduled) && MayAll(Life(s, NonePushed(scheduled)), scheduled, es)
    ensures var m := GoesOn(Life(s, NonePushed(scheduled)), scheduled, es);
      && QueueSafety.Reached(m.s) && OnRecord(m.s.store, scheduled, m.pushed)
      && forall k :: 0 <= k < |es| && Answers(scheduled, es[k]) ==> Ahead(m.s.store, scheduled[es[k].i], es[k].now)
  {
    AlwaysAheadFrom(Life(s, NonePushed(scheduled)), scheduled, es);
  }
}
