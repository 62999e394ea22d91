/**
 The queue as a protocol: any number of workers push, claim and report in any order, crash, and come late, while one
 clock goes on. A run is any sequence of Store calls, and what each lemma here says holds after every run.
 */
module QueueRuns {
  import opened StoreContract
  import opened HoldLimits

  /** A claim whose worker has not reported: the job as Claim returned it, and how many claims came before it. */
  datatype Claimed = Claimed(job: Job, serial: nat, until: Time)

  /**
   The Store, the clock, and the claims not yet reported; and, for saying what happened, the job each claim took, the
   claims held back, the claims each job's Attempts counts, the claim number of its last new start, and the jobs done.
   */
  datatype Sys = Sys(
    store: Store, clock: nat, out: set<Claimed>,
    took: seq<nat>, back: set<nat>, counted: map<nat, seq<nat>>, since: map<nat, nat>, done: set<nat>)

  const START := Sys(EMPTY, 0, {}, [], {}, map[], map[], {})

  datatype Step =
    | Tick(to: nat)
    | PushJob(j: Job)
    | PushOne(j: Job)
    | PushLast(j: Job, id: nat)
    | PushRun(schedule: string, j: Job)
    | Take(id: nat, until: Time)
    | ReportDone(c: Claimed)
    | ReportRetry(c: Claimed, runAt: Time, error: string)
    | ReportFail(c: Claimed, error: string, failedAt: Time, clock: Time)
    | ReportHoldBack(c: Claimed, key: string, until: Time)
    | Crash(c: Claimed)
    | StartOver(id: nat, at: Time)

  /** When a step may be taken: a plain push has no key, and no claim of a job started over may still report. */
  ghost predicate Enabled(s: Sys, step: Step) {
    match step
    case Tick(to) => to >= s.clock
    case PushJob(j) => j.attempts == 0 && j.key == ""
    case PushOne(j) => j.attempts == 0
    case PushLast(j, id) => j.attempts == 0 && (KeyWaits(s.store.jobs, j.kind, j.key) ==> Moves(s.store, j, id))
    case PushRun(_, j) => j.attempts == 0
    case Take(id, _) => DueSoonest(s.store, id, s.clock)
    case ReportDone(c) => c in s.out
    case ReportRetry(c, _, _) => c in s.out
    case ReportFail(c, _, _, _) => c in s.out
    case ReportHoldBack(c, _, _) => c in s.out
    case Crash(c) => c in s.out
    case StartOver(id, _) => forall c :: c in s.out ==> c.job.id != id
  }

  /** Takes up the jobs a push added. */
  function Pushed(s: Sys, store: Store): Sys {
    if store.last == s.store.last then s.(store := store)
    else s.(store := store, counted := s.counted[store.last := []], since := s.since[store.last := |s.took|])
  }

  ghost function Next(s: Sys, step: Step): Sys
    requires Enabled(s, step)
  {
    match step
    case Tick(to) => s.(clock := to)
    case PushJob(j) => Pushed(s, Push(s.store, j))
    case PushOne(j) => Pushed(s, PushUnique(s.store, j))
    case PushLast(j, id) => Pushed(s, PushLatest(s.store, j, id))
    case PushRun(schedule, j) => Pushed(s, PushScheduled(s.store, schedule, j))
    case Take(id, until) =>
      var store := Claim(s.store, id, until);
      var counts := if id in s.counted then s.counted[id] else [];
      s.(store := store, out := s.out + {Claimed(store.jobs[id].job, |s.took|, until)}, took := s.took + [id],
         counted := s.counted[id := counts + [|s.took|]])
    case ReportDone(c) =>
      s.(store := Done(s.store, c.job), out := s.out - {c},
         done := if ClaimedBy(s.store, c.job) then s.done + {c.job.id} else s.done)
    case ReportRetry(c, runAt, error) =>
      s.(store := Retry(s.store, c.job.(runAt := runAt, error := error)), out := s.out - {c})
    case ReportFail(c, error, failedAt, clock) =>
      s.(store := Fail(s.store, c.job.(error := error, failedAt := failedAt), clock), out := s.out - {c})
    case ReportHoldBack(c, key, until) =>
      var s' := s.(store := HoldBack(s.store, c.job.(key := key), until), out := s.out - {c});
      if ClaimedBy(s.store, c.job) && c.job.id in s.counted && s.counted[c.job.id] != [] then
        var counts := s.counted[c.job.id];
        s'.(back := s.back + {c.serial}, counted := s.counted[c.job.id := counts[..|counts| - 1]])
      else s'
    case Crash(c) => s.(out := s.out - {c})
    case StartOver(id, at) =>
      var s' := s.(store := RunAgain(s.store, id, at));
      if id in s.store.jobs && s.store.jobs[id].failed then
        s'.(counted := s.counted[id := []], since := s.since[id := |s.took|])
      else s'
  }

  ghost predicate CanRun(s: Sys, steps: seq<Step>)
    decreases |steps|
  {
    steps != [] ==> Enabled(s, steps[0]) && CanRun(Next(s, steps[0]), steps[1..])
  }

  ghost function After(s: Sys, steps: seq<Step>): Sys
    requires CanRun(s, steps)
    decreases |steps|
  {
    if steps == [] then s else After(Next(s, steps[0]), steps[1..])
  }

  // What every step keeps.

  /** Every job pushed is kept or done, and its Attempts is how many of its claims count. */
  ghost predicate Conserved(s: Sys) {
    && (forall id :: id in s.store.jobs || id in s.done ==> 1 <= id <= s.store.last)
    && (forall id :: 1 <= id <= s.store.last ==> (id in s.store.jobs <==> id !in s.done))
    && (forall id :: id in s.counted <==> 1 <= id <= s.store.last)
    && s.since.Keys == s.counted.Keys && (forall id :: id in s.since ==> s.since[id] <= |s.took|)
    && (forall id :: id in s.store.jobs ==> s.store.jobs[id].job.id == id && s.store.jobs[id].job.attempts == |s.counted[id]|)
  }

  /** counts are the claims of the job, since its last new start, that were not held back, in their order. */
  ghost predicate CountsOf(counts: seq<nat>, since: nat, took: seq<nat>, back: set<nat>, id: nat) {
    && (forall i, j :: 0 <= i < j < |counts| ==> counts[i] < counts[j])
    && (forall n: nat :: n in counts <==> since <= n < |took| && took[n] == id && n !in back)
  }

  ghost predicate Counts(s: Sys)
    requires Conserved(s)
  {
    && (forall n :: n in s.back ==> n < |s.took|)
    && (forall id :: id in s.counted ==> CountsOf(s.counted[id], s.since[id], s.took, s.back, id))
  }

  /** An unreported claim's token is its place among the claims that count. */
  ghost predicate Tokens(s: Sys)
    requires Conserved(s)
  {
    && (forall c, d :: c in s.out && d in s.out && c.serial == d.serial ==> c == d)
    && (forall c :: c in s.out ==>
          c.serial < |s.took| && c.job.id in s.counted &&
          1 <= c.job.attempts <= |s.counted[c.job.id]| && s.counted[c.job.id][c.job.attempts - 1] == c.serial)
    && (forall c :: c in s.out && c.job.id in s.store.jobs ==> s.store.jobs[c.job.id].job.kind == c.job.kind)
  }

  /** While its hold lasts, an unreported claim has its job. */
  ghost predicate Holds(s: Sys) {
    forall c :: c in s.out && c.until > s.clock ==>
      ClaimedBy(s.store, c.job) && s.store.jobs[c.job.id].heldUntil == c.until
  }

  ghost predicate Invariant(s: Sys) {
    Ledger(s) && Within(s.store.jobs, s.clock)
  }

  // The ledger of claims, through each kind of step.

  ghost predicate Ledger(s: Sys) {
    Conserved(s) && Counts(s) && Tokens(s) && Holds(s)
  }

  predicate Pushes(step: Step) {
    step.Tick? || step.PushJob? || step.PushOne? || step.PushLast? || step.PushRun?
  }

  predicate Reports(step: Step) {
    step.ReportDone? || step.ReportRetry? || step.ReportFail? || step.Crash?
  }

  lemma CountsMore(counts: seq<nat>, since: nat, took: seq<nat>, back: set<nat>, id: nat, taken: nat)
    requires CountsOf(counts, since, took, back, id) && since <= |took| && forall n :: n in back ==> n < |took|
    ensures CountsOf(if taken == id then counts + [|took|] else counts, since, took + [taken], back, id)
  {
    var counts' := if taken == id then counts + [|took|] else counts;
    forall i | 0 <= i < |counts|
      ensures counts[i] < |took|
    {
      assert counts[i] in counts;
    }
    forall n: nat
      ensures n in counts' <==> since <= n < |took| + 1 && (took + [taken])[n] == id && n !in back
    {
      assert n in counts' <==> n in counts || (taken == id && n == |took|);
    }
  }

  lemma TokensLess(s: Sys, s': Sys, c: Claimed)
    requires Ledger(s) && Conserved(s') && c in s.out && s'.out == s.out - {c} && s'.took == s.took
    requires s'.counted == if ClaimedBy(s.store, c.job) then
                             var counts := s.counted[c.job.id]; s.counted[c.job.id := counts[..|counts| - 1]]
                           else s.counted
    requires s'.store.jobs.Keys == s.store.jobs.Keys
    requires forall id :: id in s.store.jobs ==> s'.store.jobs[id].job.kind == s.store.jobs[id].job.kind
    ensures Tokens(s')
  {
    forall d | d in s'.out
      ensures 1 <= d.job.attempts <= |s'.counted[d.job.id]| && s'.counted[d.job.id][d.job.attempts - 1] == d.serial
    {
      assert d in s.out && d.serial != c.serial;
    }
  }

  lemma CountsLess(counts: seq<nat>, since: nat, took: seq<nat>, back: set<nat>, id: nat, n: nat)
    requires CountsOf(counts, since, took, back, id) && n < |took|
    requires took[n] == id ==> counts != [] && counts[|counts| - 1] == n
    ensures CountsOf(if took[n] == id then counts[..|counts| - 1] else counts, since, took, back + {n}, id)
  {
    var counts' := if took[n] == id then counts[..|counts| - 1] else counts;
    assert forall i :: 0 <= i < |counts'| ==> counts'[i] == counts[i] && (took[n] == id ==> counts[i] < n);
    forall m: nat
      ensures m in counts' <==> since <= m < |took| && took[m] == id && m !in back + {n}
    {
      assert m in counts <==> since <= m < |took| && took[m] == id && m !in back;
      assert took[n] == id ==> counts == counts' + [n];
    }
  }

  /** What a push does: at most one job is new, and no job that was there is held, failed or claimed otherwise. */
  ghost predicate Grown(s: Sys, t: Sys) {
    && t.out == s.out && t.took == s.took && t.back == s.back && t.done == s.done
    && (forall id :: id in s.store.jobs ==> id in t.store.jobs && SameClaims(s.store.jobs[id], t.store.jobs[id]))
    && if t.store.last == s.store.last then t.counted == s.counted && t.since == s.since && t.store.jobs.Keys == s.store.jobs.Keys
       else
         var id := s.store.last + 1;
         && t.store.last == id && t.store.jobs.Keys == s.store.jobs.Keys + {id}
         && t.counted == s.counted[id := []] && t.since == s.since[id := |s.took|]
         && t.store.jobs[id].job.id == id && t.store.jobs[id].job.attempts == 0
  }

  predicate SameClaims(k: Kept, l: Kept) {
    && l.job.id == k.job.id && l.job.attempts == k.job.attempts && l.job.kind == k.job.kind
    && l.failed == k.failed && l.heldUntil == k.heldUntil && l.job.key == k.job.key
  }

  lemma NewJobGrows(s: Sys, store: Store, j: Job)
    requires Ledger(s) && j.attempts == 0
    requires store.last == s.store.last + 1 && store.jobs == s.store.jobs[s.store.last + 1 := Fresh(s.store, j)]
    ensures Grown(s, Pushed(s, store))
  {
    assert s.store.last + 1 !in s.store.jobs;
  }

  lemma PushUniqueGrows(s: Sys, store: Store, j: Job)
    requires Ledger(s) && j.attempts == 0
    requires store.last == PushUnique(s.store, j).last && store.jobs == PushUnique(s.store, j).jobs
    ensures Grown(s, Pushed(s, store))
  {
    if !KeyWaits(s.store.jobs, j.kind, j.key) {
      NewJobGrows(s, store, j);
    }
  }

  lemma PushLatestGrows(s: Sys, j: Job, id: nat)
    requires Ledger(s) && Enabled(s, PushLast(j, id))
    ensures Grown(s, Next(s, PushLast(j, id)))
  {
    if !Moves(s.store, j, id) {
      NewJobGrows(s, Push(s.store, j), j);
    }
  }

  lemma PushGrows(s: Sys, step: Step)
    requires Ledger(s) && Enabled(s, step) && Pushes(step)
    ensures Grown(s, Next(s, step))
  {
    match step
    case PushJob(j) => NewJobGrows(s, Push(s.store, j), j);
    case PushOne(j) => PushUniqueGrows(s, PushUnique(s.store, j), j);
    case PushLast(j, id) => PushLatestGrows(s, j, id);
    case PushRun(schedule, j) =>
      if NewRun(s.store, schedule, j.runAt) {
        PushUniqueGrows(s, PushScheduled(s.store, schedule, j), j);
      }
    case Tick(_) =>
  }

  lemma ConservedPush(s: Sys, step: Step)
    requires Ledger(s) && Enabled(s, step)
    requires Pushes(step)
    ensures Conserved(Next(s, step))
  {
    PushGrows(s, step);
    GrownConserved(s, Next(s, step));
  }

  lemma GrownConserved(s: Sys, t: Sys)
    requires Conserved(s) && Grown(s, t)
    ensures Conserved(t)
  {
  }

  lemma ConservedTake(s: Sys, step: Step)
    requires Ledger(s) && Enabled(s, step)
    requires step.Take? || step.StartOver?
    ensures Conserved(Next(s, step))
  {
  }

  lemma ConservedReport(s: Sys, step: Step)
    requires Ledger(s) && Enabled(s, step)
    requires Reports(step)
    ensures Conserved(Next(s, step))
  {
  }

  lemma ConservedBack(s: Sys, step: Step)
    requires Ledger(s) && Enabled(s, step)
    requires step.ReportHoldBack?
    ensures Conserved(Next(s, step))
  {
    if ClaimedBy(s.store, step.c.job) {
      assert s.counted[step.c.job.id] != [];
      var s' := Next(s, step);
      assert s'.store.jobs == s.store.jobs[step.c.job.id := PutBack(s.store, step.c.job.(key := step.key))];
    }
  }

  lemma CountsPush(s: Sys, step: Step)
    requires Ledger(s) && Enabled(s, step)
    requires Pushes(step)
    requires Conserved(Next(s, step))
    ensures Counts(Next(s, step))
  {
    PushGrows(s, step);
    GrownCounts(s, Next(s, step));
  }

  lemma GrownCounts(s: Sys, t: Sys)
    requires Ledger(s) && Grown(s, t) && Conserved(t)
    ensures Counts(t)
  {
  }

  lemma CountsTake(s: Sys, step: Step)
    requires Ledger(s) && Enabled(s, step)
    requires step.Take? || step.StartOver?
    requires Conserved(Next(s, step))
    ensures Counts(Next(s, step))
  {
    var s' := Next(s, step);
    var n := |s.took|;
    forall id | id in s'.counted
      ensures CountsOf(s'.counted[id], s'.since[id], s'.took, s'.back, id)
    {
      if step.Take? {
        CountsMore(s.counted[id], s.since[id], s.took, s.back, id, step.id);
      }
    }
  }

  lemma CountsReport(s: Sys, step: Step)
    requires Ledger(s) && Enabled(s, step)
    requires Reports(step)
    requires Conserved(Next(s, step))
    ensures Counts(Next(s, step))
  {
  }

  lemma CountsBack(s: Sys, step: Step)
    requires Ledger(s) && Enabled(s, step)
    requires step.ReportHoldBack?
    requires Conserved(Next(s, step))
    ensures Counts(Next(s, step))
  {
    var s', c := Next(s, step), step.c;
    if ClaimedBy(s.store, c.job) {
      forall id | id in s'.counted
        ensures CountsOf(s'.counted[id], s'.since[id], s'.took, s'.back, id)
      {
        CountsLess(s.counted[id], s.since[id], s.took, s.back, id, c.serial);
      }
    }
  }

  lemma TokensPush(s: Sys, step: Step)
    requires Ledger(s) && Enabled(s, step)
    requires Pushes(step)
    requires Conserved(Next(s, step))
    ensures Tokens(Next(s, step))
  {
    PushGrows(s, step);
    GrownTokens(s, Next(s, step));
  }

  lemma GrownTokens(s: Sys, t: Sys)
    requires Ledger(s) && Grown(s, t) && Conserved(t)
    ensures Tokens(t)
  {
  }

  lemma TokensStartOver(s: Sys, step: Step)
    requires Ledger(s) && Enabled(s, step)
    requires step.StartOver?
    requires Conserved(Next(s, step))
    ensures Tokens(Next(s, step))
  {
  }

  lemma TokensClaim(s: Sys, step: Step)
    requires Ledger(s) && Enabled(s, step)
    requires step.Take?
    requires Conserved(Next(s, step))
    ensures Tokens(Next(s, step))
  {
  }

  lemma TokensTake(s: Sys, step: Step)
    requires Ledger(s) && Enabled(s, step)
    requires step.Take? || step.StartOver?
    requires Conserved(Next(s, step))
    ensures Tokens(Next(s, step))
  {
    if step.Take? {
      TokensClaim(s, step);
    } else {
      TokensStartOver(s, step);
    }
  }

  lemma TokensReport(s: Sys, step: Step)
    requires Ledger(s) && Enabled(s, step)
    requires Reports(step)
    requires Conserved(Next(s, step))
    ensures Tokens(Next(s, step))
  {
  }

  lemma TokensBack(s: Sys, step: Step)
    requires Ledger(s) && Enabled(s, step)
    requires step.ReportHoldBack?
    requires Conserved(Next(s, step))
    ensures Tokens(Next(s, step))
  {
    TokensLess(s, Next(s, step), step.c);
  }

  lemma HoldsPush(s: Sys, step: Step)
    requires Ledger(s) && Enabled(s, step)
    requires Pushes(step)
    requires Conserved(Next(s, step))
    ensures Holds(Next(s, step))
  {
  }

  lemma HoldsTake(s: Sys, step: Step)
    requires Ledger(s) && Enabled(s, step)
    requires step.Take? || step.StartOver?
    requires Conserved(Next(s, step))
    ensures Holds(Next(s, step))
  {
    var t := Next(s, step);
    forall c | c in t.out && c.until > t.clock
      ensures ClaimedBy(t.store, c.job) && t.store.jobs[c.job.id].heldUntil == c.until
    {
      if c in s.out {
        assert ClaimedBy(s.store, c.job) && s.store.jobs[c.job.id].heldUntil == c.until;
        assert c.job.id != step.id;
        assert t.store.jobs[c.job.id] == s.store.jobs[c.job.id];
      }
    }
  }

  /** A report changes no job but the one its claim has, which no other unreported claim holds. */
  lemma HoldsLess(s: Sys, s': Sys, c: Claimed)
    requires Ledger(s) && c in s.out && s'.out == s.out - {c} && s'.clock == s.clock
    requires forall id :: id in s.store.jobs && !(id == c.job.id && ClaimedBy(s.store, c.job)) ==>
               id in s'.store.jobs && s'.store.jobs[id] == s.store.jobs[id]
    ensures Holds(s')
  {
    forall d | d in s'.out && d.until > s.clock
      ensures ClaimedBy(s'.store, d.job) && s'.store.jobs[d.job.id].heldUntil == d.until
    {
      assert ClaimedBy(s.store, d.job) && d != c;
      if d.job.id == c.job.id && ClaimedBy(s.store, c.job) {
        assert false;
      }
    }
  }

  lemma HoldsReport(s: Sys, step: Step)
    requires Ledger(s) && Enabled(s, step)
    requires Reports(step)
    ensures Holds(Next(s, step))
  {
    HoldsLess(s, Next(s, step), step.c);
  }

  lemma HoldsBack(s: Sys, step: Step)
    requires Ledger(s) && Enabled(s, step)
    requires step.ReportHoldBack?
    ensures Holds(Next(s, step))
  {
    HoldsLess(s, Next(s, step), step.c);
  }

  lemma LimitsPush(s: Sys, step: Step)
    requires Ledger(s) && Within(s.store.jobs, s.clock) && Enabled(s, step) && Pushes(step)
    ensures Within(Next(s, step).store.jobs, Next(s, step).clock)
  {
    match step
    case Tick(to) => Later(s.store.jobs, s.clock, to);
    case PushJob(j) => PushUniqueKeeps(s.store, j, s.clock);
    case PushOne(j) => PushUniqueKeeps(s.store, j, s.clock);
    case PushLast(j, id) =>
      if Moves(s.store, j, id) {
        Released(s.store.jobs, id, PushLatest(s.store, j, id).jobs[id], s.clock);
      } else {
        PushUniqueKeeps(s.store, j, s.clock);
      }
    case PushRun(_, j) => PushUniqueKeeps(s.store, j, s.clock);
  }

  lemma LimitsTake(s: Sys, step: Step)
    requires Ledger(s) && Within(s.store.jobs, s.clock) && Enabled(s, step) && (step.Take? || step.StartOver?)
    ensures Within(Next(s, step).store.jobs, Next(s, step).clock)
  {
    if step.Take? {
      Taken(s.store, step.id, s.clock, step.until);
    } else if step.id in s.store.jobs && s.store.jobs[step.id].failed {
      Released(s.store.jobs, step.id, RunAgain(s.store, step.id, step.at).jobs[step.id], s.clock);
    }
  }

  lemma LimitsReport(s: Sys, step: Step)
    requires Ledger(s) && Within(s.store.jobs, s.clock) && Enabled(s, step) && Reports(step)
    ensures Within(Next(s, step).store.jobs, Next(s, step).clock)
  {
    var jobs, id := s.store.jobs, step.c.job.id;
    if step.ReportDone? {
      Removed(jobs, id, s.clock);
    } else if !step.Crash? && ClaimedBy(s.store, step.c.job) {
      Released(jobs, id, Next(s, step).store.jobs[id], s.clock);
    }
  }

  lemma LimitsBack(s: Sys, step: Step)
    requires Ledger(s) && Within(s.store.jobs, s.clock) && Enabled(s, step) && step.ReportHoldBack?
    ensures Within(Next(s, step).store.jobs, Next(s, step).clock)
  {
    if ClaimedBy(s.store, step.c.job) {
      Released(s.store.jobs, step.c.job.id, PutBack(s.store, step.c.job.(key := step.key)), s.clock);
    }
  }

  lemma PushUniqueKeeps(store: Store, j: Job, now: nat)
    requires Within(store.jobs, now) && store.last + 1 !in store.jobs
    ensures Within(PushUnique(store, j).jobs, now)
  {
    if !KeyWaits(store.jobs, j.kind, j.key) {
      Added(store.jobs, store.last + 1, Fresh(store, j), now);
    }
  }

  lemma ConservedNext(s: Sys, step: Step)
    requires Ledger(s) && Enabled(s, step)
    ensures Conserved(Next(s, step))
  {
    if Pushes(step) {
      ConservedPush(s, step);
    } else if Reports(step) {
      ConservedReport(s, step);
    } else if step.ReportHoldBack? {
      ConservedBack(s, step);
    } else {
      ConservedTake(s, step);
    }
  }

  lemma LastGrows(s: Sys, step: Step)
    requires Enabled(s, step)
    ensures Next(s, step).store.last >= s.store.last
  {
  }

  /** What every step keeps. */
  lemma InvariantNext(s: Sys, step: Step)
    requires Invariant(s) && Enabled(s, step)
    ensures Invariant(Next(s, step))
  {
    ConservedNext(s, step);
    if Pushes(step) {
      CountsPush(s, step);
      TokensPush(s, step);
      HoldsPush(s, step);
      LimitsPush(s, step);
    } else if Reports(step) {
      CountsReport(s, step);
      TokensReport(s, step);
      HoldsReport(s, step);
      LimitsReport(s, step);
    } else if step.ReportHoldBack? {
      CountsBack(s, step);
      TokensBack(s, step);
      HoldsBack(s, step);
      LimitsBack(s, step);
    } else {
      CountsTake(s, step);
      TokensTake(s, step);
      HoldsTake(s, step);
      LimitsTake(s, step);
    }
  }

  /** What holds after every run. */
  lemma {:induction false} InvariantAfter(s: Sys, steps: seq<Step>)
    requires Invariant(s) && CanRun(s, steps)
    ensures Invariant(After(s, steps))
    decreases |steps|
  {
    if steps != [] {
      InvariantNext(s, steps[0]);
      InvariantAfter(Next(s, steps[0]), steps[1..]);
    }
  }

  lemma StartHolds()
    ensures Invariant(START)
  {
  }
}
