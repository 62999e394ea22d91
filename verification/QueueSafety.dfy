/**
 What the queue promises after every run: claims told apart, holds that never overlap, jobs neither lost nor run
 twice over, and the limits of kinds and keys.
 */
module QueueSafety {
  import opened StoreContract
  import opened HoldLimits
  import opened QueueRuns

  ghost predicate Reached(s: Sys) {
    exists steps :: CanRun(START, steps) && After(START, steps) == s
  }

  lemma ReachedHolds(s: Sys)
    requires Reached(s)
    ensures Invariant(s)
  {
    var steps :| CanRun(START, steps) && After(START, steps) == s;
    StartHolds();
    InvariantAfter(START, steps);
  }

  /** Attempts is a fencing token: no two unreported claims of a job share it, though hold-backs take it back. */
  lemma FencingTokens(s: Sys, c: Claimed, d: Claimed)
    requires Reached(s) && c in s.out && d in s.out && c.job.id == d.job.id && c.job.attempts == d.job.attempts
    ensures c == d
  {
    ReachedHolds(s);
  }

  /** While its hold lasts an unreported claim has its job to itself, and its report will be heard. */
  lemma HoldsNeverOverlap(s: Sys, c: Claimed)
    requires Reached(s) && c in s.out && c.until > s.clock
    ensures ClaimedBy(s.store, c.job) && s.store.jobs[c.job.id].heldUntil == c.until
    ensures forall d :: d in s.out && d != c && d.job.id == c.job.id ==> d.until <= s.clock && !ClaimedBy(s.store, d.job)
    ensures forall to: nat :: to >= s.clock && to < c.until ==> !Claimable(s.store, c.job.id, to)
  {
    ReachedHolds(s);
  }

  /**
   A report changes the job of a claim that later claims have followed exactly when all of those were held back: the
   documentation has it that a later claim is enough to leave the job alone.
   */
  lemma ReportHeardExactlyWhen(s: Sys, c: Claimed)
    requires Reached(s) && c in s.out
    ensures ClaimedBy(s.store, c.job) <==>
            c.job.id in s.store.jobs && !s.store.jobs[c.job.id].failed &&
            forall n: nat :: c.serial < n < |s.took| && s.took[n] == c.job.id ==> n in s.back
  {
    ReachedHolds(s);
    var counts := s.counted[c.job.id];
    assert CountsOf(counts, s.since[c.job.id], s.took, s.back, c.job.id);
    assert counts[c.job.attempts - 1] == c.serial && c.serial in counts;
    if c.job.attempts < |counts| {
      var n := counts[c.job.attempts];
      assert n in counts && c.serial < n;
    } else {
      forall n: nat | c.serial < n < |s.took| && s.took[n] == c.job.id
        ensures n in s.back
      {
        assert n in counts ==> n in s.back;
      }
    }
  }

  /** Waiting for its time or a worker, held by a claim, failed for good, or done. */
  datatype Status = Waiting | Running | Failed | Finished

  function StatusOf(s: Sys, id: nat): Status
    requires id in s.store.jobs || id in s.done
  {
    if id in s.done then Finished
    else if s.store.jobs[id].failed then Failed
    else if s.store.jobs[id].heldUntil > s.clock then Running
    else Waiting
  }

  /** Every job ever pushed is kept or done, and never both, whatever the workers did. */
  lemma NoJobIsLost(s: Sys, id: nat)
    requires Reached(s)
    ensures 1 <= id <= s.store.last <==> id in s.store.jobs || id in s.done
    ensures !(id in s.store.jobs && id in s.done)
    ensures id in s.store.jobs ==> s.store.jobs[id].job.id == id
  {
    ReachedHolds(s);
  }

  /** How one step may move a job: into a hold only by a claim, out of one by its claim's report or by time. */
  ghost predicate Moved(s: Sys, step: Step, id: nat, from: Status, to: Status) {
    match (from, to)
    case (Waiting, Running) => step.Take? && step.id == id
    case (Running, Waiting) =>
      step.Tick? || ((step.ReportRetry? || step.ReportHoldBack?) && step.c.job.id == id && ClaimedBy(s.store, step.c.job))
    case (Failed, Waiting) => step.StartOver? && step.id == id
    case (_, Failed) => from == Failed || (step.ReportFail? && step.c.job.id == id && ClaimedBy(s.store, step.c.job))
    case (_, Finished) => from == Finished || (step.ReportDone? && step.c.job.id == id && ClaimedBy(s.store, step.c.job))
    case (_, _) => from == to
  }

  lemma StatusMovesTake(s: Sys, step: Step, id: nat)
    requires Conserved(s) && Enabled(s, step) && Conserved(Next(s, step)) && 1 <= id <= s.store.last
    requires step.Take? || step.StartOver?
    ensures Moved(s, step, id, StatusOf(s, id), StatusOf(Next(s, step), id))
  {
  }

  lemma StatusMovesReport(s: Sys, step: Step, id: nat)
    requires Conserved(s) && Enabled(s, step) && Conserved(Next(s, step)) && 1 <= id <= s.store.last
    requires Reports(step)
    ensures Moved(s, step, id, StatusOf(s, id), StatusOf(Next(s, step), id))
  {
  }

  /** A job that is as done, as failed and as held as it was has the status it had. */
  lemma StatusStays(s: Sys, t: Sys, id: nat)
    requires (id in s.done <==> id in t.done) && (id in s.store.jobs <==> id in t.store.jobs) && (id in s.store.jobs || id in s.done)
    requires id in s.store.jobs ==>
               s.store.jobs[id].failed == t.store.jobs[id].failed &&
               (s.store.jobs[id].heldUntil > s.clock <==> t.store.jobs[id].heldUntil > t.clock)
    ensures StatusOf(t, id) == StatusOf(s, id)
  {
  }

  lemma PutBackOthers(s: Store, j: Job, until: Time, id: nat)
    requires id in s.jobs
    ensures id in HoldBack(s, j, until).jobs && HoldBack(s, j, until).jobs.Keys == s.jobs.Keys
    ensures HoldBack(s, j, until).jobs[id] == if id == j.id && ClaimedBy(s, j) then PutBack(s, j) else s.jobs[id]
  {
  }

  lemma StatusMovesBack(s: Sys, step: Step, id: nat)
    requires Conserved(s) && Enabled(s, step) && Conserved(Next(s, step)) && 1 <= id <= s.store.last
    requires step.ReportHoldBack?
    ensures Moved(s, step, id, StatusOf(s, id), StatusOf(Next(s, step), id))
  {
    var t := Next(s, step);
    var j := step.c.job.(key := step.key);
    assert t.done == s.done && t.clock == s.clock && t.store == HoldBack(s.store, j, step.until);
    if id in s.store.jobs {
      PutBackOthers(s.store, j, step.until, id);
      if id != j.id || !ClaimedBy(s.store, j) {
        StatusStays(s, t, id);
      }
    }
  }

  lemma PushKeepsHolds(s: Sys, step: Step, id: nat)
    requires Enabled(s, step) && Pushes(step) && id in s.store.jobs && id <= s.store.last
    ensures var t := Next(s, step);
      && id in t.store.jobs && t.done == s.done && (!step.Tick? ==> t.clock == s.clock)
      && t.store.jobs[id].failed == s.store.jobs[id].failed && t.store.jobs[id].heldUntil == s.store.jobs[id].heldUntil
  {
  }

  lemma StatusMovesPush(s: Sys, step: Step, id: nat)
    requires Conserved(s) && Enabled(s, step) && Conserved(Next(s, step)) && 1 <= id <= s.store.last
    requires Pushes(step)
    ensures Moved(s, step, id, StatusOf(s, id), StatusOf(Next(s, step), id))
  {
    if id in s.store.jobs {
      PushKeepsHolds(s, step, id);
      if !step.Tick? {
        StatusStays(s, Next(s, step), id);
      }
    }
  }

  lemma ConservedThere(s: Sys, step: Step)
    requires Reached(s) && Enabled(s, step)
    ensures Conserved(s) && Conserved(Next(s, step)) && Next(s, step).store.last >= s.store.last
  {
    ReachedHolds(s);
    ConservedNext(s, step);
    LastGrows(s, step);
  }

  lemma StatusMovesNext(s: Sys, step: Step, id: nat)
    requires Conserved(s) && Enabled(s, step) && Conserved(Next(s, step)) && 1 <= id <= s.store.last
    ensures Moved(s, step, id, StatusOf(s, id), StatusOf(Next(s, step), id))
  {
    if Pushes(step) {
      StatusMovesPush(s, step, id);
    } else if Reports(step) {
      StatusMovesReport(s, step, id);
    } else if step.ReportHoldBack? {
      StatusMovesBack(s, step, id);
    } else {
      StatusMovesTake(s, step, id);
    }
  }

  /** Every step moves every job as Moved says: a job done stays done, and only a Done its claim reports makes one so. */
  lemma StatusMoves(s: Sys, step: Step, id: nat)
    requires Reached(s) && Enabled(s, step) && 1 <= id <= s.store.last
    ensures id in s.store.jobs || id in s.done
    ensures id in Next(s, step).store.jobs || id in Next(s, step).done
    ensures Moved(s, step, id, StatusOf(s, id), StatusOf(Next(s, step), id))
  {
    ConservedThere(s, step);
    StatusMovesNext(s, step, id);
  }

  /** At any time from now on, claims hold at most n jobs of a kind whose jobs all say n, and one of a one-at-a-time key. */
  lemma LimitsHold(s: Sys, kind: string, n: nat, at: nat)
    requires Reached(s) && at >= s.clock && n >= 1
    requires forall id :: id in s.store.jobs && s.store.jobs[id].job.kind == kind ==> s.store.jobs[id].job.atOnce == n
    ensures |HeldOfKind(s.store.jobs, kind, at)| <= n
  {
    ReachedHolds(s);
    Later(s.store.jobs, s.clock, at);
    assert HeldOfKind(s.store.jobs, kind, at) == HeldWithin(s.store.jobs, kind, n, at);
  }

  lemma OneAtATime(s: Sys, a: nat, b: nat, at: nat)
    requires Reached(s) && at >= s.clock && a in s.store.jobs && b in s.store.jobs
    requires s.store.jobs[a].job.kind == s.store.jobs[b].job.kind && s.store.jobs[a].alone == s.store.jobs[b].alone != ""
    requires s.store.jobs[a].heldUntil > at && s.store.jobs[b].heldUntil > at
    ensures a == b
  {
    ReachedHolds(s);
  }

  /** At most one job of a kind waits under a key, through claims, retries, hold-backs and moves; and no claim holds it. */
  lemma OneWaitsPerKey(s: Sys, a: nat, b: nat)
    requires Reached(s) && a in s.store.jobs && b in s.store.jobs && s.store.jobs[a].job.key != ""
    requires HasKey(s.store.jobs[b], s.store.jobs[a].job.kind, s.store.jobs[a].job.key)
    ensures a == b && s.store.jobs[a].heldUntil == ZERO_TIME
  {
    ReachedHolds(s);
  }

  lemma {:induction false} HeldBackStays(s: Sys, steps: seq<Step>, kind: string, until: Time)
    requires CanRun(s, steps) && HeldBackUntil(s.store, kind) >= until
    ensures HeldBackUntil(After(s, steps).store, kind) >= until
    decreases |steps|
  {
    if steps != [] {
      HeldBackStays(Next(s, steps[0]), steps[1..], kind, until);
    }
  }

  /** Once a report held a kind back until a time, no claim of the kind comes before it, whatever runs between. */
  lemma HeldBackKindWaits(s: Sys, c: Claimed, key: string, until: Time, steps: seq<Step>, id: nat, hold: Time)
    requires Enabled(s, ReportHoldBack(c, key, until))
    requires CanRun(Next(s, ReportHoldBack(c, key, until)), steps)
    requires var s' := After(Next(s, ReportHoldBack(c, key, until)), steps);
      Enabled(s', Take(id, hold)) && s'.store.jobs[id].job.kind == c.job.kind
    ensures After(Next(s, ReportHoldBack(c, key, until)), steps).clock >= until
  {
    HeldBackStays(Next(s, ReportHoldBack(c, key, until)), steps, c.job.kind, until);
  }

  /**
   A step of a run in which the job always fails, of a kind of n attempts: its worker reports Retry before the last
   attempt and Fail at it, or holds it back, and is never lost, so each claim of it is reported before the next.
   */
  ghost predicate FailsEachTime(s: Sys, step: Step, id: nat, n: nat) {
    match step
    case Take(taken, _) => taken == id ==> forall c :: c in s.out ==> c.job.id != id
    case ReportDone(c) => c.job.id != id
    case ReportRetry(c, _, _) => c.job.id == id ==> c.job.attempts < n
    case ReportFail(c, _, _, _) => c.job.id == id ==> c.job.attempts >= n
    case Crash(c) => c.job.id != id
    case StartOver(again, _) => again != id
    case _ => true
  }

  /** How many times a step's worker ran the job's handler, which a hold-back does not. */
  function RunsOf(step: Step, id: nat): nat {
    if (step.ReportRetry? || step.ReportFail?) && step.c.job.id == id then 1 else 0
  }

  /** The job after the handler has run so many times and failed each time. */
  ghost predicate FailedSoFar(s: Sys, id: nat, n: nat, runs: nat) {
    && id in s.store.jobs
    && (forall c, d :: c in s.out && d in s.out && c.job.id == id && d.job.id == id ==> c == d)
    && (forall c :: c in s.out && c.job.id == id ==> ClaimedBy(s.store, c.job) && c.job.attempts == runs + 1)
    && (if s.store.jobs[id].failed then runs == n
        else runs < n && ((forall c :: c in s.out ==> c.job.id != id) ==> s.store.jobs[id].job.attempts == runs))
  }

  lemma FailsOncePush(s: Sys, step: Step, id: nat, n: nat, runs: nat)
    requires Conserved(s) && Enabled(s, step) && FailedSoFar(s, id, n, runs) && FailsEachTime(s, step, id, n)
    requires Pushes(step)
    ensures FailedSoFar(Next(s, step), id, n, runs + RunsOf(step, id))
  {
  }

  lemma FailsOnceTake(s: Sys, step: Step, id: nat, n: nat, runs: nat)
    requires Conserved(s) && Enabled(s, step) && FailedSoFar(s, id, n, runs) && FailsEachTime(s, step, id, n)
    requires step.Take? || step.StartOver?
    ensures FailedSoFar(Next(s, step), id, n, runs + RunsOf(step, id))
  {
  }

  lemma FailsOnceReport(s: Sys, step: Step, id: nat, n: nat, runs: nat)
    requires Conserved(s) && Enabled(s, step) && FailedSoFar(s, id, n, runs) && FailsEachTime(s, step, id, n)
    requires Reports(step) || step.ReportHoldBack?
    ensures FailedSoFar(Next(s, step), id, n, runs + RunsOf(step, id))
  {
    var c := step.c;
    if c.job.id != id {
      assert forall d :: d in Next(s, step).out && d.job.id == id ==> d in s.out;
      assert Next(s, step).store.jobs[id] == s.store.jobs[id];
    }
  }

  function TotalRuns(steps: seq<Step>, id: nat): nat {
    if steps == [] then 0 else RunsOf(steps[0], id) + TotalRuns(steps[1..], id)
  }

  ghost predicate AlwaysFails(s: Sys, steps: seq<Step>, id: nat, n: nat)
    requires CanRun(s, steps)
    decreases |steps|
  {
    steps != [] ==> FailsEachTime(s, steps[0], id, n) && AlwaysFails(Next(s, steps[0]), steps[1..], id, n)
  }

  lemma {:induction false} FailsOnAndOn(s: Sys, steps: seq<Step>, id: nat, n: nat, runs: nat)
    requires Invariant(s) && CanRun(s, steps) && AlwaysFails(s, steps, id, n) && FailedSoFar(s, id, n, runs)
    ensures FailedSoFar(After(s, steps), id, n, runs + TotalRuns(steps, id))
    decreases |steps|
  {
    if steps != [] {
      var step := steps[0];
      InvariantNext(s, step);
      if Pushes(step) {
        FailsOncePush(s, step, id, n, runs);
      } else if step.Take? || step.StartOver? {
        FailsOnceTake(s, step, id, n, runs);
      } else {
        FailsOnceReport(s, step, id, n, runs);
      }
      FailsOnAndOn(Next(s, step), steps[1..], id, n, runs + RunsOf(step, id));
    }
  }

  /** A job that is kept, with no attempts made and no claim of it unreported. */
  ghost predicate Untried(s: Sys, id: nat) {
    id in s.store.jobs && !s.store.jobs[id].failed && s.store.jobs[id].job.attempts == 0 &&
    forall c :: c in s.out ==> c.job.id != id
  }

  /** Every push that keeps a job keeps one untried, and a failed job started over is untried again. */
  lemma StartsUntried(s: Sys, step: Step, id: nat)
    requires Reached(s) && Enabled(s, step)
    requires id !in s.store.jobs || (step.StartOver? && step.id == id && s.store.jobs[id].failed)
    requires id in Next(s, step).store.jobs
    ensures Untried(Next(s, step), id)
  {
    ReachedHolds(s);
    if id !in s.store.jobs {
      OnlyPushesAdd(s, step, id);
    }
  }

  lemma OnlyPushesAdd(s: Sys, step: Step, id: nat)
    requires Ledger(s) && Enabled(s, step) && id !in s.store.jobs && id in Next(s, step).store.jobs
    ensures Pushes(step) && id == s.store.last + 1 && Untried(Next(s, step), id)
  {
    assert forall c :: c in s.out ==> c.job.id <= s.store.last;
  }

  /**
   An untried job that always fails from then on, of a kind of n attempts, has run exactly n times when it is kept as
   failed, and fewer before, however often it was held back and whatever the other jobs did.
   */
  lemma RunsExactlyItsAttempts(s: Sys, id: nat, steps: seq<Step>, n: nat)
    requires Reached(s) && Untried(s, id) && n >= 1
    requires CanRun(s, steps) && AlwaysFails(s, steps, id, n)
    ensures var k := After(s, steps).store.jobs;
      id in k && if k[id].failed then TotalRuns(steps, id) == n else TotalRuns(steps, id) < n
  {
    ReachedHolds(s);
    FailsOnAndOn(s, steps, id, n, 0);
  }

  /**
   A claim held back leaves its job as it was before the claim, but for a hold that had run out, exactly when the job
   had the key it is given, or another job has taken that key: a retried job, which let its key go, gets it back.
   */
  lemma HoldBackUndoesClaim(s: Store, id: nat, now: nat, hold: Time, key: string, until: Time)
    requires Claimable(s, id, now) && s.jobs[id].job.id == id
    ensures var before := s.jobs[id];
      var claimed := Claim(s, id, hold);
      var after := HoldBack(claimed, claimed.jobs[id].job.(key := key), until).jobs[id];
      && after.heldUntil <= now
      && after.(heldUntil := before.heldUntil, job := after.job.(key := before.job.key)) == before
      && (after.job == before.job <==>
            before.job.key == if KeyWaits(claimed.jobs, before.job.kind, key) then "" else key)
  {
  }

  lemma {:induction false} OneMore(s: Sys, steps: seq<Step>, step: Step)
    requires CanRun(s, steps) && Enabled(After(s, steps), step)
    ensures CanRun(s, steps + [step]) && After(s, steps + [step]) == Next(After(s, steps), step)
    decreases |steps|
  {
    if steps == [] {
      assert steps + [step] == [step];
      assert After(Next(s, step), []) == Next(s, step);
    } else {
      OneMore(Next(s, steps[0]), steps[1..], step);
      assert (steps + [step])[1..] == steps[1..] + [step];
    }
  }

  lemma ReachedNext(s: Sys, step: Step)
    requires Reached(s) && Enabled(s, step)
    ensures Reached(Next(s, step))
  {
    var steps :| CanRun(START, steps) && After(START, steps) == s;
    OneMore(START, steps, step);
  }

  lemma OnlyJob(s: Store, id: nat, k: Kept, now: Time)
    requires s.jobs == map[id := k] && !k.failed && k.job.runAt <= now && k.heldUntil <= now
    requires k.alone == "" && k.job.atOnce == 0 && HeldBackUntil(s, k.job.kind) <= now
    ensures DueSoonest(s, id, now)
  {
  }

  /** The one job of a run, taken while no claim holds it. */
  lemma TakeOnly(s: Sys, k: Kept, until: Time)
    requires Reached(s) && s.store.jobs == map[1 := k] && !k.failed && k.job.runAt <= s.clock && k.heldUntil <= s.clock
    requires k.alone == "" && k.job.atOnce == 0 && HeldBackUntil(s.store, k.job.kind) <= s.clock
    ensures Enabled(s, Take(1, until)) && Reached(Next(s, Take(1, until)))
    ensures Next(s, Take(1, until)).store == s.store.(jobs := map[1 := Held(k, until)])
    ensures Claimed(Held(k, until).job, |s.took|, until) in Next(s, Take(1, until)).out
  {
    OnlyJob(s.store, 1, k, s.clock);
    ReachedNext(s, Take(1, until));
  }

  const MAIL := Job(0, "mail", "", "", 0, 0, "", false, 0, ZERO_TIME)

  /** A job pushed and claimed, whose hold has run out. */
  lemma ClaimThatRanOut() returns (s: Sys)
    ensures Reached(s) && s.clock == 10 && s.took == [1] && s.store.held == map[]
    ensures var k := Held(Fresh(EMPTY, MAIL), 10);
      s.store.jobs == map[1 := k] && s.out == {Claimed(k.job, 0, 10)}
  {
    var k := Fresh(EMPTY, MAIL);
    assert CanRun(START, []) && After(START, []) == START;
    ReachedNext(START, PushJob(MAIL));
    var pushed := Next(START, PushJob(MAIL));
    assert pushed.store.jobs == map[1 := k];
    TakeOnly(pushed, k, 10);
    var first := Next(pushed, Take(1, 10));
    ReachedNext(first, Tick(10));
    s := Next(first, Tick(10));
  }

  /** The job claimed again, while its first claim has yet to report. */
  lemma TakenAgain() returns (s: Sys, d: Claimed)
    ensures Reached(s) && s.clock == 10 && s.took == [1, 1]
    ensures var k := Held(Fresh(EMPTY, MAIL), 10);
      d == Claimed(Held(k, 20).job, 1, 20) && s.store.jobs == map[1 := Held(k, 20)] && s.out == {Claimed(k.job, 0, 10), d}
  {
    var late := ClaimThatRanOut();
    var k := Held(Fresh(EMPTY, MAIL), 10);
    TakeOnly(late, k, 20);
    d := Claimed(Held(k, 20).job, 1, 20);
    s := Next(late, Take(1, 20));
  }

  /**
   A late report that a later claim should have silenced: a first claim's hold runs out, a second claim takes the job
   and is held back, and the first then reports Done, which removes the job while it waits.
   */
  lemma LateDoneIsHeard() returns (s: Sys, c: Claimed)
    ensures Reached(s) && c in s.out && c.until <= s.clock
    ensures c.serial + 1 < |s.took| && s.took[c.serial + 1] == c.job.id
    ensures c.job.id in s.store.jobs && c.job.id !in Next(s, ReportDone(c)).store.jobs
  {
    var k := Held(Fresh(EMPTY, MAIL), 10);
    var second, d := TakenAgain();
    c := Claimed(k.job, 0, 10);
    ReachedNext(second, ReportHoldBack(d, "", 15));
    s := Next(second, ReportHoldBack(d, "", 15));
    assert s.out == second.out - {d} && c in s.out;
    PutBackOthers(second.store, d.job.(key := ""), 15, 1);
    assert ClaimedBy(s.store, c.job);
  }

  const UNIQUE := MAIL.(key := "k")

  /** A unique job that was claimed, and put back to run again: its key went with the claim. */
  lemma RetriedUnique() returns (s: Sys)
    ensures Reached(s) && s.clock == 0 && s.took == [1] && s.out == {} && s.store.held == map[]
    ensures s.store.jobs == map[1 := Fresh(EMPTY, UNIQUE).(job := Fresh(EMPTY, UNIQUE).job.(key := "", attempts := 1))]
  {
    var k := Fresh(EMPTY, UNIQUE);
    assert CanRun(START, []) && After(START, []) == START;
    ReachedNext(START, PushOne(UNIQUE));
    var pushed := Next(START, PushOne(UNIQUE));
    assert pushed.store.jobs == map[1 := k];
    TakeOnly(pushed, k, 10);
    var c := Claimed(Held(k, 10).job, 0, 10);
    var first := Next(pushed, Take(1, 10));
    assert first.out == {c};
    ReachedNext(first, ReportRetry(c, 0, ""));
    s := Next(first, ReportRetry(c, 0, ""));
  }

  /**
   A hold-back that does not put its job back as it was: a unique job that is run again has no key, and is given its
   kind's. before is the state its claim was made in, and after the one its hold-back leaves.
   */
  lemma HoldBackGivesKey() returns (before: Sys, c: Claimed, after: Sys)
    ensures Reached(before) && Enabled(before, Take(1, 10)) && c in Next(before, Take(1, 10)).out
    ensures after == Next(Next(before, Take(1, 10)), ReportHoldBack(c, "k", 5)) && Reached(after)
    ensures before.store.jobs[1].job.key == "" && after.store.jobs[1].job.key == "k"
  {
    before := RetriedUnique();
    var k := before.store.jobs[1];
    TakeOnly(before, k, 10);
    c := Claimed(Held(k, 10).job, 1, 10);
    var held := Next(before, Take(1, 10));
    ReachedNext(held, ReportHoldBack(c, "k", 5));
    after := Next(held, ReportHoldBack(c, "k", 5));
    PutBackOthers(held.store, c.job.(key := "k"), 5, 1);
  }
}
