/**
 The queue's promises by what was pushed and reported, rather than by what a Store keeps of it: beside a run goes a
 record of each job as it was pushed, and of what was last said of it.
 */
module QueueRecord {
  import opened Options
  import opened StoreContract
  import opened HoldLimits
  import opened QueueRuns
  import QueueSafety

  /** What was last said of a job: when it is due, what it failed with, and when it failed for good. */
  datatype Said = Said(runAt: Time, error: string, failedAt: Time)

  /** A run, each job as its pusher gave it, and what was last said of it. */
  datatype Record = Record(s: Sys, asked: map<nat, Job>, said: map<nat, Said>)

  const BLANK := Record(START, map[], map[])

  function Pushing(step: Step): Option<Job> {
    match step
    case PushJob(j) => Some(j)
    case PushOne(j) => Some(j)
    case PushLast(j, _) => Some(j)
    case PushRun(_, j) => Some(j)
    case _ => None
  }

  /** The record of what is said in a step, of a job that is kept, and of a claim whose report is heard. */
  ghost function SaidIn(r: Record, step: Step): map<nat, Said>
    requires Enabled(r.s, step)
  {
    var s, last := r.s, Next(r.s, step).store.last;
    if last > s.store.last && Pushing(step).Some? then
      var j := Pushing(step).value; r.said[last := Said(j.runAt, j.error, j.failedAt)]
    else
      match step
      case PushLast(j, id) => if id in r.said then r.said[id := r.said[id].(runAt := j.runAt)] else r.said
      case ReportRetry(c, runAt, error) =>
        if ClaimedBy(s.store, c.job) && c.job.id in r.said then
          r.said[c.job.id := r.said[c.job.id].(runAt := runAt, error := error)]
        else r.said
      case ReportFail(c, error, failedAt, clock) =>
        if ClaimedBy(s.store, c.job) && c.job.id in r.said then
          r.said[c.job.id := r.said[c.job.id].(error := error, failedAt := if failedAt == 0 then clock else failedAt)]
        else r.said
      case StartOver(id, at) =>
        if id in s.store.jobs && s.store.jobs[id].failed && id in r.said then
          r.said[id := r.said[id].(runAt := at, failedAt := 0)]
        else r.said
      case _ => r.said
  }

  ghost function Recorded(r: Record, step: Step): Record
    requires Enabled(r.s, step)
  {
    var t := Next(r.s, step);
    Record(t,
           if t.store.last > r.s.store.last && Pushing(step).Some? then r.asked[t.store.last := Pushing(step).value] else r.asked,
           SaidIn(r, step))
  }

  ghost function RecordOf(r: Record, steps: seq<Step>): Record
    requires CanRun(r.s, steps)
    decreases |steps|
  {
    if steps == [] then r else RecordOf(Recorded(r, steps[0]), steps[1..])
  }

  /** The job as it was pushed, but for its ID, its claims and what was said of it since. */
  predicate AsPushed(k: Kept, j: Job) {
    && k.job.kind == j.kind && k.job.payload == j.payload && k.job.oneAtATime == j.oneAtATime && k.job.atOnce == j.atOnce
    && k.alone == if j.oneAtATime then j.key else ""
  }

  predicate AsSaid(k: Kept, said: Said) {
    k.job.runAt == said.runAt && k.job.error == said.error && k.job.failedAt == said.failedAt
  }

  ghost predicate Matches(r: Record) {
    && (forall id :: id in r.asked <==> 1 <= id <= r.s.store.last) && r.said.Keys == r.asked.Keys
    && (forall id :: id in r.s.store.jobs ==> id in r.asked && id in r.said && AsPushed(r.s.store.jobs[id], r.asked[id]))
    && (forall id :: id in r.s.store.jobs ==> AsSaid(r.s.store.jobs[id], r.said[id]))
  }

  /** A step that says something of at most one job, and leaves all others as they were. */
  lemma OneSaid(r: Record, t: Sys, id: nat, said: map<nat, Said>)
    requires Matches(r) && t.store.last == r.s.store.last && t.store.jobs.Keys <= r.s.store.jobs.Keys && said.Keys == r.said.Keys
    requires forall k :: k in t.store.jobs && k != id ==> t.store.jobs[k] == r.s.store.jobs[k] && said[k] == r.said[k]
    requires id in t.store.jobs ==> AsPushed(t.store.jobs[id], r.asked[id]) && AsSaid(t.store.jobs[id], said[id])
    ensures Matches(Record(t, r.asked, said))
  {
  }

  lemma NewSaid(r: Record, t: Sys, j: Job, said: map<nat, Said>)
    requires Matches(r) && t.store.last == r.s.store.last + 1 && t.store.jobs == r.s.store.jobs[t.store.last := Fresh(r.s.store, j)]
    requires said == r.said[t.store.last := Said(j.runAt, j.error, j.failedAt)]
    ensures Matches(Record(t, r.asked[t.store.last := j], said))
  {
  }

  lemma RecordedPush(r: Record, step: Step)
    requires Invariant(r.s) && Matches(r) && Enabled(r.s, step) && Pushing(step).Some?
    ensures Matches(Recorded(r, step))
  {
    var t := Next(r.s, step);
    assert Conserved(r.s);
    if t.store.last > r.s.store.last {
      NewSaid(r, t, Pushing(step).value, SaidIn(r, step));
    } else if step.PushLast? {
      OneSaid(r, t, step.id, SaidIn(r, step));
    } else {
      OneSaid(r, t, 0, SaidIn(r, step));
    }
  }

  lemma RecordedRetry(r: Record, step: Step)
    requires Invariant(r.s) && Matches(r) && Enabled(r.s, step) && step.ReportRetry?
    ensures Matches(Recorded(r, step))
  {
    OneSaid(r, Next(r.s, step), step.c.job.id, SaidIn(r, step));
  }

  lemma RecordedFail(r: Record, step: Step)
    requires Invariant(r.s) && Matches(r) && Enabled(r.s, step) && step.ReportFail?
    ensures Matches(Recorded(r, step))
  {
    OneSaid(r, Next(r.s, step), step.c.job.id, SaidIn(r, step));
  }

  lemma RecordedBack(r: Record, step: Step)
    requires Invariant(r.s) && Matches(r) && Enabled(r.s, step) && step.ReportHoldBack?
    ensures Matches(Recorded(r, step))
  {
    var j := step.c.job.(key := step.key);
    forall id | id in r.s.store.jobs
      ensures id in HoldBack(r.s.store, j, step.until).jobs
      ensures HoldBack(r.s.store, j, step.until).jobs[id] ==
              if id == j.id && ClaimedBy(r.s.store, j) then PutBack(r.s.store, j) else r.s.store.jobs[id]
    {
      QueueSafety.PutBackOthers(r.s.store, j, step.until, id);
    }
    OneSaid(r, Next(r.s, step), step.c.job.id, SaidIn(r, step));
  }

  lemma RecordedOther(r: Record, step: Step)
    requires Invariant(r.s) && Matches(r) && Enabled(r.s, step) && (step.ReportDone? || step.Crash? || step.Tick?)
    ensures Matches(Recorded(r, step))
  {
    OneSaid(r, Next(r.s, step), 0, SaidIn(r, step));
  }

  lemma RecordedTake(r: Record, step: Step)
    requires Invariant(r.s) && Matches(r) && Enabled(r.s, step) && step.Take?
    ensures Matches(Recorded(r, step))
  {
    OneSaid(r, Next(r.s, step), step.id, SaidIn(r, step));
  }

  lemma RecordedOver(r: Record, step: Step)
    requires Invariant(r.s) && Matches(r) && Enabled(r.s, step) && step.StartOver?
    ensures Matches(Recorded(r, step))
  {
    var store := RunAgain(r.s.store, step.id, step.at);
    assert Next(r.s, step).store == store && store.last == r.s.store.last;
    OneSaid(r, Next(r.s, step), step.id, SaidIn(r, step));
  }

  lemma MatchesNext(r: Record, step: Step)
    requires Invariant(r.s) && Matches(r) && Enabled(r.s, step)
    ensures Matches(Recorded(r, step))
  {
    if Pushing(step).Some? {
      RecordedPush(r, step);
    } else if step.ReportRetry? {
      RecordedRetry(r, step);
    } else if step.ReportFail? {
      RecordedFail(r, step);
    } else if step.ReportHoldBack? {
      RecordedBack(r, step);
    } else if step.Take? {
      RecordedTake(r, step);
    } else if step.StartOver? {
      RecordedOver(r, step);
    } else {
      RecordedOther(r, step);
    }
  }

  // Before its first claim, and as a claim returns it.

  /** A job that no claim has taken waits with the key it was pushed with; and a claim returned what was pushed. */
  ghost predicate Untaken(r: Record) {
    && (forall n :: 0 <= n < |r.s.took| ==> 1 <= r.s.took[n] <= r.s.store.last)
    && (forall id :: id in r.s.store.jobs && id !in r.s.took ==>
          id in r.asked && r.s.store.jobs[id].job.key == r.asked[id].key && !r.s.store.jobs[id].failed)
    && (forall c :: c in r.s.out ==>
          c.job.id in r.asked && c.job.kind == r.asked[c.job.id].kind && c.job.payload == r.asked[c.job.id].payload)
  }

  lemma ClaimTook(s: Sys, c: Claimed)
    requires Invariant(s) && c in s.out
    ensures c.job.id in s.took
  {
    var counts := s.counted[c.job.id];
    assert CountsOf(counts, s.since[c.job.id], s.took, s.back, c.job.id);
    assert c.serial in counts;
    assert s.took[c.serial] == c.job.id;
  }

  /** A step that takes no job, and touches no key of one that has not been taken. */
  lemma UntakenSame(r: Record, t: Record)
    requires Untaken(r) && t.s.took == r.s.took && t.s.out <= r.s.out && t.s.store.last >= r.s.store.last
    requires forall id :: id in r.asked && id <= r.s.store.last ==> id in t.asked && t.asked[id] == r.asked[id]
    requires forall id :: id in r.asked ==> id <= r.s.store.last
    requires forall id :: id in t.s.store.jobs && id !in r.s.took ==>
               id in t.asked && !t.s.store.jobs[id].failed && t.s.store.jobs[id].job.key == t.asked[id].key
    ensures Untaken(t)
  {
  }

  /** A push that keeps a job keeps it under the next ID, with the key it was pushed with. */
  lemma NewKey(s: Sys, step: Step)
    requires Enabled(s, step) && Pushes(step) && Next(s, step).store.last > s.store.last
    ensures var t := Next(s, step).store;
      && Pushing(step).Some? && t.last == s.store.last + 1 && t.last in t.jobs
      && !t.jobs[t.last].failed && t.jobs[t.last].job.key == Pushing(step).value.key
  {
    if step.PushLast? {
      assert !Moves(s.store, step.j, step.id);
    }
  }

  lemma UntakenPush(r: Record, step: Step)
    requires Invariant(r.s) && Matches(r) && Untaken(r) && Enabled(r.s, step) && Pushes(step)
    ensures Untaken(Recorded(r, step))
  {
    PushGrows(r.s, step);
    if Next(r.s, step).store.last > r.s.store.last {
      NewKey(r.s, step);
    }
    GrownUntaken(r, Recorded(r, step), if Pushing(step).Some? then Pushing(step).value.key else "");
  }

  lemma GrownUntaken(r: Record, t: Record, key: string)
    requires Matches(r) && Untaken(r) && Grown(r.s, t.s)
    requires if t.s.store.last == r.s.store.last then t.asked == r.asked
             else
               var id := t.s.store.last;
               t.asked.Keys == r.asked.Keys + {id} && (forall k :: k in r.asked ==> t.asked[k] == r.asked[k]) && t.asked[id].key == key
               && t.s.store.jobs[id].job.key == key && !t.s.store.jobs[id].failed
    ensures Untaken(t)
  {
    UntakenSame(r, t);
  }

  lemma UntakenTake(r: Record, step: Step)
    requires Invariant(r.s) && Matches(r) && Untaken(r) && Enabled(r.s, step) && step.Take?
    ensures Untaken(Recorded(r, step))
  {
    var t := Next(r.s, step);
    assert t.took == r.s.took + [step.id] && Conserved(r.s);
    forall id | id in t.store.jobs && id !in t.took
      ensures t.store.jobs[id] == r.s.store.jobs[id] && id !in r.s.took
    {
      assert t.took[|r.s.took|] == step.id;
      assert forall n :: 0 <= n < |r.s.took| ==> t.took[n] == r.s.took[n];
    }
  }

  lemma UntakenReport(r: Record, step: Step)
    requires Invariant(r.s) && Matches(r) && Untaken(r) && Enabled(r.s, step) && Reports(step)
    ensures Untaken(Recorded(r, step))
  {
    ClaimTook(r.s, step.c);
  }

  lemma UntakenBack(r: Record, step: Step)
    requires Invariant(r.s) && Matches(r) && Untaken(r) && Enabled(r.s, step) && step.ReportHoldBack?
    ensures Untaken(Recorded(r, step))
  {
    ClaimTook(r.s, step.c);
    var t, j := Recorded(r, step), step.c.job.(key := step.key);
    assert t.s.store == HoldBack(r.s.store, j, step.until) && t.s.took == r.s.took;
    forall id | id in t.s.store.jobs && id !in r.s.took
      ensures id in r.s.store.jobs && t.s.store.jobs[id] == r.s.store.jobs[id]
    {
      BackOthers(r.s.store, j, step.until, id);
    }
    UntakenSame(r, t);
  }

  lemma BackOthers(s: Store, j: Job, until: Time, id: nat)
    requires id in HoldBack(s, j, until).jobs
    ensures id in s.jobs && (id != j.id ==> HoldBack(s, j, until).jobs[id] == s.jobs[id])
  {
  }

  lemma UntakenOver(r: Record, step: Step)
    requires Invariant(r.s) && Matches(r) && Untaken(r) && Enabled(r.s, step) && step.StartOver?
    ensures Untaken(Recorded(r, step))
  {
    var store := RunAgain(r.s.store, step.id, step.at);
    assert Next(r.s, step).store == store && store.last == r.s.store.last;
  }

  lemma UntakenNext(r: Record, step: Step)
    requires Invariant(r.s) && Matches(r) && Untaken(r) && Enabled(r.s, step)
    ensures Untaken(Recorded(r, step))
  {
    if Pushes(step) {
      UntakenPush(r, step);
    } else if step.Take? {
      UntakenTake(r, step);
    } else if Reports(step) {
      UntakenReport(r, step);
    } else if step.ReportHoldBack? {
      UntakenBack(r, step);
    } else {
      UntakenOver(r, step);
    }
  }

  ghost predicate Right(r: Record) {
    Invariant(r.s) && Matches(r) && Untaken(r)
  }

  lemma {:induction false} RightAfter(r: Record, steps: seq<Step>)
    requires Right(r) && CanRun(r.s, steps)
    ensures Right(RecordOf(r, steps))
    decreases |steps|
  {
    if steps != [] {
      InvariantNext(r.s, steps[0]);
      MatchesNext(r, steps[0]);
      UntakenNext(r, steps[0]);
      RightAfter(Recorded(r, steps[0]), steps[1..]);
    }
  }

  /** The record of some run. */
  ghost predicate OfRun(r: Record) {
    exists steps :: CanRun(START, steps) && RecordOf(BLANK, steps) == r
  }

  lemma RecordedIsRight(r: Record)
    requires OfRun(r)
    ensures Right(r)
  {
    var steps :| CanRun(START, steps) && RecordOf(BLANK, steps) == r;
    StartHolds();
    RightAfter(BLANK, steps);
  }

  // What that says, by what was pushed and reported.

  /** No two jobs pushed to run one at a time, of a kind and a key, are held at once, whatever was done with them since. */
  lemma OneAtATimeByPush(r: Record, a: nat, b: nat, at: nat)
    requires OfRun(r) && at >= r.s.clock && a in r.s.store.jobs && b in r.s.store.jobs && a in r.asked && b in r.asked
    requires r.asked[a].oneAtATime && r.asked[b].oneAtATime && r.asked[a].kind == r.asked[b].kind
    requires r.asked[a].key == r.asked[b].key != ""
    requires r.s.store.jobs[a].heldUntil > at && r.s.store.jobs[b].heldUntil > at
    ensures a == b
  {
    RecordedIsRight(r);
    assert Alone(r.s.store.jobs, r.s.clock);
  }

  /** So no two claims of such jobs last at once. */
  lemma OneClaimAtATime(r: Record, c: Claimed, d: Claimed)
    requires OfRun(r) && c in r.s.out && d in r.s.out && c.until > r.s.clock && d.until > r.s.clock
    requires c.job.id in r.asked && d.job.id in r.asked
    requires var a, b := r.asked[c.job.id], r.asked[d.job.id];
      a.oneAtATime && b.oneAtATime && a.kind == b.kind && a.key == b.key != ""
    ensures c == d
  {
    RecordedIsRight(r);
    OneAtATimeByPush(r, c.job.id, d.job.id, r.s.clock);
  }

  /** No more than n jobs of a kind are held at once, when all that are kept of it were pushed with that limit. */
  lemma LimitByPush(r: Record, kind: string, n: nat, at: nat)
    requires OfRun(r) && at >= r.s.clock && n >= 1
    requires forall id :: id in r.s.store.jobs && id in r.asked && r.asked[id].kind == kind ==> r.asked[id].atOnce == n
    ensures |set id | id in r.s.store.jobs && id in r.asked && r.asked[id].kind == kind && r.s.store.jobs[id].heldUntil > at| <= n
  {
    RecordedIsRight(r);
    var held := set id | id in r.s.store.jobs && id in r.asked && r.asked[id].kind == kind && r.s.store.jobs[id].heldUntil > at;
    Later(r.s.store.jobs, r.s.clock, at);
    assert held == HeldWithin(r.s.store.jobs, kind, n, at);
  }

  /** No two jobs that were pushed under one key of a kind wait for their first claims. */
  lemma OneWaitsByPush(r: Record, a: nat, b: nat)
    requires OfRun(r) && a in r.s.store.jobs && b in r.s.store.jobs && a in r.asked && b in r.asked
    requires r.asked[a].kind == r.asked[b].kind && r.asked[a].key == r.asked[b].key != ""
    requires a !in r.s.took && b !in r.s.took
    ensures a == b
  {
    RecordedIsRight(r);
    assert KeysUnique(r.s.store.jobs);
  }

  /** A claim comes no sooner than its job was last said to be due, of a job not kept as failed, and returns what was pushed. */
  lemma ClaimsAsSaid(r: Record, id: nat, until: Time)
    requires OfRun(r) && Enabled(r.s, Take(id, until))
    ensures id in r.asked && id in r.said && r.said[id].runAt <= r.s.clock && !r.s.store.jobs[id].failed
    ensures forall c :: c in Next(r.s, Take(id, until)).out && c !in r.s.out ==>
              && c.job.id == id && c.job.kind == r.asked[id].kind && c.job.payload == r.asked[id].payload
              && c.job.runAt == r.said[id].runAt && c.job.error == r.said[id].error && c.until == until
  {
    RecordedIsRight(r);
    assert Conserved(r.s);
  }

  /** Others of its kind that claims hold. */
  function HeldBeside(r: Record, kind: string): set<nat> {
    set id | id in r.s.store.jobs && id in r.asked && r.asked[id].kind == kind && r.s.store.jobs[id].heldUntil > r.s.clock
  }

  /** A job pushed to run one at a time has another of its key running. */
  ghost predicate HasToWait(r: Record, id: nat)
    requires id in r.asked
  {
    r.asked[id].oneAtATime && r.asked[id].key != "" &&
    exists other :: other != id && other in HeldBeside(r, r.asked[id].kind) && r.asked[other].oneAtATime &&
                    r.asked[other].key == r.asked[id].key
  }

  /**
   A job may be claimed: it is kept, has not failed for good, is due as was last said, and is held by no claim; its kind is
   not held back, no other that it was pushed to run apart from is held, and fewer of its kind are than it was pushed with.
   */
  ghost predicate MayTake(r: Record, id: nat) {
    && id in r.s.store.jobs && id in r.asked && id in r.said
    && var j, k := r.asked[id], r.s.store.jobs[id];
       && !k.failed && r.said[id].runAt <= r.s.clock && k.heldUntil <= r.s.clock
       && (j.kind in r.s.store.held ==> r.s.store.held[j.kind] <= r.s.clock)
       && !HasToWait(r, id) && (j.atOnce != 0 ==> |HeldBeside(r, j.kind)| < j.atOnce)
  }

  lemma ClaimableBySaid(r: Record, id: nat)
    requires OfRun(r)
    ensures Claimable(r.s.store, id, r.s.clock) <==> MayTake(r, id)
  {
    RecordedIsRight(r);
    if id in r.s.store.jobs {
      var kind := r.asked[id].kind;
      assert HeldBeside(r, kind) == HeldOfKind(r.s.store.jobs, kind, r.s.clock);
      WaitsBySaid(r, id);
    }
  }

  lemma WaitsBySaid(r: Record, id: nat)
    requires Matches(r) && id in r.s.store.jobs
    ensures RunsBeside(r.s.store.jobs, id, r.s.clock) <==> HasToWait(r, id)
  {
    var jobs := r.s.store.jobs;
    if RunsBeside(jobs, id, r.s.clock) {
      var other :| other in jobs && other != id && jobs[other].job.kind == jobs[id].job.kind &&
                   jobs[other].alone == jobs[id].alone && jobs[other].heldUntil > r.s.clock;
      assert other in HeldBeside(r, r.asked[id].kind);
    }
    if HasToWait(r, id) {
      var other :| other != id && other in HeldBeside(r, r.asked[id].kind) && r.asked[other].oneAtATime &&
                   r.asked[other].key == r.asked[id].key;
      assert jobs[other].alone == jobs[id].alone && jobs[other].job.kind == jobs[id].job.kind;
    }
  }

  /** A claim takes a job exactly when it may, and none that may is due before it. */
  lemma TakesExactly(r: Record, id: nat, until: Time)
    requires OfRun(r)
    ensures Enabled(r.s, Take(id, until)) <==>
            MayTake(r, id) && forall other :: MayTake(r, other) ==> r.said[id].runAt <= r.said[other].runAt
  {
    RecordedIsRight(r);
    forall other
      ensures Claimable(r.s.store, other, r.s.clock) <==> MayTake(r, other)
      ensures MayTake(r, other) ==> r.s.store.jobs[other].job.runAt == r.said[other].runAt
    {
      ClaimableBySaid(r, other);
    }
  }

  /** A job that is kept is due when it was last said to be, with what it last failed with. */
  lemma KeptAsSaid(r: Record, id: nat)
    requires OfRun(r) && id in r.s.store.jobs
    ensures id in r.asked && id in r.said
    ensures var k := r.s.store.jobs[id];
      && k.job.kind == r.asked[id].kind && k.job.payload == r.asked[id].payload
      && k.job.runAt == r.said[id].runAt && k.job.error == r.said[id].error && k.job.failedAt == r.said[id].failedAt
  {
    RecordedIsRight(r);
  }

  /** A job of the kind waits under the key. */
  ghost predicate Waits(s: Store, kind: string, key: string) {
    key != "" && exists id :: id in s.jobs && s.jobs[id].job.kind == kind && s.jobs[id].job.key == key
  }

  /** Which pushes keep a job of their own: a plain one, and of others those whose key no job waits under. */
  lemma PushesExactly(s: Sys, step: Step)
    requires Enabled(s, step) && Pushing(step).Some?
    ensures var j, t := Pushing(step).value, Next(s, step);
      t.store.last > s.store.last <==>
        step.PushJob? || (!Waits(s.store, j.kind, j.key) &&
          (step.PushRun? && step.schedule in s.store.schedules ==> s.store.schedules[step.schedule] < j.runAt))
  {
    var j := Pushing(step).value;
    assert Waits(s.store, j.kind, j.key) <==> KeyWaits(s.store.jobs, j.kind, j.key) by {
      if Waits(s.store, j.kind, j.key) {
        var id :| id in s.store.jobs && s.store.jobs[id].job.kind == j.kind && s.store.jobs[id].job.key == j.key;
        assert HasKey(s.store.jobs[id], j.kind, j.key);
      }
    }
  }

  /** The latest push of a key moves the job that waits under it, which is the one that waits after, to its own time. */
  lemma LatestMoves(r: Record, j: Job, id: nat)
    requires OfRun(r) && Enabled(r.s, PushLast(j, id)) && Waits(r.s.store, j.kind, j.key)
    ensures var t := Next(r.s, PushLast(j, id));
      && t.store.last == r.s.store.last && id in t.store.jobs && t.store.jobs[id].job.runAt == j.runAt
      && t.store.jobs[id].job.kind == j.kind && t.store.jobs[id].job.key == j.key
      && forall other :: other in r.s.store.jobs && other != id ==> other in t.store.jobs && t.store.jobs[other] == r.s.store.jobs[other]
  {
    var other :| other in r.s.store.jobs && r.s.store.jobs[other].job.kind == j.kind && r.s.store.jobs[other].job.key == j.key;
    assert HasKey(r.s.store.jobs[other], j.kind, j.key);
  }

  /** A run of a schedule goes on record exactly when it is later than the last one there. */
  lemma RunOnRecord(s: Sys, schedule: string, j: Job)
    requires Enabled(s, PushRun(schedule, j))
    ensures var t := Next(s, PushRun(schedule, j)).store;
      t.schedules == if schedule in s.store.schedules && s.store.schedules[schedule] >= j.runAt then s.store.schedules
                     else s.store.schedules[schedule := j.runAt]
  {
  }
}
