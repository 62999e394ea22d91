/**
 What a queue's Store keeps, and what each of its methods does to what it keeps: the promises of queue/store.go,
 as functions from one kept state to the next. Times are integers, and the zero time is 0.
 */
module StoreContract {

  type Time = int

  const ZERO_TIME: Time := 0

  /** A job as its pusher and its claims see it. */
  datatype Job = Job(
    id: nat, kind: string, payload: string, key: string, runAt: Time, attempts: int,
    error: string, oneAtATime: bool, atOnce: nat, failedAt: Time)

  /** A job as the Store keeps it: `alone` is the key a one-at-a-time job keeps all its life. */
  datatype Kept = Kept(job: Job, heldUntil: Time, failed: bool, alone: string)

  /** Everything kept: the jobs by ID, the run last pushed for each schedule, and until when a kind is held back. */
  datatype Store = Store(last: nat, jobs: map<nat, Kept>, schedules: map<string, Time>, held: map<string, Time>)

  const EMPTY := Store(0, map[], map[], map[])

  predicate HasKey(k: Kept, kind: string, key: string) {
    k.job.kind == kind && k.job.key == key
  }

  /** A job of the kind waits under the key, which no job has when the key is "". */
  ghost predicate KeyWaits(jobs: map<nat, Kept>, kind: string, key: string) {
    key != "" && exists id :: id in jobs && HasKey(jobs[id], kind, key)
  }

  ghost predicate KeysUnique(jobs: map<nat, Kept>) {
    forall a, b :: a in jobs && b in jobs && a != b && jobs[a].job.key != "" ==>
      !HasKey(jobs[b], jobs[a].job.kind, jobs[a].job.key)
  }

  /** The job a push keeps. */
  function Fresh(s: Store, j: Job): Kept {
    Kept(j.(id := s.last + 1), ZERO_TIME, false, if j.oneAtATime then j.key else "")
  }

  function Push(s: Store, j: Job): Store {
    s.(last := s.last + 1, jobs := s.jobs[s.last + 1 := Fresh(s, j)])
  }

  ghost function PushUnique(s: Store, j: Job): Store {
    if KeyWaits(s.jobs, j.kind, j.key) then s else Push(s, j)
  }

  /** The jobs a push of j's key may move: those that wait under it. */
  predicate Moves(s: Store, j: Job, id: nat) {
    j.key != "" && id in s.jobs && HasKey(s.jobs[id], j.kind, j.key)
  }

  /** The job with the ID, which waits under j's key, takes j's time; when none does, j is pushed. */
  function PushLatest(s: Store, j: Job, id: nat): Store {
    if Moves(s, j, id) then
      s.(jobs := s.jobs[id := s.jobs[id].(job := s.jobs[id].job.(runAt := j.runAt))])
    else Push(s, j)
  }

  /** Whether the run at j.runAt is one the schedule has not pushed, or pushed past. */
  predicate NewRun(s: Store, schedule: string, at: Time) {
    schedule in s.schedules ==> s.schedules[schedule] < at
  }

  ghost function PushScheduled(s: Store, schedule: string, j: Job): Store {
    if NewRun(s, schedule, j.runAt) then PushUnique(s, j).(schedules := s.schedules[schedule := j.runAt]) else s
  }

  function HeldBackUntil(s: Store, kind: string): Time {
    if kind in s.held then s.held[kind] else ZERO_TIME
  }

  /** The jobs of a kind that claims hold at now. */
  function HeldOfKind(jobs: map<nat, Kept>, kind: string, now: Time): set<nat> {
    set id | id in jobs && jobs[id].job.kind == kind && jobs[id].heldUntil > now
  }

  /** Another job of the same kind runs alone under the same key. */
  ghost predicate RunsBeside(jobs: map<nat, Kept>, id: nat, now: Time)
    requires id in jobs
  {
    jobs[id].alone != "" &&
    exists other :: other in jobs && other != id && jobs[other].job.kind == jobs[id].job.kind &&
                    jobs[other].alone == jobs[id].alone && jobs[other].heldUntil > now
  }

  predicate AtLimit(jobs: map<nat, Kept>, id: nat, now: Time)
    requires id in jobs
  {
    jobs[id].job.atOnce != 0 && |HeldOfKind(jobs, jobs[id].job.kind, now)| >= jobs[id].job.atOnce
  }

  /** A claim at now may return the job. */
  ghost predicate Claimable(s: Store, id: nat, now: Time) {
    id in s.jobs && !s.jobs[id].failed && s.jobs[id].job.runAt <= now && s.jobs[id].heldUntil <= now &&
    HeldBackUntil(s, s.jobs[id].job.kind) <= now && !RunsBeside(s.jobs, id, now) && !AtLimit(s.jobs, id, now)
  }

  /** The jobs a claim at now may return: those due soonest. */
  ghost predicate DueSoonest(s: Store, id: nat, now: Time) {
    Claimable(s, id, now) && forall other :: Claimable(s, other, now) ==> s.jobs[id].job.runAt <= s.jobs[other].job.runAt
  }

  /** What the claim of a job does to it: it is held, has one more attempt, and lets its key go. */
  function Held(k: Kept, until: Time): Kept {
    k.(heldUntil := until, job := k.job.(attempts := k.job.attempts + 1, key := ""))
  }

  function Claim(s: Store, id: nat, until: Time): Store
    requires id in s.jobs
  {
    s.(jobs := s.jobs[id := Held(s.jobs[id], until)])
  }

  /** Attempts tells the claims of a job apart: a report is its claim's only while they agree. */
  predicate ClaimedBy(s: Store, j: Job) {
    j.id in s.jobs && s.jobs[j.id].job.attempts == j.attempts && !s.jobs[j.id].failed
  }

  function Done(s: Store, j: Job): Store {
    if ClaimedBy(s, j) then s.(jobs := s.jobs - {j.id}) else s
  }

  function Retry(s: Store, j: Job): Store {
    if ClaimedBy(s, j) then
      var k := s.jobs[j.id];
      s.(jobs := s.jobs[j.id := k.(heldUntil := ZERO_TIME, job := k.job.(runAt := j.runAt, error := j.error))])
    else s
  }

  /** clock is the Store's own, for a job that failed at no time given. */
  function Fail(s: Store, j: Job, clock: Time): Store {
    if ClaimedBy(s, j) then
      var k := s.jobs[j.id];
      var at := if j.failedAt == ZERO_TIME then clock else j.failedAt;
      s.(jobs := s.jobs[j.id := k.(heldUntil := ZERO_TIME, failed := true,
                                   job := k.job.(error := j.error, failedAt := at))])
    else s
  }

  function HoldKind(s: Store, kind: string, until: Time): Store {
    if until > HeldBackUntil(s, kind) then s.(held := s.held[kind := until]) else s
  }

  /** The job back as before its claim, with the key it is given unless another job waits under that. */
  ghost function PutBack(s: Store, j: Job): Kept
    requires j.id in s.jobs
  {
    var k := s.jobs[j.id];
    var key := if KeyWaits(s.jobs, j.kind, j.key) then k.job.key else j.key;
    k.(heldUntil := ZERO_TIME, job := k.job.(attempts := k.job.attempts - 1, key := key))
  }

  ghost function HoldBack(s: Store, j: Job, until: Time): Store {
    var s' := HoldKind(s, j.kind, until);
    if ClaimedBy(s, j) then s'.(jobs := s.jobs[j.id := PutBack(s, j)]) else s'
  }

  function RunAgain(s: Store, id: nat, at: Time): Store {
    if id in s.jobs && s.jobs[id].failed then
      var k := s.jobs[id];
      s.(jobs := s.jobs[id := k.(failed := false, heldUntil := ZERO_TIME,
                                 job := k.job.(attempts := 0, runAt := at, failedAt := ZERO_TIME))])
    else s
  }
}
