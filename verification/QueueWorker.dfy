/**
 queue/queue.go and queue/kind.go: what a worker makes of a claimed job, and what a push makes of a value. The
 handler's outcome, the limiter's answer and the clock are parameters.
 */
module QueueWorker {
  import opened StoreContract
  import opened Options
  import MemoryStore
  import QueueRuns
  import QueueSafety

  const SECOND: Time := 1_000_000_000
  const DEFAULT_ATTEMPTS := 10
  const HELD_ON_ERROR: Time := 10 * SECOND
  const DAY: Time := 24 * 3600 * SECOND

  datatype Handler = Handler(attempts: nat, unique: bool, latest: bool, oneAtATime: bool, atOnce: nat, rated: bool)

  /** A handler for jobs of a kind this instance does not know. */
  const UNKNOWN := Handler(DEFAULT_ATTEMPTS, false, false, false, 0, false)

  /** The limiter's answer: how long to wait, or that it cannot tell. */
  datatype RateAnswer = Wait(d: Time) | Unsure

  datatype Outcome = Worked | Erred(error: string, permanent: bool)

  /** What the Store is told of a claim. */
  datatype Report = Done | Retry(runAt: Time, error: string) | Fail(error: string, failedAt: Time) | HoldBack(key: string, until: Time)

  function Told(s: Store, j: Job, r: Report): Store
    requires !r.HoldBack?
  {
    match r
    case Done => StoreContract.Done(s, j)
    case Retry(runAt, error) => StoreContract.Retry(s, j.(runAt := runAt, error := error))
    case Fail(error, failedAt) => StoreContract.Fail(s, j.(error := error, failedAt := failedAt), failedAt)
  }

  class Worker {
    const handlers: map<string, Handler>
    const store: MemoryStore.Memory
    const keyOf: string -> string

    constructor (handlers: map<string, Handler>, store: MemoryStore.Memory, keyOf: string -> string)
      ensures this.handlers == handlers && this.store == store && this.keyOf == keyOf
    {
      this.handlers, this.store, this.keyOf := handlers, store, keyOf;
    }

    function HandlerOf(kind: string): Handler {
      if kind in handlers then handlers[kind] else UNKNOWN
    }

    /** Puts j back when its kind's rate refuses it, or cannot say, or the queue stops: it has not run. */
    method HeldBack(h: Handler, j: Job, rate: RateAnswer, stopping: bool, now: Time) returns (told: Option<Report>)
      requires store.Valid()
      modifies store
      ensures store.Valid()
      ensures told.None? <==> !stopping && rate.Wait? && rate.d <= 0
      ensures told.None? ==> store.store == old(store.store)
      ensures told.Some? ==>
                told.value.HoldBack? &&
                told.value.key == (if h.unique then keyOf(j.payload) else j.key) &&
                told.value.until == now + (if stopping then 0 else if rate.Unsure? then HELD_ON_ERROR else rate.d) &&
                store.store == StoreContract.HoldBack(old(store.store), j.(key := told.value.key), told.value.until)
    {
      var wait: Time;
      if stopping {
        wait := 0;
      } else if rate.Unsure? {
        wait := HELD_ON_ERROR;
      } else if rate.d <= 0 {
        return None;
      } else {
        wait := rate.d;
      }
      var key := j.key;
      if h.unique {
        key := keyOf(j.payload);
      }
      store.HoldBack(j.(key := key), now + wait);
      told := Some(HoldBack(key, now + wait));
    }

    /**
     Runs j and tells the Store how it went. A job is done only when its handler worked; it fails for good only on a
     permanent error or its last attempt; and a job held back or stopped goes back to run again. The queue may stop, and
     time goes on, before the rate answers, at now, or while the handler runs, until ended.
     */
    method Run(j: Job, rate: RateAnswer, stopping: bool, now: Time, outcome: Outcome, stopped: bool, ended: Time, backoff: Time)
      returns (told: Report)
      requires store.Valid()
      modifies store
      ensures store.Valid()
      ensures var h := HandlerOf(j.kind);
        var held := h.rated && (stopping || rate.Unsure? || rate.d > 0);
        var erred := if j.kind in handlers then outcome else Erred("no handler", false);
        && (told.HoldBack? <==> held)
        && (told.Done? <==> !held && erred.Worked?)
        && (told.Fail? <==> !held && erred.Erred? && !stopped && (erred.permanent || j.attempts >= h.attempts))
        && (j.kind !in handlers && !stopped ==> (told.Fail? <==> j.attempts >= 10))
        && (told.Retry? ==> told.error == erred.error && told.runAt == if stopped then ended else ended + backoff)
        && (told.Fail? ==> told.error == erred.error && told.failedAt == ended)
        && (!held ==> store.store == Told(old(store.store), j, told))
        && (held ==> store.store == StoreContract.HoldBack(old(store.store), j.(key := told.key), told.until))
        && (held ==> told.key == if h.unique then keyOf(j.payload) else j.key)
        && (held ==> told.until == now + if stopping then 0 else if rate.Unsure? then HELD_ON_ERROR else rate.d)
    {
      var h := UNKNOWN;
      var result := Erred("no handler", false);
      if j.kind in handlers {
        h := handlers[j.kind];
        result := outcome;
      }
      if h.rated {
        var held := HeldBack(h, j, rate, stopping, now);
        if held.Some? {
          return held.value;
        }
      }
      if result.Worked? {
        store.Done(j);
        return Done;
      }
      if stopped {
        store.Retry(j.(runAt := ended, error := result.error));
        return Retry(ended, result.error);
      }
      if result.permanent || j.attempts >= h.attempts {
        store.Fail(j.(error := result.error, failedAt := ended), ended);
        return Fail(result.error, ended);
      }
      store.Retry(j.(runAt := ended + backoff, error := result.error));
      told := Retry(ended + backoff, result.error);
    }

    /** Puts a job on the queue: a unique kind's under its payload's key, and a latest one's at its own time. */
    method PushAt(kind: string, h: Handler, at: Time, payload: string) returns (id: Option<nat>)
      requires store.Valid()
      modifies store
      ensures store.Valid()
      ensures var s, key := old(store.store), keyOf(payload);
        var j := Job(0, kind, payload, if h.latest || h.unique then key else "", at, 0, "", h.oneAtATime, h.atOnce, ZERO_TIME);
        && (h.latest ==> id.Some? && store.store == StoreContract.PushLatest(s, j, id.value))
        && (h.latest && KeyWaits(s.jobs, kind, key) ==> Moves(s, j, id.value))
        && (!h.latest && h.unique ==> store.store == StoreContract.PushUnique(s, j))
        && (!h.latest && h.unique ==> id.None?)
        && (!h.latest && !h.unique ==> store.store == StoreContract.Push(s, j) && id == Some(store.store.last))
        && (h.latest && !KeyWaits(s.jobs, kind, key) ==> id == Some(store.store.last))
    {
      var j := Job(0, kind, payload, "", at, 0, "", h.oneAtATime, h.atOnce, ZERO_TIME);
      if h.latest {
        var moved := store.PushLatest(j.(key := keyOf(payload)));
        return Some(moved);
      }
      if h.unique {
        var pushed := store.PushUnique(j.(key := keyOf(payload)));
        return None;
      }
      var pushed := store.Push(j);
      id := Some(pushed);
    }
  }

  /** The step of a run that a worker's report of a claim is. */
  function StepOf(c: QueueRuns.Claimed, told: Report): QueueRuns.Step {
    match told
    case Done => QueueRuns.ReportDone(c)
    case Retry(runAt, error) => QueueRuns.ReportRetry(c, runAt, error)
    case Fail(error, failedAt) => QueueRuns.ReportFail(c, error, failedAt, failedAt)
    case HoldBack(key, until) => QueueRuns.ReportHoldBack(c, key, until)
  }

  /**
   A worker that is not stopping and whose handler never works, and never for good, reports as a job that fails each
   time is said to be reported; and the step the report takes does to the Store what Run does.
   */
  method RunThatFails(w: Worker, s: QueueRuns.Sys, c: QueueRuns.Claimed, rate: RateAnswer, now: Time, error: string,
                      ended: Time, backoff: Time)
    returns (told: Report)
    requires w.store.Valid() && w.store.store == s.store && c in s.out
    modifies w.store
    ensures w.store.Valid() && w.store.store == QueueRuns.Next(s, StepOf(c, told)).store
    ensures QueueSafety.FailsEachTime(s, StepOf(c, told), c.job.id, w.HandlerOf(c.job.kind).attempts)
  {
    told := w.Run(c.job, rate, false, now, Erred(error, false), false, ended, backoff);
  }

  /** How long a job waits after its attempt-th attempt failed: attempt to the fourth seconds, and a tenth more at most. */
  method Backoff(attempt: nat, more: nat) returns (d: Time)
    requires attempt >= 1
    requires var n := if attempt > 19 then 19 else attempt; more <= n * n * n * n * SECOND / 10
    ensures attempt <= 17 ==>
              var base := attempt * attempt * attempt * attempt * SECOND;
              base <= d <= base + base / 10 && d <= DAY && (d < DAY ==> d == base + more)
    ensures attempt >= 18 ==> d == DAY
  {
    var n := attempt;
    if n > 19 {
      n := 19;
    }
    d := n * n * n * n * SECOND + more;
    if d > DAY {
      d := DAY;
    }
  }
}
