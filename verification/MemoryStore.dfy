/**
 queue/queuetest/queuetest.go: the Store in memory, which keeps its jobs in the order they were pushed and looks
 through them for each call. Each method is proved to do what the contract says.
 */
module MemoryStore {
  import opened StoreContract
  import opened Options

  /** jobs, in the order they were pushed, are the kept jobs m, with IDs up to last. */
  ghost predicate Lists(jobs: seq<Kept>, m: map<nat, Kept>, last: nat) {
    && (forall i :: 0 <= i < |jobs| ==> jobs[i].job.id in m && m[jobs[i].job.id] == jobs[i])
    && (forall id :: id in m ==> exists i :: 0 <= i < |jobs| && jobs[i].job.id == id)
    && (forall i, j :: 0 <= i < j < |jobs| ==> jobs[i].job.id < jobs[j].job.id)
    && (forall id :: id in m ==> 1 <= id <= last)
  }

  lemma ListsPush(jobs: seq<Kept>, m: map<nat, Kept>, last: nat, k: Kept)
    requires Lists(jobs, m, last) && k.job.id == last + 1
    ensures Lists(jobs + [k], m[k.job.id := k], last + 1)
  {
    var jobs', m' := jobs + [k], m[k.job.id := k];
    forall id | id in m'
      ensures exists i :: 0 <= i < |jobs'| && jobs'[i].job.id == id
    {
      if id == k.job.id {
        assert jobs'[|jobs|].job.id == id;
      } else {
        var i :| 0 <= i < |jobs| && jobs[i].job.id == id;
        assert jobs'[i].job.id == id;
      }
    }
  }

  lemma ListsReplace(jobs: seq<Kept>, m: map<nat, Kept>, last: nat, at: nat, k: Kept)
    requires Lists(jobs, m, last) && at < |jobs| && k.job.id == jobs[at].job.id
    ensures Lists(jobs[at := k], m[k.job.id := k], last)
  {
    var jobs', m' := jobs[at := k], m[k.job.id := k];
    forall id | id in m'
      ensures exists i :: 0 <= i < |jobs'| && jobs'[i].job.id == id
    {
      var i :| 0 <= i < |jobs| && jobs[i].job.id == id;
      assert jobs'[i].job.id == id;
    }
  }

  function Without(jobs: seq<Kept>, at: nat): (rest: seq<Kept>)
    requires at < |jobs|
    ensures |rest| == |jobs| - 1
    ensures forall i :: 0 <= i < at ==> rest[i] == jobs[i]
    ensures forall i :: at <= i < |rest| ==> rest[i] == jobs[i + 1]
    ensures forall i :: 0 <= i < |jobs| && i != at ==> jobs[i] in rest
  {
    var rest := jobs[..at] + jobs[at + 1..];
    assert forall i :: 0 <= i < |jobs| && i != at ==> jobs[i] == rest[if i < at then i else i - 1];
    rest
  }

  lemma ListsRemove(jobs: seq<Kept>, m: map<nat, Kept>, last: nat, at: nat)
    requires Lists(jobs, m, last) && at < |jobs|
    ensures Lists(Without(jobs, at), m - {jobs[at].job.id}, last)
  {
    var rest, m' := Without(jobs, at), m - {jobs[at].job.id};
    forall i | 0 <= i < |rest|
      ensures rest[i].job.id in m' && m'[rest[i].job.id] == rest[i]
      ensures forall j :: i < j < |rest| ==> rest[i].job.id < rest[j].job.id
    {
      assert rest[i] == jobs[if i < at then i else i + 1];
    }
    forall id | id in m'
      ensures exists i :: 0 <= i < |rest| && rest[i].job.id == id
    {
      var i :| 0 <= i < |jobs| && jobs[i].job.id == id;
      assert jobs[i] in rest;
    }
  }

  class Memory {
    var last: nat
    var jobs: seq<Kept>
    var schedules: map<string, Time>
    var held: map<string, Time>

    /** What is kept, as the contract sees it. */
    ghost var store: Store

    ghost predicate Valid()
      reads this
    {
      store.last == last && store.schedules == schedules && store.held == held &&
      Lists(jobs, store.jobs, last)
    }

    constructor ()
      ensures Valid() && store == EMPTY
    {
      last, jobs, schedules, held := 0, [], map[], map[];
      store := EMPTY;
    }

    method Push(j: Job) returns (id: nat)
      requires Valid()
      modifies this
      ensures Valid() && store == StoreContract.Push(old(store), j) && id == store.last
    {
      var k := Kept(j.(id := last + 1), ZERO_TIME, false, if j.oneAtATime then j.key else "");
      ListsPush(jobs, store.jobs, last, k);
      last, id := last + 1, last + 1;
      jobs := jobs + [k];
      store := StoreContract.Push(store, j);
    }

    /** The place of the first job that waits under the key, or the number of jobs when there is none. */
    method Find(kind: string, key: string) returns (at: nat)
      requires Valid()
      ensures at <= |jobs|
      ensures KeyWaits(store.jobs, kind, key) <==> at < |jobs|
      ensures at < |jobs| ==> HasKey(jobs[at], kind, key)
    {
      at := 0;
      if key == "" {
        return |jobs|;
      }
      while at < |jobs| && !(jobs[at].job.kind == kind && jobs[at].job.key == key)
        invariant at <= |jobs|
        invariant forall i :: 0 <= i < at ==> !HasKey(jobs[i], kind, key)
      {
        at := at + 1;
      }
    }

    method PushUnique(j: Job) returns (pushed: bool)
      requires Valid()
      modifies this
      ensures Valid() && store == StoreContract.PushUnique(old(store), j)
      ensures pushed <==> !old(KeyWaits(store.jobs, j.kind, j.key))
    {
      var at := Find(j.kind, j.key);
      if at < |jobs| {
        return false;
      }
      var _ := Push(j);
      pushed := true;
    }

    method PushLatest(j: Job) returns (id: nat)
      requires Valid()
      modifies this
      ensures Valid() && store == StoreContract.PushLatest(old(store), j, id)
      ensures old(KeyWaits(store.jobs, j.kind, j.key)) ==> old(Moves(store, j, id))
      ensures !old(KeyWaits(store.jobs, j.kind, j.key)) ==> id == store.last
    {
      var at := Find(j.kind, j.key);
      if at < |jobs| {
        id := jobs[at].job.id;
        Replace(at, jobs[at].(job := jobs[at].job.(runAt := j.runAt)));
        return;
      }
      id := Push(j);
      assert id !in old(store.jobs);
    }

    method PushScheduled(schedule: string, j: Job) returns (pushed: bool)
      requires Valid()
      modifies this
      ensures Valid() && store == StoreContract.PushScheduled(old(store), schedule, j)
      ensures pushed <==> old(NewRun(store, schedule, j.runAt))
    {
      if schedule in schedules && schedules[schedule] >= j.runAt {
        return false;
      }
      schedules := schedules[schedule := j.runAt];
      store := store.(schedules := schedules);
      var at := Find(j.kind, j.key);
      if at == |jobs| {
        var _ := Push(j);
      }
      pushed := true;
    }

    /** Whether a claim holds another job of the kind of the one at place at, under its one-at-a-time key. */
    method Running(at: nat, now: Time) returns (beside: bool)
      requires Valid() && at < |jobs|
      ensures beside <==> RunsBeside(store.jobs, jobs[at].job.id, now)
    {
      if jobs[at].alone == "" {
        return false;
      }
      var i := 0;
      while i < |jobs|
        invariant i <= |jobs|
        invariant forall k :: 0 <= k < i && k != at ==>
                    !(jobs[k].job.kind == jobs[at].job.kind && jobs[k].alone == jobs[at].alone && jobs[k].heldUntil > now)
      {
        if i != at && jobs[i].job.kind == jobs[at].job.kind && jobs[i].alone == jobs[at].alone && jobs[i].heldUntil > now {
          assert jobs[i].job.id in store.jobs && jobs[i].job.id != jobs[at].job.id;
          return true;
        }
        i := i + 1;
      }
      beside := false;
    }

    /** Whether claims hold as many jobs of the kind of the one at place at as its limit allows. */
    method AtItsLimit(at: nat, now: Time) returns (full: bool)
      requires Valid() && at < |jobs|
      ensures full <==> AtLimit(store.jobs, jobs[at].job.id, now)
    {
      if jobs[at].job.atOnce == 0 {
        return false;
      }
      var n, i := 0, 0;
      var kind := jobs[at].job.kind;
      ghost var seen: set<nat> := {};
      while i < |jobs|
        invariant i <= |jobs|
        invariant n == |seen|
        invariant forall k :: 0 <= k < i ==>
                    (jobs[k].job.id in seen <==> jobs[k].job.kind == kind && jobs[k].heldUntil > now)
        invariant forall id :: id in seen ==> exists k :: 0 <= k < i && jobs[k].job.id == id
      {
        if jobs[i].job.kind == kind && jobs[i].heldUntil > now {
          n := n + 1;
          seen := seen + {jobs[i].job.id};
        }
        i := i + 1;
      }
      forall id
        ensures id in seen <==> id in HeldOfKind(store.jobs, kind, now)
      {
        if id in seen {
          var k :| 0 <= k < |jobs| && jobs[k].job.id == id;
        }
      }
      assert seen == HeldOfKind(store.jobs, kind, now);
      full := n >= jobs[at].job.atOnce;
    }

    /** Whether a claim at now passes over the job at place at. */
    method Passes(at: nat, now: Time) returns (over: bool)
      requires Valid() && at < |jobs|
      ensures over <==> !Claimable(store, jobs[at].job.id, now)
    {
      var k := jobs[at];
      if k.failed || k.job.runAt > now || k.heldUntil > now ||
         (if k.job.kind in held then held[k.job.kind] else ZERO_TIME) > now {
        return true;
      }
      over := Running(at, now);
      if !over {
        over := AtItsLimit(at, now);
      }
    }

    /** The place of the job due soonest that a claim at now may return, or the number of jobs when there is none. */
    method NextDue(now: Time) returns (next: nat)
      requires Valid()
      ensures next <= |jobs|
      ensures next == |jobs| ==> forall id :: !Claimable(store, id, now)
      ensures next < |jobs| ==> DueSoonest(store, jobs[next].job.id, now)
    {
      next := |jobs|;
      var i := 0;
      while i < |jobs|
        invariant i <= |jobs| && next <= |jobs|
        invariant next < |jobs| ==> Claimable(store, jobs[next].job.id, now)
        invariant forall k :: 0 <= k < i && Claimable(store, jobs[k].job.id, now) ==>
                    next < |jobs| && jobs[next].job.runAt <= jobs[k].job.runAt
      {
        var over := Passes(i, now);
        if !over && (next == |jobs| || jobs[i].job.runAt < jobs[next].job.runAt) {
          next := i;
        }
        i := i + 1;
      }
    }

    /** The claim returns the job due soonest that it may, holding it, or none. */
    method Claim(now: Time, until: Time) returns (claimed: Option<Job>)
      requires Valid()
      modifies this
      ensures Valid()
      ensures claimed.None? ==> store == old(store) && forall id :: !Claimable(old(store), id, now)
      ensures claimed.Some? ==>
                var j := claimed.value;
                DueSoonest(old(store), j.id, now) && store == StoreContract.Claim(old(store), j.id, until) &&
                j == store.jobs[j.id].job
    {
      var next := NextDue(now);
      if next == |jobs| {
        return None;
      }
      var k := jobs[next];
      Replace(next, k.(heldUntil := until, job := k.job.(attempts := k.job.attempts + 1, key := "")));
      claimed := Some(jobs[next].job);
    }

    /** The place of the job whose latest claim returned j, or the number of jobs when there is none. */
    method Place(j: Job) returns (at: nat)
      requires Valid()
      ensures at <= |jobs| && (at < |jobs| <==> ClaimedBy(store, j))
      ensures at < |jobs| ==> jobs[at].job.id == j.id
    {
      at := 0;
      while at < |jobs| && !(jobs[at].job.id == j.id && jobs[at].job.attempts == j.attempts && !jobs[at].failed)
        invariant at <= |jobs|
        invariant forall i :: 0 <= i < at ==> !(jobs[i].job.id == j.id && jobs[i].job.attempts == j.attempts && !jobs[i].failed)
      {
        at := at + 1;
      }
    }

    method Remove(at: nat)
      requires Valid() && at < |jobs|
      modifies `jobs, `store
      ensures Valid() && store == old(store).(jobs := old(store).jobs - {old(jobs)[at].job.id})
    {
      ListsRemove(jobs, store.jobs, last, at);
      store := store.(jobs := store.jobs - {jobs[at].job.id});
      jobs := Without(jobs, at);
    }

    method Done(j: Job)
      requires Valid()
      modifies this
      ensures Valid() && store == StoreContract.Done(old(store), j)
    {
      var at := Place(j);
      if at < |jobs| {
        Remove(at);
      }
    }

    /** Puts k in place of the job at place at, which has its ID. */
    method Replace(at: nat, k: Kept)
      requires Valid() && at < |jobs| && k.job.id == jobs[at].job.id
      modifies `jobs, `store
      ensures Valid() && store == old(store).(jobs := old(store).jobs[k.job.id := k]) && jobs == old(jobs)[at := k]
    {
      ListsReplace(jobs, store.jobs, last, at, k);
      jobs := jobs[at := k];
      store := store.(jobs := store.jobs[k.job.id := k]);
    }

    method Retry(j: Job)
      requires Valid()
      modifies this
      ensures Valid() && store == StoreContract.Retry(old(store), j)
    {
      var at := Place(j);
      if at < |jobs| {
        Replace(at, jobs[at].(heldUntil := ZERO_TIME, job := jobs[at].job.(runAt := j.runAt, error := j.error)));
      }
    }

    method Fail(j: Job, clock: Time)
      requires Valid()
      modifies this
      ensures Valid() && store == StoreContract.Fail(old(store), j, clock)
    {
      var failedAt := j.failedAt;
      if failedAt == ZERO_TIME {
        failedAt := clock;
      }
      var at := Place(j);
      if at < |jobs| {
        Replace(at, jobs[at].(heldUntil := ZERO_TIME, failed := true,
                              job := jobs[at].job.(error := j.error, failedAt := failedAt)));
      }
    }

    method HoldKind(kind: string, until: Time)
      requires Valid()
      modifies `held, `store
      ensures Valid() && store == StoreContract.HoldKind(old(store), kind, until)
    {
      if until > (if kind in held then held[kind] else ZERO_TIME) {
        held := held[kind := until];
        store := store.(held := held);
      }
    }

    method HoldBack(j: Job, until: Time)
      requires Valid()
      modifies this
      ensures Valid() && store == StoreContract.HoldBack(old(store), j, until)
    {
      HoldKind(j.kind, until);
      var at := Place(j);
      if at < |jobs| {
        var waits := Find(j.kind, j.key);
        var key := if waits == |jobs| then j.key else jobs[at].job.key;
        Replace(at, jobs[at].(heldUntil := ZERO_TIME,
                              job := jobs[at].job.(attempts := jobs[at].job.attempts - 1, key := key)));
      }
    }

    method RunAgain(id: nat, at: Time) returns (was: bool)
      requires Valid()
      modifies this
      ensures Valid() && store == StoreContract.RunAgain(old(store), id, at)
      ensures was <==> id in old(store.jobs) && old(store.jobs)[id].failed
    {
      var i := 0;
      while i < |jobs|
        invariant i <= |jobs|
        invariant forall k :: 0 <= k < i ==> !(jobs[k].job.id == id && jobs[k].failed)
      {
        if jobs[i].job.id == id && jobs[i].failed {
          Replace(i, jobs[i].(failed := false, heldUntil := ZERO_TIME,
                              job := jobs[i].job.(attempts := 0, runAt := at, failedAt := ZERO_TIME)));
          return true;
        }
        i := i + 1;
      }
      was := false;
    }
  }
}
