/**
 What a Store keeps of its jobs' keys and holds, as one job is pushed, taken, put back or removed: unique keys, one at
 a time, and at most so many at once.
 */
module HoldLimits {
  import opened StoreContract
  import opened Sets

  /** No two jobs of a kind have one key, and a job with its key is held by no claim. */
  ghost predicate Keys(jobs: map<nat, Kept>) {
    KeysUnique(jobs) && forall id :: id in jobs && jobs[id].job.key != "" ==> jobs[id].heldUntil == ZERO_TIME
  }

  /** No two one-at-a-time jobs of a kind and key are held at once. */
  ghost predicate Alone(jobs: map<nat, Kept>, now: Time) {
    forall a, b ::
      a in jobs && b in jobs && a != b && jobs[a].job.kind == jobs[b].job.kind && jobs[a].alone == jobs[b].alone != "" ==>
        jobs[a].heldUntil <= now || jobs[b].heldUntil <= now
  }

  /** The held jobs of a kind that let at most n run at once. */
  function HeldWithin(jobs: map<nat, Kept>, kind: string, n: nat, now: Time): set<nat> {
    set id | id in HeldOfKind(jobs, kind, now) && 1 <= jobs[id].job.atOnce <= n
  }

  ghost predicate Limits(jobs: map<nat, Kept>, now: Time) {
    forall kind, n: nat :: |HeldWithin(jobs, kind, n, now)| <= n
  }

  ghost predicate Within(jobs: map<nat, Kept>, now: Time) {
    Keys(jobs) && Alone(jobs, now) && Limits(jobs, now)
  }

  /** When fewer are held than before, the limits hold as before. */
  lemma LimitsFewer(jobs: map<nat, Kept>, now: Time, jobs': map<nat, Kept>, now': Time)
    requires Limits(jobs, now)
    requires forall kind, n: nat :: HeldWithin(jobs', kind, n, now') <= HeldWithin(jobs, kind, n, now)
    ensures Limits(jobs', now')
  {
    forall kind, n: nat
      ensures |HeldWithin(jobs', kind, n, now')| <= n
    {
      Subset(HeldWithin(jobs', kind, n, now'), HeldWithin(jobs, kind, n, now));
    }
  }

  lemma Later(jobs: map<nat, Kept>, now: Time, to: Time)
    requires Within(jobs, now) && now <= to
    ensures Within(jobs, to)
  {
    LimitsFewer(jobs, now, jobs, to);
  }

  lemma Removed(jobs: map<nat, Kept>, id: nat, now: Time)
    requires Within(jobs, now)
    ensures Within(jobs - {id}, now)
  {
    LimitsFewer(jobs, now, jobs - {id}, now);
  }

  /** A new job, or one put back, is held by no claim, and takes no key another has. */
  ghost predicate FreeKey(jobs: map<nat, Kept>, id: nat, k: Kept) {
    k.job.key == "" || !KeyWaits(jobs, k.job.kind, k.job.key) ||
    (id in jobs && HasKey(jobs[id], k.job.kind, k.job.key))
  }

  lemma Added(jobs: map<nat, Kept>, id: nat, k: Kept, now: nat)
    requires Within(jobs, now) && id !in jobs && k.heldUntil == ZERO_TIME && FreeKey(jobs, id, k)
    ensures Within(jobs[id := k], now)
  {
    LimitsFewer(jobs, now, jobs[id := k], now);
  }

  lemma Released(jobs: map<nat, Kept>, id: nat, k: Kept, now: nat)
    requires Within(jobs, now) && id in jobs && k.heldUntil == ZERO_TIME && FreeKey(jobs, id, k)
    requires k.job.kind == jobs[id].job.kind && k.alone == jobs[id].alone && k.job.atOnce == jobs[id].job.atOnce
    ensures Within(jobs[id := k], now)
  {
    LimitsFewer(jobs, now, jobs[id := k], now);
  }

  lemma Taken(s: Store, id: nat, now: Time, until: Time)
    requires Within(s.jobs, now) && Claimable(s, id, now)
    ensures Within(Claim(s, id, until).jobs, now)
  {
    var jobs' := Claim(s, id, until).jobs;
    forall kind, n: nat
      ensures |HeldWithin(jobs', kind, n, now)| <= n
    {
      var limit := s.jobs[id].job.atOnce;
      if kind == s.jobs[id].job.kind && 1 <= limit <= n {
        var held := HeldOfKind(s.jobs, kind, now);
        Subset(HeldWithin(jobs', kind, n, now), held + {id});
      } else {
        Subset(HeldWithin(jobs', kind, n, now), HeldWithin(s.jobs, kind, n, now));
      }
    }
  }
}
