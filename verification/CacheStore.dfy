/**
 cache/memory.go and cache/lock.go: a cache's values in a map that is swept of those that have expired, which answers as
 one that is never swept; and the locks that are taken in it.
 */
module CacheStore {
  import opened Options

  type Key = string
  type Bytes = string

  datatype Entry = Entry(value: Bytes, expires: int)

  type Values = map<Key, Entry>

  /** What a Store is asked, as its contract says it. */
  datatype Op =
    | Get(key: Key, now: int)
    | Set(key: Key, value: Bytes, expires: int)
    | Add(key: Key, value: Bytes, expires: int, now: int)
    | Delete(key: Key)
    | DeleteIf(key: Key, value: Bytes)

  /** A value, for a Get; whether it was added or deleted, for an Add or a DeleteIf. */
  datatype Answer = Value(value: Option<Bytes>) | Did(did: bool) | Nothing

  predicate LiveAt(values: Values, key: Key, now: int) {
    key in values && now < values[key].expires
  }

  /** A map that is never swept. */
  function Plain(values: Values, op: Op): (Values, Answer) {
    match op
    case Get(key, now) => (values, Value(if LiveAt(values, key, now) then Some(values[key].value) else None))
    case Set(key, value, expires) => (values[key := Entry(value, expires)], Nothing)
    case Add(key, value, expires, now) =>
      if LiveAt(values, key, now) then (values, Did(false)) else (values[key := Entry(value, expires)], Did(true))
    case Delete(key) => (values - {key}, Nothing)
    case DeleteIf(key, value) =>
      if key in values && values[key].value == value then (values - {key}, Did(true)) else (values, Did(false))
  }

  // The memory store.

  datatype State = State(values: Values, now: int, sweepAt: nat)

  function Saw(s: State, now: int): State {
    if now > s.now then s.(now := now) else s
  }

  function Swept(s: State): State {
    if |s.values| < s.sweepAt || |s.values| < 1024 then s
    else
      var left := map key | key in s.values && s.now < s.values[key].expires :: s.values[key];
      State(left, s.now, 2 * |left|)
  }

  function Put(s: State, key: Key, value: Bytes, expires: int): State {
    Swept(s.(values := s.values[key := Entry(value, expires)]))
  }

  function Do(s: State, op: Op): (State, Answer) {
    match op
    case Get(key, now) => (Saw(s, now), Plain(s.values, op).1)
    case Set(key, value, expires) => (Put(s, key, value, expires), Nothing)
    case Add(key, value, expires, now) =>
      if LiveAt(s.values, key, now) then (Saw(s, now), Did(false)) else (Put(Saw(s, now), key, value, expires), Did(true))
    case Delete(key) => (s.(values := s.values - {key}), Nothing)
    case DeleteIf(key, value) => (s.(values := Plain(s.values, op).0), Plain(s.values, op).1)
  }

  class MemoryStore {
    var values: Values
    var now: int
    var sweepAt: nat

    function Now(): State
      reads this
    {
      State(values, now, sweepAt)
    }

    constructor ()
      ensures values == map[] && sweepAt == 0
    {
      values, now, sweepAt := map[], 0, 0;
    }

    method Get(key: Key, now: int) returns (value: Option<Bytes>)
      modifies this`now
      ensures (Now(), Answer.Value(value)) == Do(old(Now()), Op.Get(key, now))
    {
      SawAt(now);
      if key !in values || now >= values[key].expires {
        return None;
      }
      value := Some(values[key].value);
    }

    method Set(key: Key, value: Bytes, expires: int)
      modifies this
      ensures Now() == Do(old(Now()), Op.Set(key, value, expires)).0
    {
      Keep(key, value, expires);
    }

    method Add(key: Key, value: Bytes, expires: int, now: int) returns (added: bool)
      modifies this
      ensures (Now(), Did(added)) == Do(old(Now()), Op.Add(key, value, expires, now))
    {
      SawAt(now);
      if key in values && now < values[key].expires {
        return false;
      }
      Keep(key, value, expires);
      added := true;
    }

    method Delete(key: Key)
      modifies this
      ensures Now() == Do(old(Now()), Op.Delete(key)).0
    {
      values := values - {key};
    }

    method DeleteIf(key: Key, value: Bytes) returns (deleted: bool)
      modifies this
      ensures (Now(), Did(deleted)) == Do(old(Now()), Op.DeleteIf(key, value))
    {
      if key !in values || values[key].value != value {
        return false;
      }
      values := values - {key};
      deleted := true;
    }

    method SawAt(at: int)
      modifies this`now
      ensures Now() == Saw(old(Now()), at)
    {
      if at > now {
        now := at;
      }
    }

    method Keep(key: Key, value: Bytes, expires: int)
      modifies this
      ensures Now() == Put(old(Now()), key, value, expires)
    {
      values := values[key := Entry(value, expires)];
      Sweep();
    }

    /** Drops the values that have expired, once there are twice as many as last time. */
    method Sweep()
      modifies this
      ensures Now() == Swept(old(Now()))
    {
      if |values| < sweepAt || |values| < 1024 {
        return;
      }
      ghost var all := values;
      var left := values.Keys;
      while left != {}
        invariant left <= all.Keys && now == old(now) && sweepAt == old(sweepAt)
        invariant values == map key | key in all && (key in left || now < all[key].expires) :: all[key]
        decreases |left|
      {
        var key :| key in left;
        if now >= values[key].expires {
          values := values - {key};
        }
        left := left - {key};
      }
      assert values == map key | key in all && now < all[key].expires :: all[key];
      sweepAt := 2 * |values|;
    }
  }

  // Sweeping is not seen.

  function TimeOf(op: Op): Option<int> {
    match op
    case Get(_, now) => Some(now)
    case Add(_, _, _, now) => Some(now)
    case _ => None
  }

  /** Times never go back, from one on. */
  predicate Forward(ops: seq<Op>, from: int) {
    ops == [] ||
    var t := TimeOf(ops[0]);
    (t.Some? ==> from <= t.value) && Forward(ops[1..], if t.Some? then t.value else from)
  }

  /** What was swept had expired. */
  predicate Stands(s: State, plain: Values) {
    && (forall key :: key in s.values ==> key in plain && plain[key] == s.values[key])
    && (forall key :: key in plain && key !in s.values ==> plain[key].expires <= s.now)
  }

  lemma SweptStands(s: State, plain: Values)
    requires Stands(s, plain)
    ensures Stands(Swept(s), plain)
  {
  }

  /** Each answer is that of a map that is never swept, but whether a DeleteIf found a value that has expired. */
  lemma AnswersAlike(s: State, plain: Values, op: Op)
    requires Stands(s, plain) && (TimeOf(op).Some? ==> s.now <= TimeOf(op).value)
    ensures Stands(Do(s, op).0, Plain(plain, op).0)
    ensures !op.DeleteIf? ==> Do(s, op).1 == Plain(plain, op).1
    ensures op.DeleteIf? ==>
              (Do(s, op).1 != Plain(plain, op).1 <==>
               op.key !in s.values && op.key in plain && plain[op.key].value == op.value && plain[op.key].expires <= s.now)
    ensures Do(s, op).0.now == if TimeOf(op).Some? then TimeOf(op).value else s.now
  {
    match op
    case Set(key, value, expires) =>
      SweptStands(s.(values := s.values[key := Entry(value, expires)]), plain[key := Entry(value, expires)]);
    case Add(key, value, expires, now) =>
      SweptStands(Saw(s, now).(values := s.values[key := Entry(value, expires)]), plain[key := Entry(value, expires)]);
    case _ =>
  }

  function Run(s: State, ops: seq<Op>): (answers: seq<Answer>)
    ensures |answers| == |ops|
    decreases |ops|
  {
    if ops == [] then [] else [Do(s, ops[0]).1] + Run(Do(s, ops[0]).0, ops[1..])
  }

  function PlainRun(values: Values, ops: seq<Op>): seq<Answer>
    decreases |ops|
  {
    if ops == [] then [] else [Plain(values, ops[0]).1] + PlainRun(Plain(values, ops[0]).0, ops[1..])
  }

  /** Over any run whose times never go back, every Get and Add is answered as by a map that is never swept. */
  lemma {:induction false} RunsAlike(s: State, plain: Values, ops: seq<Op>)
    requires Stands(s, plain) && Forward(ops, s.now)
    ensures |PlainRun(plain, ops)| == |ops|
    ensures forall i :: 0 <= i < |ops| && !ops[i].DeleteIf? ==> Run(s, ops)[i] == PlainRun(plain, ops)[i]
    decreases |ops|
  {
    if ops != [] {
      AnswersAlike(s, plain, ops[0]);
      RunsAlike(Do(s, ops[0]).0, Plain(plain, ops[0]).0, ops[1..]);
    }
  }

  // What is found under a key, by what was asked of it before.

  /** A Set, or an Add that added, puts a value under a key. */
  predicate Puts(op: Op, answer: Answer, key: Key, e: Entry) {
    || op == Op.Set(key, e.value, e.expires)
    || (op.Add? && op.key == key && Entry(op.value, op.expires) == e && answer == Did(true))
  }

  /** A Delete, or a DeleteIf that deleted, leaves nothing there. */
  predicate Clears(op: Op, answer: Answer, key: Key) {
    op == Op.Delete(key) || (op.DeleteIf? && op.key == key && answer == Did(true))
  }

  predicate Leaves(op: Op, answer: Answer, key: Key) {
    !Clears(op, answer, key) && !(op.Set? && op.key == key) && !(op.Add? && op.key == key && answer == Did(true))
  }

  /** What is answered of a key that has a value put there last, or none, with the last time there was. */
  predicate Finds(last: Option<Entry>, op: Op, answer: Answer, seen: int) {
    && (op.Get? ==> answer == Value(if last.Some? && op.now < last.value.expires then Some(last.value.value) else None))
    && (op.Add? ==> answer == Did(last.None? || last.value.expires <= op.now))
    && (op.DeleteIf? && answer == Did(true) ==> last.Some? && last.value.value == op.value)
    && (op.DeleteIf? && last.Some? && last.value.value == op.value && seen < last.value.expires ==> answer == Did(true))
  }

  /** The last time there is of the first n, from one on. */
  function Seen(from: int, ops: seq<Op>, n: nat): int
    requires n <= |ops|
    decreases n
  {
    if n == 0 then from
    else Seen(if TimeOf(ops[0]).Some? then TimeOf(ops[0]).value else from, ops[1..], n - 1)
  }

  /** The value put there last is there, or has expired and been swept. */
  predicate LastIs(s: State, key: Key, last: Option<Entry>) {
    if key in s.values then last == Some(s.values[key]) else last.None? || last.value.expires <= s.now
  }

  lemma FindsLast(s: State, op: Op, last: Option<Entry>, seen: int)
    requires LastIs(s, op.key, last) && seen == s.now && (TimeOf(op).Some? ==> s.now <= TimeOf(op).value)
    ensures Finds(last, op, Do(s, op).1, seen)
  {
  }

  lemma LastStep(s: State, op: Op, key: Key, last: Option<Entry>)
    requires LastIs(s, key, last)
    ensures var (r, answer) := Do(s, op);
      && (Leaves(op, answer, key) ==> LastIs(r, key, last))
      && (Clears(op, answer, key) ==> LastIs(r, key, None))
      && forall e | Puts(op, answer, key, e) :: LastIs(r, key, Some(e))
  {
    if op.Set? || op.Add? {
      var was := if op.Add? then Saw(s, op.now) else s;
      SweptLast(was.(values := s.values[op.key := Entry(op.value, op.expires)]), key);
    }
  }

  lemma SweptLast(s: State, key: Key)
    ensures Swept(s).now == s.now
    ensures if key in s.values && key !in Swept(s).values then s.values[key].expires <= s.now
            else LastIs(Swept(s), key, if key in s.values then Some(s.values[key]) else None)
  {
  }

  lemma AnswersOn(s: State, ops: seq<Op>)
    requires ops != []
    ensures Run(s, ops)[0] == Do(s, ops[0]).1
    ensures forall j :: 0 <= j < |ops| - 1 ==>
              ops[1..][j] == ops[j + 1] && Run(Do(s, ops[0]).0, ops[1..])[j] == Run(s, ops)[j + 1]
  {
  }

  /** What was put under a key last, until something else is or it is taken away, is what is found there. */
  lemma {:induction false} StaysLast(s: State, ops: seq<Op>, n: nat, key: Key, last: Option<Entry>)
    requires n < |ops| && ops[n].key == key && Forward(ops, s.now) && LastIs(s, key, last)
    requires forall j :: 0 <= j < n ==> Leaves(ops[j], Run(s, ops)[j], key)
    ensures Finds(last, ops[n], Run(s, ops)[n], Seen(s.now, ops, n))
    decreases n
  {
    if n == 0 {
      FindsLast(s, ops[0], last, s.now);
    } else {
      var r := Do(s, ops[0]).0;
      SawIs(s, ops[0]);
      LastStep(s, ops[0], key, last);
      AnswersOn(s, ops);
      StaysLast(r, ops[1..], n - 1, key, last);
    }
  }

  /** How a key comes to have a value or none: by the i-th that the store is asked. */
  predicate LastBy(op: Op, answer: Answer, key: Key, last: Option<Entry>) {
    if last.Some? then Puts(op, answer, key, last.value) else Clears(op, answer, key)
  }

  lemma LastIsSince(s: State, op: Op, key: Key, last: Option<Entry>)
    requires LastBy(op, Do(s, op).1, key, last)
    ensures LastIs(Do(s, op).0, key, last)
  {
    LastStep(s, op, key, if key in s.values then Some(s.values[key]) else None);
  }

  /** What was there once the i-th was answered is left there by those after it, up to the n-th. */
  predicate Left(s: State, ops: seq<Op>, i: nat, n: nat, key: Key)
    requires n <= |ops|
  {
    forall j :: i < j < n ==> Leaves(ops[j], Run(s, ops)[j], key)
  }

  lemma LeftOn(s: State, ops: seq<Op>, i: nat, n: nat, key: Key)
    requires 0 < i < n < |ops| && Left(s, ops, i, n, key)
    ensures Left(Do(s, ops[0]).0, ops[1..], i - 1, n - 1, key)
    ensures Run(Do(s, ops[0]).0, ops[1..])[i - 1] == Run(s, ops)[i] && Run(Do(s, ops[0]).0, ops[1..])[n - 1] == Run(s, ops)[n]
  {
    AnswersOn(s, ops);
  }

  lemma StepOn(s: State, ops: seq<Op>)
    requires ops != [] && Forward(ops, s.now)
    ensures Forward(ops[1..], Do(s, ops[0]).0.now)
    ensures forall n :: 0 < n <= |ops| ==> Seen(s.now, ops, n) == Seen(Do(s, ops[0]).0.now, ops[1..], n - 1)
  {
    SawIs(s, ops[0]);
  }

  lemma FindsWhatIsPut(s: State, ops: seq<Op>, n: nat, last: Option<Entry>)
    requires 0 < n < |ops| && Forward(ops, s.now) && LastBy(ops[0], Run(s, ops)[0], ops[n].key, last)
    requires Left(s, ops, 0, n, ops[n].key)
    ensures Finds(last, ops[n], Run(s, ops)[n], Seen(s.now, ops, n))
  {
    StepOn(s, ops);
    AnswersOn(s, ops);
    LastIsSince(s, ops[0], ops[n].key, last);
    StaysLast(Do(s, ops[0]).0, ops[1..], n - 1, ops[n].key, last);
  }

  /**
   Over any run whose times never go back, whatever is swept: a Get finds the value that was put under its key last, until it
   expires, an Add adds exactly when a Get would find none, and a DeleteIf deletes that value alone. After it is taken away,
   and before any is put, there is none.
   */
  lemma {:induction false} FindsWhatWasPut(s: State, ops: seq<Op>, i: nat, n: nat, last: Option<Entry>)
    requires i < n < |ops| && Forward(ops, s.now)
    requires LastBy(ops[i], Run(s, ops)[i], ops[n].key, last)
    requires Left(s, ops, i, n, ops[n].key)
    ensures Finds(last, ops[n], Run(s, ops)[n], Seen(s.now, ops, n))
    decreases i
  {
    if i == 0 {
      FindsWhatIsPut(s, ops, n, last);
    } else {
      StepOn(s, ops);
      LeftOn(s, ops, i, n, ops[n].key);
      FindsWhatWasPut(Do(s, ops[0]).0, ops[1..], i - 1, n - 1, last);
    }
  }

  lemma FindsNoneAtFirst(ops: seq<Op>, n: nat)
    requires n < |ops| && Forward(ops, 0)
    requires forall j :: 0 <= j < n ==> Leaves(ops[j], Run(State(map[], 0, 0), ops)[j], ops[n].key)
    ensures Finds(None, ops[n], Run(State(map[], 0, 0), ops)[n], Seen(0, ops, n))
  {
    StaysLast(State(map[], 0, 0), ops, n, ops[n].key, None);
  }

  // Locks.

  type Owner = Bytes

  /** What is done with a lock, by its owners, and with other keys of the store. */
  datatype LockOp = Try(owner: Owner, ttl: nat, at: int) | Release(owner: Owner) | Elsewhere(op: Op)

  function OpOf(lock: Key, l: LockOp): Op {
    match l
    case Try(owner, ttl, at) => Op.Add(lock, owner, at + ttl, at)
    case Release(owner) => Op.DeleteIf(lock, owner)
    case Elsewhere(op) => op
  }

  /** Who has the lock, as the owners know it: since they took it, and until they let it go, or its time is up. */
  type Holders = map<Owner, int>

  function After(holders: Holders, l: LockOp, answer: Answer): Holders {
    match l
    case Try(owner, ttl, at) => if answer == Did(true) then holders[owner := at + ttl] else holders
    case Release(owner) => holders - {owner}
    case Elsewhere(_) => holders
  }

  predicate HasLock(holders: Holders, owner: Owner, now: int) {
    owner in holders && now < holders[owner]
  }

  /** An owner that has the lock is the one the store has it for. */
  ghost predicate LockStands(s: State, lock: Key, holders: Holders) {
    forall o :: HasLock(holders, o, s.now) ==> lock in s.values && s.values[lock] == Entry(o, holders[o])
  }

  function LockRun(s: State, lock: Key, holders: Holders, ls: seq<LockOp>): (State, Holders)
    decreases |ls|
  {
    if ls == [] then (s, holders)
    else
      var (r, answer) := Do(s, OpOf(lock, ls[0]));
      LockRun(r, lock, After(holders, ls[0], answer), ls[1..])
  }

  predicate LockForward(ls: seq<LockOp>, lock: Key, from: int) {
    ls == [] ||
    var t := TimeOf(OpOf(lock, ls[0]));
    && (ls[0].Elsewhere? ==> ls[0].op.key != lock)
    && (t.Some? ==> from <= t.value) && LockForward(ls[1..], lock, if t.Some? then t.value else from)
  }

  lemma SweptKeeps(s: State, key: Key)
    requires key in s.values && s.now < s.values[key].expires
    ensures key in Swept(s).values && Swept(s).values[key] == s.values[key]
  {
  }

  /**
   A step keeps the lock with whoever has it: another that tries is turned away, and one that releases what it no longer
   has does not free it.
   */
  lemma StepKeepsLock(s: State, lock: Key, holders: Holders, l: LockOp)
    requires LockStands(s, lock, holders) && (l.Elsewhere? ==> l.op.key != lock)
    requires var t := TimeOf(OpOf(lock, l)); t.Some? ==> s.now <= t.value
    ensures var (r, answer) := Do(s, OpOf(lock, l));
      && LockStands(r, lock, After(holders, l, answer)) && s.now <= r.now
      && forall o :: HasLock(holders, o, r.now) ==>
           (l.Try? ==> answer == Did(false)) && (l == Release(o) || HasLock(After(holders, l, answer), o, r.now))
  {
    var op := OpOf(lock, l);
    var (r, answer) := Do(s, op);
    if op.Set? || (op.Add? && !LiveAt(s.values, op.key, op.now)) {
      var put := (if op.Add? then Saw(s, op.now) else s).(values := s.values[op.key := Entry(op.value, op.expires)]);
      forall o | HasLock(After(holders, l, answer), o, r.now)
        ensures lock in r.values && r.values[lock] == Entry(o, After(holders, l, answer)[o])
      {
        if l.Elsewhere? || o != l.owner {
          assert HasLock(holders, o, s.now);
        }
        SweptKeeps(put, lock);
      }
    }
  }

  /** Over any run, at most one owner has the lock at any time. */
  lemma {:induction false} OneOwner(s: State, lock: Key, holders: Holders, ls: seq<LockOp>, o: Owner, p: Owner, now: int)
    requires LockStands(s, lock, holders) && LockForward(ls, lock, s.now)
    requires var (r, after) := LockRun(s, lock, holders, ls); r.now <= now && HasLock(after, o, now) && HasLock(after, p, now)
    ensures o == p
    decreases |ls|
  {
    if ls == [] {
      assert HasLock(holders, o, s.now) && HasLock(holders, p, s.now);
    } else {
      StepKeepsLock(s, lock, holders, ls[0]);
      var (r, answer) := Do(s, OpOf(lock, ls[0]));
      SawIs(s, OpOf(lock, ls[0]));
      OneOwner(r, lock, After(holders, ls[0], answer), ls[1..], o, p, now);
    }
  }

  lemma SawIs(s: State, op: Op)
    requires TimeOf(op).Some? ==> s.now <= TimeOf(op).value
    ensures Do(s, op).0.now == if TimeOf(op).Some? then TimeOf(op).value else s.now
  {
  }

  /** A lock under a name, in a store. */
  class Lock {
    const store: MemoryStore
    const key: Key
    const ttl: nat
    const owner: Owner

    constructor (store: MemoryStore, key: Key, ttl: nat, owner: Owner)
      requires ttl > 0
      ensures this.store == store && this.key == key && this.ttl == ttl && this.owner == owner
    {
      this.store, this.key, this.ttl, this.owner := store, key, ttl, owner;
    }

    method Try(now: int) returns (taken: bool)
      modifies store
      ensures (store.Now(), Did(taken)) == Do(old(store.Now()), OpOf(key, LockOp.Try(owner, ttl, now)))
    {
      taken := store.Add(key, owner, now + ttl, now);
    }

    method Release()
      modifies store
      ensures store.Now() == Do(old(store.Now()), OpOf(key, LockOp.Release(owner))).0
    {
      var let := store.DeleteIf(key, owner);
    }
  }
}
