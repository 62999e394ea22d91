/**
 auth/throttle.go: tries counted for each key in windows, in a map that is swept of the windows that are over; and how
 many tries a throttle lets through, in a window and in any span as long as one.
 */
module Throttles {
  import opened Options
  import opened Sets

  type Key = string

  datatype Tries = Tries(count: nat, until: int)

  type Keys = map<Key, Tries>

  datatype Op = Hit(key: Key, now: int) | Ask(key: Key, now: int) | Clear(key: Key)

  datatype Answer = Answer(count: nat, ends: int) | Nothing

  predicate Open(keys: Keys, key: Key, now: int) {
    key in keys && now < keys[key].until
  }

  /** Counts that are never swept. */
  function Plain(keys: Keys, op: Op, window: int): (Keys, Answer) {
    match op
    case Hit(key, now) =>
      var k := if Open(keys, key, now) then keys[key] else Tries(0, now + window);
      (keys[key := Tries(k.count + 1, k.until)], Answer.Answer(k.count + 1, k.until))
    case Ask(key, now) => (keys, if Open(keys, key, now) then Answer.Answer(keys[key].count, keys[key].until) else Answer.Answer(0, 0))
    case Clear(key) => (keys - {key}, Nothing)
  }

  datatype State = State(keys: Keys, sweepAt: nat)

  function Swept(s: State, now: int): State {
    if |s.keys| < s.sweepAt || |s.keys| < 1024 then s
    else
      var left := map key | key in s.keys && now < s.keys[key].until :: s.keys[key];
      State(left, 2 * |left|)
  }

  function Do(s: State, op: Op, window: int): (State, Answer)
    requires window > 0
  {
    match op
    case Hit(key, now) =>
      var ready := if Open(s.keys, key, now) then s else Swept(s.(keys := s.keys[key := Tries(0, now + window)]), now);
      var k := ready.keys[key];
      (ready.(keys := ready.keys[key := Tries(k.count + 1, k.until)]), Answer.Answer(k.count + 1, k.until))
    case Ask(_, _) => (s, Plain(s.keys, op, window).1)
    case Clear(key) => (s.(keys := s.keys - {key}), Nothing)
  }

  class MemoryThrottles {
    var keys: Keys
    var sweepAt: nat

    function Now(): State
      reads this
    {
      State(keys, sweepAt)
    }

    constructor ()
      ensures keys == map[] && sweepAt == 0
    {
      keys, sweepAt := map[], 0;
    }

    method Hit(key: Key, now: int, window: int) returns (tries: nat, ends: int)
      requires window > 0
      modifies this
      ensures (Now(), Answer.Answer(tries, ends)) == Do(old(Now()), Op.Hit(key, now), window)
    {
      if key !in keys || now >= keys[key].until {
        keys := keys[key := Tries(0, now + window)];
        Sweep(now);
      }
      keys := keys[key := keys[key].(count := keys[key].count + 1)];
      tries, ends := keys[key].count, keys[key].until;
    }

    method TriesAt(key: Key, now: int) returns (tries: nat, ends: int)
      ensures forall window :: window > 0 ==> (Now(), Answer.Answer(tries, ends)) == Do(Now(), Ask(key, now), window)
    {
      if key !in keys || now >= keys[key].until {
        return 0, 0;
      }
      tries, ends := keys[key].count, keys[key].until;
    }

    method Clear(key: Key)
      modifies this
      ensures forall window :: window > 0 ==> Now() == Do(old(Now()), Op.Clear(key), window).0
    {
      keys := keys - {key};
    }

    /** Drops the keys whose window is over, once there are twice as many as last time. */
    method Sweep(now: int)
      modifies this
      ensures Now() == Swept(old(Now()), now)
    {
      if |keys| < sweepAt || |keys| < 1024 {
        return;
      }
      ghost var all := keys;
      var left := keys.Keys;
      while left != {}
        invariant left <= all.Keys && sweepAt == old(sweepAt)
        invariant keys == map key | key in all && (key in left || now < all[key].until) :: all[key]
        decreases |left|
      {
        var key :| key in left;
        if now >= keys[key].until {
          keys := keys - {key};
        }
        left := left - {key};
      }
      assert keys == map key | key in all && now < all[key].until :: all[key];
      sweepAt := 2 * |keys|;
    }
  }

  // Sweeping is not seen.

  function TimeOf(op: Op, last: int): int {
    if op.Clear? then last else op.now
  }

  predicate Stands(s: State, plain: Keys, last: int) {
    && (forall key :: key in s.keys ==> key in plain && plain[key] == s.keys[key])
    && (forall key :: key in plain && key !in s.keys ==> plain[key].until <= last)
  }

  /** Each answer is that of counts that are never swept, as times never go back. */
  lemma AnswersAlike(s: State, plain: Keys, op: Op, window: int, last: int)
    requires window > 0 && Stands(s, plain, last) && last <= TimeOf(op, last)
    ensures Do(s, op, window).1 == Plain(plain, op, window).1
    ensures Stands(Do(s, op, window).0, Plain(plain, op, window).0, TimeOf(op, last))
  {
  }

  // What a throttle lets through, of the tries of one key.

  /** A key's count and its window's end after the first n tries, which none clears. */
  function After(ts: seq<int>, n: nat, window: int): Tries
    requires n <= |ts|
  {
    if n == 0 then Tries(0, 0)
    else
      var before := After(ts, n - 1, window);
      if n > 1 && ts[n - 1] < before.until then Tries(before.count + 1, before.until) else Tries(1, ts[n - 1] + window)
  }

  /** The try that started the window the i-th is in. */
  function First(ts: seq<int>, i: nat, window: int): (f: nat)
    requires i < |ts|
    ensures f <= i
  {
    if i == 0 || ts[i] >= After(ts, i, window).until then i else First(ts, i - 1, window)
  }

  predicate Forward(ts: seq<int>) {
    forall i, j :: 0 <= i < j < |ts| ==> ts[i] <= ts[j]
  }

  lemma {:induction false} CountsFromFirst(ts: seq<int>, i: nat, window: int)
    requires i < |ts| && Forward(ts) && window > 0
    ensures var f := First(ts, i, window);
      After(ts, i + 1, window) == Tries(i - f + 1, ts[f] + window) && ts[i] < ts[f] + window && First(ts, f, window) == f
    decreases i
  {
    if i > 0 {
      CountsFromFirst(ts, i - 1, window);
    }
  }

  /** All the tries from a window's first up to one in it are in it. */
  lemma {:induction false} SameWindow(ts: seq<int>, j: nat, i: nat, window: int)
    requires i < |ts| && First(ts, i, window) <= j <= i
    ensures First(ts, j, window) == First(ts, i, window)
    decreases i
  {
    if j < i {
      SameWindow(ts, j, i - 1, window);
    }
  }

  /** A window starts when the one before it is over. */
  lemma NextWindow(ts: seq<int>, f: nat, i: nat, window: int)
    requires i < |ts| && Forward(ts) && window > 0 && f < First(ts, i, window) && First(ts, f, window) == f
    ensures ts[f] + window <= ts[First(ts, i, window)]
  {
    var g := First(ts, i, window);
    CountsFromFirst(ts, i, window);
    LastWindow(ts, f, g, window);
  }

  lemma LastWindow(ts: seq<int>, f: nat, g: nat, window: int)
    requires f < g < |ts| && Forward(ts) && window > 0 && First(ts, f, window) == f && First(ts, g, window) == g
    ensures ts[f] + window <= ts[g]
  {
    var e := First(ts, g - 1, window);
    CountsFromFirst(ts, g - 1, window);
    if f > e {
      SameWindow(ts, f, g - 1, window);
    }
  }

  /** The tries let through: those whose count is no more than the most there may be. */
  predicate Let(ts: seq<int>, i: nat, window: int, most: nat)
    requires i < |ts|
  {
    After(ts, i + 1, window).count <= most
  }

  function LetIn(ts: seq<int>, from: int, until: int, window: int, most: nat): set<nat> {
    set i: nat | i < |ts| && from <= ts[i] <= until && Let(ts, i, window, most)
  }

  function Places(from: nat, n: nat): (s: set<nat>)
    ensures |s| == n && forall i :: i in s <==> from <= i < from + n
  {
    if n == 0 then {} else Places(from, n - 1) + {from + n - 1}
  }

  /** What a window lets through, of the tries that are in it. */
  function Through(ts: seq<int>, f: nat, window: int, most: nat): set<nat> {
    set i: nat | i < |ts| && First(ts, i, window) == f && Let(ts, i, window, most)
  }

  /** No window lets through more than the most. */
  lemma WindowLets(ts: seq<int>, f: nat, window: int, most: nat)
    requires Forward(ts) && window > 0
    ensures |Through(ts, f, window, most)| <= most
  {
    forall i | i in Through(ts, f, window, most)
      ensures i in Places(f, most)
    {
      CountsFromFirst(ts, i, window);
    }
    Subset(Through(ts, f, window, most), Places(f, most));
  }

  /** A span touches two windows at most: that of its first try, and the one after. */
  lemma NoThirdWindow(ts: seq<int>, from: int, window: int, i0: nat, i: nat, j: nat)
    requires Forward(ts) && window > 0 && i0 < i < |ts| && i0 < j < |ts| && from <= ts[i0] && ts[j] <= from + window
    requires First(ts, i, window) != First(ts, i0, window)
    ensures First(ts, j, window) <= First(ts, i, window)
  {
    var f, g, h := First(ts, i0, window), First(ts, i, window), First(ts, j, window);
    CountsFromFirst(ts, i0, window);
    CountsFromFirst(ts, i, window);
    if g <= i0 {
      SameWindow(ts, i0, i, window);
    }
    NextWindow(ts, f, i, window);
    if g < h {
      NextWindow(ts, g, j, window);
    }
  }

  ghost predicate SpanIn(ts: seq<int>, from: int, window: int, most: nat, f: nat, g: nat) {
    LetIn(ts, from, from + window, window, most) <= Through(ts, f, window, most) + Through(ts, g, window, most)
  }

  lemma TwoWindows(ts: seq<int>, from: int, window: int, most: nat)
    requires Forward(ts) && window > 0
    ensures exists f, g :: SpanIn(ts, from, window, most, f, g)
  {
    var all := LetIn(ts, from, from + window, window, most);
    if all == {} {
      assert SpanIn(ts, from, window, most, 0, 0);
    } else {
      var x :| x in all;
      LeastIs(all, x);
      var i0 :| i0 in all && forall i :: i in all ==> i0 <= i;
      var f := First(ts, i0, window);
      if j :| j in all && First(ts, j, window) != f {
        forall i | i in all
          ensures i in Through(ts, f, window, most) + Through(ts, First(ts, j, window), window, most)
        {
          if First(ts, i, window) != f {
            NoThirdWindow(ts, from, window, i0, i, j);
            NoThirdWindow(ts, from, window, i0, j, i);
          }
        }
        assert SpanIn(ts, from, window, most, f, First(ts, j, window));
      } else {
        assert SpanIn(ts, from, window, most, f, f);
      }
    }
  }

  /** In any span as long as a window, both its ends in it, a throttle lets through twice the most at most. */
  lemma SpanLets(ts: seq<int>, from: int, window: int, most: nat)
    requires Forward(ts) && window > 0
    ensures |LetIn(ts, from, from + window, window, most)| <= 2 * most
  {
    TwoWindows(ts, from, window, most);
    var f, g :| SpanIn(ts, from, window, most, f, g);
    WindowLets(ts, f, window, most);
    WindowLets(ts, g, window, most);
    Subset(LetIn(ts, from, from + window, window, most), Through(ts, f, window, most) + Through(ts, g, window, most));
  }

  lemma {:induction false} LeastIs(s: set<nat>, x: nat)
    requires x in s
    ensures exists m :: m in s && forall i :: i in s ==> m <= i
    decreases x
  {
    if y :| y in s && y < x {
      LeastIs(s, y);
    } else {
      assert forall i :: i in s ==> x <= i;
    }
  }

  // The tries of one key, among all that a store is asked.

  /** When a key was tried, of the first n that a store is asked, since it was cleared last. */
  function Times(ops: seq<Op>, key: Key, n: nat): seq<int>
    requires n <= |ops|
  {
    if n == 0 || ops[n - 1] == Clear(key) then []
    else if ops[n - 1].Hit? && ops[n - 1].key == key then Times(ops, key, n - 1) + [ops[n - 1].now]
    else Times(ops, key, n - 1)
  }

  function Run(s: State, ops: seq<Op>, n: nat, window: int): State
    requires n <= |ops| && window > 0
  {
    if n == 0 then s else Do(Run(s, ops, n - 1, window), ops[n - 1], window).0
  }

  function PlainRun(keys: Keys, ops: seq<Op>, n: nat, window: int): Keys
    requires n <= |ops|
  {
    if n == 0 then keys else Plain(PlainRun(keys, ops, n - 1, window), ops[n - 1], window).0
  }

  predicate OpsForward(ops: seq<Op>) {
    forall i, j :: 0 <= i < j < |ops| && !ops[i].Clear? && !ops[j].Clear? ==> ops[i].now <= ops[j].now
  }

  function LastTime(ops: seq<Op>, n: nat, start: int): int
    requires n <= |ops|
  {
    if n == 0 then start else TimeOf(ops[n - 1], LastTime(ops, n - 1, start))
  }

  predicate StartsBefore(ops: seq<Op>, start: int) {
    forall i :: 0 <= i < |ops| && !ops[i].Clear? ==> start <= ops[i].now
  }

  lemma {:induction false} LastIsBefore(ops: seq<Op>, n: nat, start: int, i: nat)
    requires n <= i < |ops| && OpsForward(ops) && StartsBefore(ops, start) && !ops[i].Clear?
    ensures LastTime(ops, n, start) <= ops[i].now
    decreases n
  {
    if n > 0 {
      LastIsBefore(ops, n - 1, start, i);
    }
  }

  lemma {:induction false} RunStands(ops: seq<Op>, n: nat, window: int, start: int)
    requires n <= |ops| && window > 0 && OpsForward(ops) && StartsBefore(ops, start)
    ensures Stands(Run(State(map[], 0), ops, n, window), PlainRun(map[], ops, n, window), LastTime(ops, n, start))
    decreases n
  {
    if n > 0 {
      RunStands(ops, n - 1, window, start);
      if !ops[n - 1].Clear? {
        LastIsBefore(ops, n - 1, start, n - 1);
      }
      AnswersAlike(Run(State(map[], 0), ops, n - 1, window), PlainRun(map[], ops, n - 1, window), ops[n - 1], window,
                   LastTime(ops, n - 1, start));
    }
  }

  /** A key has the count and the window of its own tries, since it was cleared last. */
  lemma {:induction false} OwnTries(ops: seq<Op>, key: Key, n: nat, window: int)
    requires n <= |ops|
    ensures var ts, keys := Times(ops, key, n), PlainRun(map[], ops, n, window);
      (key in keys <==> ts != []) && (ts != [] ==> keys[key] == After(ts, |ts|, window))
    decreases n
  {
    if n > 0 {
      OwnTries(ops, key, n - 1, window);
      var ts, was := Times(ops, key, n), Times(ops, key, n - 1);
      if ops[n - 1].Hit? {
        AfterPrefix(was, ops[n - 1].now, |was|, window);
      }
    }
  }

  lemma {:induction false} AfterPrefix(ts: seq<int>, t: int, n: nat, window: int)
    requires n <= |ts|
    ensures After(ts + [t], n, window) == After(ts, n, window)
    decreases n
  {
    if n > 0 {
      AfterPrefix(ts, t, n - 1, window);
    }
  }

  /**
   A store's answer to a try is the count of the key's tries in its window since it was cleared last, this one with them, and
   when the window ends; and one that asks without trying is told of those, or that there are none once the window is over:
   so that what a throttle lets through of a key is what its own tries say, whatever else is counted and swept.
   */
  lemma AnswersAreOwn(ops: seq<Op>, n: nat, window: int, start: int)
    requires n < |ops| && window > 0 && OpsForward(ops) && StartsBefore(ops, start) && !ops[n].Clear?
    ensures var ts, answer := Times(ops, ops[n].key, n + 1), Do(Run(State(map[], 0), ops, n, window), ops[n], window).1;
      var tries := After(ts, |ts|, window);
      answer == if ops[n].Ask? && (ts == [] || tries.until <= ops[n].now) then Answer.Answer(0, 0)
                else Answer.Answer(tries.count, tries.until)
  {
    AnswersAsPlain(ops, n, window, start);
    OwnTries(ops, ops[n].key, n, window);
    AfterPrefix(Times(ops, ops[n].key, n), ops[n].now, |Times(ops, ops[n].key, n)|, window);
  }

  lemma AnswersAsPlain(ops: seq<Op>, n: nat, window: int, start: int)
    requires n < |ops| && window > 0 && OpsForward(ops) && StartsBefore(ops, start) && !ops[n].Clear?
    ensures Do(Run(State(map[], 0), ops, n, window), ops[n], window).1 == Plain(PlainRun(map[], ops, n, window), ops[n], window).1
  {
    RunStands(ops, n, window, start);
    LastIsBefore(ops, n, start, n);
    AnswersAlike(Run(State(map[], 0), ops, n, window), PlainRun(map[], ops, n, window), ops[n], window, LastTime(ops, n, start));
  }

  lemma {:induction false} TimesForward(ops: seq<Op>, key: Key, n: nat)
    requires n <= |ops| && OpsForward(ops)
    ensures Forward(Times(ops, key, n))
    ensures forall i, j :: 0 <= i < |Times(ops, key, n)| && n <= j < |ops| && !ops[j].Clear? ==> Times(ops, key, n)[i] <= ops[j].now
    decreases n
  {
    if n > 0 {
      TimesForward(ops, key, n - 1);
    }
  }

  /** Of a key, since it was cleared last, in any span as long as a window, twice the most are let through at most. */
  lemma KeyLets(ops: seq<Op>, key: Key, from: int, window: int, most: nat)
    requires OpsForward(ops) && window > 0
    ensures |LetIn(Times(ops, key, |ops|), from, from + window, window, most)| <= 2 * most
  {
    TimesForward(ops, key, |ops|);
    SpanLets(Times(ops, key, |ops|), from, window, most);
  }

  /** Whether the n-th that a store is asked is a try of the key in a span, and is answered with no more than the most. */
  predicate LetByStore(ops: seq<Op>, key: Key, n: nat, from: int, window: int, most: nat)
    requires n < |ops| && window > 0
  {
    && ops[n].Hit? && ops[n].key == key && from <= ops[n].now <= from + window
    && Do(Run(State(map[], 0), ops, n, window), ops[n], window).1.count <= most
  }

  /** How many of the first n are. */
  function CountLet(ops: seq<Op>, key: Key, n: nat, from: int, window: int, most: nat): nat
    requires n <= |ops| && window > 0
  {
    if n == 0 then 0 else CountLet(ops, key, n - 1, from, window, most) + if LetByStore(ops, key, n - 1, from, window, most) then 1 else 0
  }

  lemma LetInMore(ts: seq<int>, t: int, from: int, until: int, window: int, most: nat)
    ensures LetIn(ts + [t], from, until, window, most) ==
            LetIn(ts, from, until, window, most) +
            if from <= t <= until && After(ts + [t], |ts| + 1, window).count <= most then {|ts|} else {}
  {
    forall i: nat | i < |ts|
      ensures Let(ts + [t], i, window, most) == Let(ts, i, window, most)
    {
      AfterPrefix(ts, t, i + 1, window);
    }
  }

  lemma {:induction false} CountLetIs(ops: seq<Op>, key: Key, n: nat, from: int, window: int, most: nat, start: int)
    requires n <= |ops| && window > 0 && OpsForward(ops) && StartsBefore(ops, start) && Clear(key) !in ops
    ensures CountLet(ops, key, n, from, window, most) == |LetIn(Times(ops, key, n), from, from + window, window, most)|
    decreases n
  {
    if n > 0 {
      CountLetIs(ops, key, n - 1, from, window, most, start);
      assert ops[n - 1] != Clear(key);
      if ops[n - 1].Hit? && ops[n - 1].key == key {
        LetByStoreIs(ops, n - 1, from, window, most, start);
        LetInMore(Times(ops, key, n - 1), ops[n - 1].now, from, from + window, window, most);
      }
    }
  }

  lemma LetByStoreIs(ops: seq<Op>, n: nat, from: int, window: int, most: nat, start: int)
    requires n < |ops| && window > 0 && OpsForward(ops) && StartsBefore(ops, start) && ops[n].Hit?
    ensures var ts := Times(ops, ops[n].key, n);
      LetByStore(ops, ops[n].key, n, from, window, most) <==>
      from <= ops[n].now <= from + window && After(ts + [ops[n].now], |ts| + 1, window).count <= most
  {
    AnswersAreOwn(ops, n, window, start);
  }

  /**
   Of all that a store is asked, the tries of a key that nothing clears, in any span as long as a window, that it answers
   with no more than the most, are twice that at most: so many are let through, whatever is swept.
   */
  lemma StoreLets(ops: seq<Op>, key: Key, from: int, window: int, most: nat, start: int)
    requires window > 0 && OpsForward(ops) && StartsBefore(ops, start) && Clear(key) !in ops
    ensures CountLet(ops, key, |ops|, from, window, most) <= 2 * most
  {
    CountLetIs(ops, key, |ops|, from, window, most, start);
    KeyLets(ops, key, from, window, most);
  }

  const MINUTE: int := 60_000_000_000

  /** A throttle of a store: its most tries in its window, 5 in a minute where they are not set. */
  class Throttle {
    const store: MemoryThrottles
    const max: int
    const window: int

    constructor (store: MemoryThrottles, max: int, window: int)
      ensures this.store == store && this.max == max && this.window == window
    {
      this.store, this.max, this.window := store, max, window;
    }

    function Most(): nat {
      if max <= 0 then 5 else max
    }

    function Window(): (w: int)
      ensures w > 0
    {
      if window <= 0 then MINUTE else window
    }

    /** Counts a try, and says how long until the window ends when it is one too many. */
    method Try(key: Key, now: int) returns (wait: int)
      modifies store
      ensures var most, window := if max > 0 then max else 5, if window > 0 then window else 60_000_000_000;
        var (after, answer) := Do(old(store.Now()), Op.Hit(key, now), window);
        store.Now() == after && wait == if answer.count <= most then 0 else answer.ends - now
    {
      var tries, ends := store.Hit(key, now, Window());
      if tries <= Most() {
        return 0;
      }
      wait := ends - now;
    }

    /** How long a try would have to wait, without counting one: what Try would say. */
    method Wait(key: Key, now: int) returns (wait: int)
      ensures var most, window := if max > 0 then max else 5, if window > 0 then window else 60_000_000_000;
        var answer := Do(store.Now(), Op.Hit(key, now), window).1;
        wait == if answer.count <= most then 0 else answer.ends - now
      ensures wait >= 0
    {
      var tries, ends := store.TriesAt(key, now);
      assert (store.Now(), Answer.Answer(tries, ends)) == Do(store.Now(), Ask(key, now), Window());
      if tries < Most() || now >= ends {
        return 0;
      }
      wait := ends - now;
    }
  }
}
