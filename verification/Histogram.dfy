/**
 bench/load.go: durations counted in buckets a 64th of a power of two wide, so that a percentile is within a 64th of the
 duration that it stands for. Durations are in nanoseconds, and are counted in microseconds.
 */
module Histogram {
  /** bits.Len64: how many bits a number takes. */
  function Bits(v: nat): nat {
    if v == 0 then 0 else 1 + Bits(v / 2)
  }

  function Right(v: nat, n: nat): nat {
    if n == 0 then v else Right(v / 2, n - 1)
  }

  function Left(v: nat, n: nat): nat {
    if n == 0 then v else 2 * Left(v, n - 1)
  }

  function Bucket(v: nat): nat {
    if v < 128 then v
    else
      var shift := if Bits(v) < 7 then 0 else Bits(v) - 7;
      64 * shift + Right(v, shift)
  }

  /** The least value in bucket i. */
  function Low(i: nat): nat {
    if i < 128 then i
    else
      var shift := i / 64 - 1;
      Left(i - 64 * shift, shift)
  }

  lemma {:induction false} BitsBound(v: nat)
    requires v > 0
    ensures Bits(v) > 0 && Left(1, Bits(v) - 1) <= v < Left(1, Bits(v))
    decreases v
  {
    if v > 1 {
      BitsBound(v / 2);
    }
  }

  lemma {:induction false} LeftGrows(v: nat, m: nat, n: nat)
    requires m <= n
    ensures Left(v, m) <= Left(v, n)
    decreases n
  {
    if m < n {
      LeftGrows(v, m, n - 1);
    }
  }

  lemma SevenBits(v: nat)
    ensures Bits(v) == 7 <==> 64 <= v < 128
    ensures Bits(v) < 7 <==> v < 64
  {
    assert Left(1, 6) == 64 && Left(1, 7) == 128;
    if v > 0 {
      BitsBound(v);
      if Bits(v) <= 6 {
        LeftGrows(1, Bits(v), 6);
      } else if Bits(v) > 7 {
        LeftGrows(1, 7, Bits(v) - 1);
      }
    }
  }

  /** A value's top seven bits are at least 64. */
  lemma {:induction false} TopSeven(v: nat, n: nat)
    requires Bits(v) == n + 7
    ensures 64 <= Right(v, n) < 128
    decreases n
  {
    if n == 0 {
      SevenBits(v);
    } else {
      TopSeven(v / 2, n - 1);
    }
  }

  lemma {:induction false} ShiftedBack(v: nat, n: nat)
    ensures Left(Right(v, n), n) <= v < Left(Right(v, n) + 1, n)
    decreases n
  {
    if n > 0 {
      ShiftedBack(v / 2, n - 1);
    }
  }

  lemma {:induction false} LeftOf(q: nat, n: nat)
    ensures Left(q + 1, n) == Left(q, n) + Left(1, n) && Left(1, n) > 0
    ensures q >= 64 ==> Left(q, n) >= 64 * Left(1, n)
    ensures Left(2 * q, n) == Left(q, n + 1)
    decreases n
  {
    if n > 0 {
      LeftOf(q, n - 1);
    }
  }

  lemma LowAt(shift: nat, q: nat)
    requires 64 <= q <= 128 && (shift > 0 || q == 128)
    ensures Low(64 * shift + q) == Left(q, shift)
  {
    if q == 128 {
      assert (64 * shift + 128) / 64 == shift + 2;
      LeftOf(64, shift);
    } else {
      assert (64 * shift + q) / 64 == shift + 1;
    }
  }

  lemma BucketIs(v: nat) returns (shift: nat, q: nat)
    requires v >= 128
    ensures shift > 0 && 64 <= q < 128 && Bucket(v) == 64 * shift + q && Left(q, shift) <= v < Left(q + 1, shift)
  {
    SevenBits(v);
    shift := Bits(v) - 7;
    q := Right(v, shift);
    TopSeven(v, shift);
    ShiftedBack(v, shift);
  }

  lemma BucketBounds(shift: nat, q: nat)
    requires shift > 0 && 64 <= q < 128
    ensures Low(64 * shift + q) == Left(q, shift) && Low(64 * shift + q + 1) == Left(q + 1, shift)
    ensures 64 * (Left(q + 1, shift) - Left(q, shift)) <= Left(q, shift)
  {
    LowAt(shift, q);
    LowAt(shift, q + 1);
    LeftOf(q, shift);
  }

  /** A value is in its bucket, and a bucket above 128 is no wider than a 64th of the values in it. */
  lemma InBucket(v: nat)
    ensures Low(Bucket(v)) <= v < Low(Bucket(v) + 1)
    ensures v < 128 ==> Low(Bucket(v)) == v && Low(Bucket(v) + 1) == v + 1
    ensures v >= 128 ==> 64 * (Low(Bucket(v) + 1) - Low(Bucket(v))) <= v
  {
    if v == 127 {
      LowAt(0, 128);
    } else if v >= 128 {
      var shift, q := BucketIs(v);
      BucketBounds(shift, q);
    }
  }

  lemma LowGrows(i: nat)
    ensures Low(i) < Low(i + 1)
  {
    if i == 127 {
      LowAt(0, 128);
    } else if i >= 128 {
      var shift := i / 64 - 1;
      var q := i - 64 * shift;
      LowAt(shift, q);
      LowAt(shift, q + 1);
      LeftOf(q, shift);
    }
  }

  lemma {:induction false} LowMonotone(i: nat, j: nat)
    requires i <= j
    ensures Low(i) <= Low(j)
    decreases j
  {
    if i < j {
      LowMonotone(i, j - 1);
      LowGrows(j - 1);
    }
  }

  lemma BucketMonotone(v: nat, w: nat)
    requires v <= w
    ensures Bucket(v) <= Bucket(w)
  {
    InBucket(v);
    InBucket(w);
    if Bucket(w) < Bucket(v) {
      LowMonotone(Bucket(w) + 1, Bucket(v));
    }
  }

  // The histogram.

  const SIZE: nat := 64 * 48

  /** The slots hold all durations of fewer than 2^53 microseconds, which is where a 64-bit count of them would still fit. */
  lemma SlotsReach()
    ensures Low(SIZE) == 0x20_0000_0000_0000
  {
    LowAt(46, 128);
    LeftSixteen(128, 30);
    LeftSixteen(128, 14);
    LeftFour(128, 10);
    LeftFour(128, 6);
    LeftFour(128, 2);
  }

  lemma LeftFour(v: nat, n: nat)
    ensures Left(v, n + 4) == 16 * Left(v, n)
  {
    assert Left(v, n + 4) == 4 * Left(v, n + 2);
  }

  lemma LeftSixteen(v: nat, n: nat)
    ensures Left(v, n + 16) == 0x1_0000 * Left(v, n)
  {
    LeftFour(v, n + 12);
    LeftFour(v, n + 8);
    LeftFour(v, n + 4);
    LeftFour(v, n);
  }

  /** A duration in microseconds, and none below 0. */
  function Micros(d: int): nat {
    if d < 0 then 0 else d / 1000
  }

  function Slot(d: int): (i: nat)
    ensures i < SIZE
  {
    var i := Bucket(Micros(d));
    if i < SIZE then i else SIZE - 1
  }

  lemma SlotMonotone(d: int, e: int)
    requires Micros(d) <= Micros(e)
    ensures Slot(d) <= Slot(e)
  {
    BucketMonotone(Micros(d), Micros(e));
  }

  /** How many of the durations are in a slot. */
  function InSlot(ds: seq<int>, i: nat): nat {
    if ds == [] then 0 else InSlot(ds[..|ds| - 1], i) + if Slot(ds[|ds| - 1]) == i then 1 else 0
  }

  function Longest(ds: seq<int>): nat {
    if ds == [] then 0
    else
      var before, last := Longest(ds[..|ds| - 1]), ds[|ds| - 1];
      if last > before then last else before
  }

  function Sum(counts: seq<nat>, n: nat): nat
    requires n <= |counts|
  {
    if n == 0 then 0 else Sum(counts, n - 1) + counts[n - 1]
  }

  class Counts {
    const counts: array<nat>
    var n: nat
    var max: nat

    /** It has counted these durations, and no others. */
    ghost predicate Has(ds: seq<int>)
      reads this, counts
    {
      && counts.Length == SIZE && n == |ds| && max == Longest(ds)
      && forall i :: 0 <= i < SIZE ==> counts[i] == InSlot(ds, i)
    }

    constructor ()
      ensures Has([]) && fresh(counts)
    {
      counts := new nat[SIZE](i => 0);
      n, max := 0, 0;
    }

    method Record(d: int, ghost ds: seq<int>)
      requires Has(ds)
      modifies this, counts
      ensures Has(ds + [d])
    {
      counts[Slot(d)] := counts[Slot(d)] + 1;
      n := n + 1;
      max := if d > max then d else max;
      assert (ds + [d])[..|ds|] == ds;
    }

    /** Merging two histograms makes the one of the durations of both. */
    method Merge(o: Counts, ghost ds: seq<int>, ghost es: seq<int>)
      requires Has(ds) && o.Has(es) && o != this && o.counts != counts
      modifies this, counts
      ensures Has(ds + es)
    {
      for i := 0 to counts.Length
        invariant o.Has(es) && counts.Length == SIZE && n == |ds| && max == Longest(ds)
        invariant forall k :: 0 <= k < SIZE ==> counts[k] == InSlot(ds, k) + if k < i then InSlot(es, k) else 0
      {
        counts[i] := counts[i] + o.counts[i];
      }
      n := n + o.n;
      max := if o.max > max then o.max else max;
      LongestOfBoth(ds, es);
      forall i | 0 <= i < SIZE
        ensures InSlot(ds + es, i) == InSlot(ds, i) + InSlot(es, i)
      {
        InSlotOfBoth(ds, es, i);
      }
    }

    /** The duration that so many of them are at or under, as the middle of its bucket. */
    method Percentile(q: real, ghost ds: seq<int>) returns (r: nat)
      requires Has(ds)
      ensures var at := (q * |ds| as real + 0.5).Floor;
        var rank := if at < 1 then 1 else at;
        && (0.0 <= q <= 1.0 && |ds| > 0 ==> 1 <= rank <= |ds| && exists x :: Ranked(ds, rank, x))
        && (|ds| > 0 && rank <= |ds| ==> forall x :: Ranked(ds, rank, x) && Micros(x) < Low(SIZE) ==> Near(r, 1000 * Micros(x)))
      ensures |ds| == 0 ==> r == 0
    {
      if n == 0 {
        return 0;
      }
      var rank := Rank(q, n);
      if 0.0 <= q <= 1.0 {
        RankInRange(q, n);
        SomeRanked(ds, rank);
      }
      var seen := 0;
      NoneBelow(ds);
      for i := 0 to counts.Length
        invariant seen == Below(ds, i) < rank
      {
        seen := seen + counts[i];
        BelowNext(ds, i);
        if seen >= rank {
          var mid := 1000 * ((Low(i) + Low(i + 1)) / 2);
          r := if mid < max then mid else max;
          forall x | Ranked(ds, rank, x) && Micros(x) < Low(SIZE)
            ensures Near(r, 1000 * Micros(x))
          {
            RankedIn(ds, rank, x, i);
            MiddleIsNear(ds, x, i);
          }
          return;
        }
      }
      AllBelow(ds);
      r := max;
    }
  }

  lemma {:induction false} InSlotOfBoth(ds: seq<int>, es: seq<int>, i: nat)
    ensures InSlot(ds + es, i) == InSlot(ds, i) + InSlot(es, i)
    decreases |es|
  {
    if es == [] {
      assert ds + es == ds;
    } else {
      InSlotOfBoth(ds, es[..|es| - 1], i);
      assert (ds + es)[..|ds + es| - 1] == ds + es[..|es| - 1];
    }
  }

  lemma {:induction false} LongestOfBoth(ds: seq<int>, es: seq<int>)
    ensures Longest(ds + es) == if Longest(es) > Longest(ds) then Longest(es) else Longest(ds)
    decreases |es|
  {
    if es == [] {
      assert ds + es == ds;
    } else {
      LongestOfBoth(ds, es[..|es| - 1]);
      assert (ds + es)[..|ds + es| - 1] == ds + es[..|es| - 1];
    }
  }

  // Percentiles.

  function Rank(q: real, n: nat): nat {
    var rank := (q * n as real + 0.5).Floor;
    if rank < 1 then 1 else rank
  }

  /** How many durations are in the slots below one, and how many are shorter than one, and no longer. */
  function Below(ds: seq<int>, i: nat): nat {
    if ds == [] then 0 else Below(ds[..|ds| - 1], i) + if Slot(ds[|ds| - 1]) < i then 1 else 0
  }

  function Shorter(ds: seq<int>, x: int): nat {
    if ds == [] then 0 else Shorter(ds[..|ds| - 1], x) + if Micros(ds[|ds| - 1]) < Micros(x) then 1 else 0
  }

  function NoLonger(ds: seq<int>, x: int): nat {
    if ds == [] then 0 else NoLonger(ds[..|ds| - 1], x) + if Micros(ds[|ds| - 1]) <= Micros(x) then 1 else 0
  }

  /** A duration is the rank-th of those counted, from the shortest, in microseconds. */
  predicate Ranked(ds: seq<int>, rank: nat, x: int) {
    x in ds && Shorter(ds, x) < rank <= NoLonger(ds, x)
  }

  /** One number is within a 64th of another. */
  predicate Near(r: nat, x: nat) {
    64 * r <= 65 * x && 63 * x <= 64 * r
  }

  lemma {:induction false} BelowNext(ds: seq<int>, i: nat)
    ensures Below(ds, i + 1) == Below(ds, i) + InSlot(ds, i)
    decreases |ds|
  {
    if ds != [] {
      BelowNext(ds[..|ds| - 1], i);
    }
  }

  lemma {:induction false} AllBelow(ds: seq<int>)
    ensures Below(ds, SIZE) == |ds|
    decreases |ds|
  {
    if ds != [] {
      AllBelow(ds[..|ds| - 1]);
    }
  }

  /** The counts always add up to how many were counted. */
  lemma {:induction false} CountsAddUp(counts: seq<nat>, ds: seq<int>, n: nat)
    requires n <= |counts| && forall i :: 0 <= i < |counts| ==> counts[i] == InSlot(ds, i)
    ensures Sum(counts, n) == Below(ds, n)
    ensures n == SIZE ==> Sum(counts, n) == |ds|
    decreases n
  {
    if n > 0 {
      CountsAddUp(counts, ds, n - 1);
      BelowNext(ds, n - 1);
    } else {
      NoneBelow(ds);
    }
    if n == SIZE {
      AllBelow(ds);
    }
  }

  lemma {:induction false} NoneBelow(ds: seq<int>)
    ensures Below(ds, 0) == 0
    decreases |ds|
  {
    if ds != [] {
      NoneBelow(ds[..|ds| - 1]);
    }
  }

  lemma {:induction false} LowerSlots(ds: seq<int>, x: int, i: nat)
    ensures Slot(x) < i ==> NoLonger(ds, x) <= Below(ds, i)
    ensures Slot(x) >= i ==> Below(ds, i) <= Shorter(ds, x)
    decreases |ds|
  {
    if ds != [] {
      LowerSlots(ds[..|ds| - 1], x, i);
      var d := ds[|ds| - 1];
      if Micros(d) <= Micros(x) {
        SlotMonotone(d, x);
      } else {
        SlotMonotone(x, d);
      }
      if Micros(x) <= Micros(d) {
        SlotMonotone(x, d);
      }
    }
  }

  /** How many durations are no longer than so many microseconds. */
  function UpTo(ds: seq<int>, m: int): nat {
    if ds == [] then 0 else UpTo(ds[..|ds| - 1], m) + if Micros(ds[|ds| - 1]) <= m then 1 else 0
  }

  lemma {:induction false} UpToAll(ds: seq<int>) returns (m: nat)
    ensures UpTo(ds, m) == |ds| && forall d :: d in ds ==> Micros(d) <= m
    decreases |ds|
  {
    m := 0;
    if ds != [] {
      var before := UpToAll(ds[..|ds| - 1]);
      m := before + Micros(ds[|ds| - 1]);
      AllUpTo(ds[..|ds| - 1], m);
      assert ds == ds[..|ds| - 1] + [ds[|ds| - 1]];
    }
  }

  lemma {:induction false} AllUpTo(ds: seq<int>, m: int)
    requires forall d :: d in ds ==> Micros(d) <= m
    ensures UpTo(ds, m) == |ds|
    decreases |ds|
  {
    if ds != [] {
      AllUpTo(ds[..|ds| - 1], m);
    }
  }

  lemma {:induction false} NoneUpTo(ds: seq<int>)
    ensures UpTo(ds, -1) == 0
    decreases |ds|
  {
    if ds != [] {
      NoneUpTo(ds[..|ds| - 1]);
    }
  }

  lemma {:induction false} UpToIs(ds: seq<int>, x: int)
    ensures UpTo(ds, Micros(x)) == NoLonger(ds, x) && UpTo(ds, Micros(x) - 1) == Shorter(ds, x)
    decreases |ds|
  {
    if ds != [] {
      UpToIs(ds[..|ds| - 1], x);
    }
  }

  /** Where one more microsecond counts more durations, one of them is as long. */
  lemma {:induction false} OneAt(ds: seq<int>, m: int)
    requires UpTo(ds, m - 1) < UpTo(ds, m)
    ensures exists x :: x in ds && Micros(x) == m
    decreases |ds|
  {
    var d := ds[|ds| - 1];
    if Micros(d) == m {
      assert d in ds;
    } else {
      OneAt(ds[..|ds| - 1], m);
    }
  }

  lemma {:induction false} LeastUpTo(ds: seq<int>, rank: nat, m: int) returns (least: int)
    requires rank > 0 && UpTo(ds, m) >= rank && m >= -1
    ensures UpTo(ds, least - 1) < rank <= UpTo(ds, least)
    decreases m + 1
  {
    if m == -1 {
      NoneUpTo(ds);
    }
    if UpTo(ds, m - 1) < rank {
      least := m;
    } else {
      least := LeastUpTo(ds, rank, m - 1);
    }
  }

  /** Of every rank there is a duration, and the rank of a part of them is one. */
  lemma SomeRanked(ds: seq<int>, rank: nat)
    requires 1 <= rank <= |ds|
    ensures exists x :: Ranked(ds, rank, x)
  {
    var m := UpToAll(ds);
    var least := LeastUpTo(ds, rank, m);
    OneAt(ds, least);
    var x :| x in ds && Micros(x) == least;
    UpToIs(ds, x);
    assert Ranked(ds, rank, x);
  }

  lemma PartIsLess(q: real, n: real)
    requires 0.0 <= q <= 1.0 && n >= 0.0
    ensures 0.0 <= q * n <= n
  {
  }

  lemma RankInRange(q: real, n: nat)
    requires 0.0 <= q <= 1.0 && n > 0
    ensures 1 <= Rank(q, n) <= n
  {
    PartIsLess(q, n as real);
  }

  /** The rank-th duration is in the slot that brings what is seen to the rank. */
  lemma RankedIn(ds: seq<int>, rank: nat, x: int, i: nat)
    requires Ranked(ds, rank, x) && Below(ds, i) < rank <= Below(ds, i + 1)
    ensures Slot(x) == i
  {
    LowerSlots(ds, x, i);
    LowerSlots(ds, x, i + 1);
  }

  lemma {:induction false} LongestIsLongest(ds: seq<int>, x: int)
    requires x in ds
    ensures x <= Longest(ds)
    decreases |ds|
  {
    if x != ds[|ds| - 1] {
      assert ds == ds[..|ds| - 1] + [ds[|ds| - 1]];
      LongestIsLongest(ds[..|ds| - 1], x);
    }
  }

  lemma MiddleIsNear(ds: seq<int>, x: int, i: nat)
    requires x in ds && Slot(x) == i && Micros(x) < Low(SIZE)
    ensures var mid := 1000 * ((Low(i) + Low(i + 1)) / 2);
      Near(if mid < Longest(ds) then mid else Longest(ds), 1000 * Micros(x))
  {
    var v := Micros(x);
    InBucket(v);
    if Bucket(v) >= SIZE {
      LowMonotone(SIZE, Bucket(v));
    }
    LongestIsLongest(ds, x);
  }
}
