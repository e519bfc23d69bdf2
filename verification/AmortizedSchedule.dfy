/** The binary counter behind the amortized index: which levels are merged by
    an update, which slice of the history each level stands for, and how many
    record moves a run costs. */
module AmortizedSchedule {
  import opened Powers
  import opened HeapTree
  import opened Records

  /** log2(~u & (u + 1)): the position of the lowest zero bit of u. */
  function LowestZero(u: nat): nat {
    if u % 2 == 0 then 0 else 1 + LowestZero(u / 2)
  }

  function Bit(n: nat, i: nat): nat {
    Climb(n, i) % 2
  }

  /** One increment of the counter, level by level. */
  lemma {:induction false} IncrementBits(n: nat, i: nat)
    ensures var r := LowestZero(n);
            && (i < r ==> Bit(n, i) == 1 && Bit(n + 1, i) == 0)
            && (i == r ==> Bit(n, i) == 0 && Climb(n + 1, i) == Climb(n, i) + 1)
            && (i > r ==> Climb(n + 1, i) == Climb(n, i))
  {
    if i == 0 {
      IncrementLowest(n);
    } else {
      ClimbFirst(n, i);
      ClimbFirst(n + 1, i);
      LowestZeroStep(n);
      hide *;
      if n % 2 == 1 { IncrementBits(n / 2, i - 1); }
      BitStep(n, i);
      BitStep(n + 1, i);
    }
  }

  lemma LowestZeroStep(n: nat)
    ensures LowestZero(n) == if n % 2 == 0 then 0 else 1 + LowestZero(n / 2)
    ensures n % 2 == 1 ==> (n + 1) / 2 == n / 2 + 1
    ensures n % 2 == 0 ==> (n + 1) / 2 == n / 2
  {
  }

  lemma BitStep(n: nat, i: nat)
    requires i >= 1
    ensures Bit(n, i) == Bit(n / 2, i - 1)
  {
    ClimbFirst(n, i);
  }

  lemma IncrementLowest(n: nat)
    ensures Climb(n, 0) == n && Climb(n + 1, 0) == n + 1
    ensures Bit(n, 0) == n % 2 && Bit(n + 1, 0) == (n + 1) % 2
    ensures 0 < LowestZero(n) <==> n % 2 == 1
  {
  }

  /** After an increment the merged level ends exactly at the present. */
  lemma {:induction false} MergedEndsNow(n: nat)
    ensures Start(LowestZero(n), Climb(n + 1, LowestZero(n))) == n + 1
  {
    var r := LowestZero(n);
    if r == 0 {
      StartZero(n + 1);
    } else {
      MergedEndsNow(n / 2);
      ClimbFirst(n + 1, r);
      StartShift(r - 1, Climb((n + 1) / 2, r - 1));
    }
  }

  lemma {:induction false} StartShift(j: nat, k: nat)
    ensures Start(j + 1, k) == 2 * Start(j, k)
  {
    if k > 0 { StartShift(j, k - 1); }
  }

  /** The levels in use never run past the counter's width. */
  lemma {:induction false} LowestZeroBound(u: nat, t: nat)
    requires u + 1 < Pow2(t)
    ensures LowestZero(u) < t
    decreases u
  {
    if u % 2 == 1 { LowestZeroBound(u / 2, t - 1); }
  }

  /** The slice of the history that level i stands for after n updates. */
  ghost function Slice(h: seq<Record>, i: nat): seq<Record> {
    var c := Climb(|h|, i);
    if c % 2 == 1 && Start(i, c) <= |h| then h[Start(i, c - 1)..Start(i, c)] else []
  }

  lemma SliceSize(h: seq<Record>, i: nat)
    ensures |Slice(h, i)| == if Bit(|h|, i) == 1 then Pow2(i) else 0
  {
    ClimbRange(|h|, i, Climb(|h|, i));
  }

  ghost function Slices(h: seq<Record>, n: nat): multiset<Record> {
    if n == 0 then multiset{} else Slices(h, n - 1) + multiset(Slice(h, n - 1))
  }

  /** The lowest n levels stand for the most recent updates, each once. */
  lemma {:induction false} RecentSlices(h: seq<Record>, n: nat)
    ensures Start(n, Climb(|h|, n)) <= |h|
    ensures Slices(h, n) == multiset(h[Start(n, Climb(|h|, n))..])
  {
    hide Climb, Start, Slice;
    if n == 0 {
      ClimbZero(|h|);
    } else {
      RecentSlices(h, n - 1);
      SliceBetween(h, n);
      var a, b := Start(n, Climb(|h|, n)), Start(n - 1, Climb(|h|, n - 1));
      assert h[a..] == h[a..b] + h[b..];
    }
  }

  lemma ClimbZero(n: nat)
    ensures Climb(n, 0) == n && Start(0, n) == n
  {
    StartZero(n);
  }

  /** A level's slice is exactly what lies between the reach of the levels
      below it and the reach including it. */
  lemma SliceBetween(h: seq<Record>, n: nat)
    requires n >= 1
    ensures var a, b := Start(n, Climb(|h|, n)), Start(n - 1, Climb(|h|, n - 1));
            a <= b <= |h| && Slice(h, n - 1) == h[a..b]
  {
    var c := Climb(|h|, n - 1);
    assert Climb(|h|, n) == c / 2;
    StartHalves(n - 1, c / 2);
    ClimbRange(|h|, n - 1, c);
    StartMonotone(n - 1, 2 * (c / 2), c);
    assert c == 2 * (c / 2) + c % 2;
  }

  /** Once the counter fits, the slices are the whole history. */
  lemma SlicesAreHistory(h: seq<Record>, t: nat)
    requires |h| < Pow2(t)
    ensures Slices(h, t) == multiset(h)
  {
    RecentSlices(h, t);
    StartIsProduct(t, 1);
    ClimbRange(|h|, t, 0);
    assert h[0..] == h;
  }

  /** An update merges the slices below its level with the new record into the
      new slice of that level, empties the lower ones and leaves the others. */
  lemma SliceStep(h: seq<Record>, x: Record, i: nat)
    ensures var r := LowestZero(|h|);
            && (i < r ==> Slice(h + [x], i) == [])
            && (i > r ==> Slice(h + [x], i) == Slice(h, i))
            && (i == r ==> multiset(Slice(h + [x], i)) == Slices(h, r) + multiset{x} && Slice(h, i) == [])
  {
    hide Slice, Slices, LowestZero;
    var r := LowestZero(|h|);
    IncrementBits(|h|, i);
    if i < r {
      EvenSlice(h + [x], i);
    } else if i > r {
      SameSlice(h, x, i);
    } else {
      EvenSlice(h, i);
      MergedSlice(h, x);
    }
  }

  lemma EvenSlice(h: seq<Record>, i: nat)
    requires Bit(|h|, i) == 0
    ensures Slice(h, i) == []
  {
    hide Climb, Start;
  }

  lemma SameSlice(h: seq<Record>, x: Record, i: nat)
    requires Climb(|h| + 1, i) == Climb(|h|, i)
    ensures Slice(h + [x], i) == Slice(h, i)
  {
    hide Climb, Start;
    ReachWithin(|h|, i);
  }

  lemma ReachWithin(n: nat, i: nat)
    ensures Start(i, Climb(n, i)) <= n
    ensures Climb(n, i) >= 1 ==> Start(i, Climb(n, i) - 1) <= Start(i, Climb(n, i))
  {
    ClimbRange(n, i, Climb(n, i));
    if Climb(n, i) >= 1 { StartMonotone(i, Climb(n, i) - 1, Climb(n, i)); }
  }

  lemma MergedSlice(h: seq<Record>, x: Record)
    ensures multiset(Slice(h + [x], LowestZero(|h|))) == Slices(h, LowestZero(|h|)) + multiset{x}
  {
    hide Climb, Start, LowestZero, Slices, Slice;
    var r := LowestZero(|h|);
    RecentSlices(h, r);
    var a := Start(r, Climb(|h|, r));
    MergedRange(h, x, a);
    SuffixAppends(h, x, a);
  }

  lemma MergedRange(h: seq<Record>, x: Record, a: nat)
    requires a == Start(LowestZero(|h|), Climb(|h|, LowestZero(|h|))) <= |h|
    ensures Slice(h + [x], LowestZero(|h|)) == (h + [x])[a..|h| + 1]
  {
    hide Climb, Start, LowestZero;
    var r, n := LowestZero(|h|), |h|;
    IncrementBits(n, r);
    MergedEndsNow(n);
    IncrementOdd(n);
    assert |h + [x]| == n + 1;
  }

  lemma SuffixAppends(h: seq<Record>, x: Record, a: nat)
    requires a <= |h|
    ensures multiset((h + [x])[a..|h| + 1]) == multiset(h[a..]) + multiset{x}
  {
    assert (h + [x])[a..|h| + 1] == h[a..] + [x];
  }

  lemma IncrementOdd(n: nat)
    ensures Climb(n + 1, LowestZero(n)) % 2 == 1
  {
    IncrementBits(n, LowestZero(n));
  }

  // ----- cost -----

  /** Records moved by the first n updates: each fills its level. */
  ghost function Moves(n: nat): nat {
    if n == 0 then 0 else Moves(n - 1) + Pow2(LowestZero(n - 1))
  }

  lemma {:induction false} MovesDouble(m: nat)
    ensures Moves(2 * m) == m + 2 * Moves(m)
  {
    if m > 0 {
      hide *;
      MovesDouble(m - 1);
      MovesTwice(m);
    } else {
      MovesNone();
    }
  }

  lemma MovesNone()
    ensures Moves(0) == 0
  {
  }

  lemma MovesLast(n: nat)
    requires n >= 1
    ensures Moves(n) == Moves(n - 1) + Pow2(LowestZero(n - 1))
  {
  }

  lemma MovesTwice(m: nat)
    requires m >= 1
    ensures Moves(2 * m) == Moves(2 * m - 2) + 1 + 2 * (Moves(m) - Moves(m - 1))
  {
    hide *;
    LowestZeroTwice(m);
    PowerStep(LowestZero(m - 1));
    MovesLast(2 * m);
    MovesLast(2 * m - 1);
    MovesLast(m);
  }

  lemma LowestZeroTwice(m: nat)
    requires m >= 1
    ensures LowestZero(2 * m - 1) == LowestZero(m - 1) + 1 && LowestZero(2 * m - 2) == 0
  {
    assert (2 * m - 1) % 2 == 1 && (2 * m - 1) / 2 == m - 1 && (2 * m - 2) % 2 == 0;
  }

  lemma PowerStep(k: nat)
    ensures Pow2(k + 1) == 2 * Pow2(k) && Pow2(0) == 1
  {
  }

  /** Amortized cost: at most floor(log2 n) + 1 moves per update. */
  lemma {:induction false} MovesBounded(n: nat)
    requires n >= 1
    ensures Moves(n) <= n * (FloorLog2(n) + 1)
    decreases n
  {
    hide *;
    FloorLog2Step(n);
    var m := n / 2;
    if n == 1 {
      MovesOne();
    } else {
      MovesBounded(m);
      MovesHalf(n, m);
      MovesArith(m, FloorLog2(m), n, Moves(m), Moves(n));
    }
  }

  lemma MovesOne()
    ensures Moves(1) == 1
  {
    MovesLast(1);
  }

  lemma MovesHalf(n: nat, m: nat)
    requires m >= 1 && (n == 2 * m || n == 2 * m + 1)
    ensures Moves(n) == m + 2 * Moves(m) + (n - 2 * m)
  {
    hide *;
    MovesDouble(m);
    if n == 2 * m + 1 {
      MovesLast(n);
      LowestZeroTwice(m + 1);
      PowerStep(0);
    }
  }

  lemma FloorLog2Step(n: nat)
    requires n >= 1
    ensures FloorLog2(n) == if n == 1 then 0 else 1 + FloorLog2(n / 2)
  {
  }

  lemma MovesArith(m: nat, k: nat, n: nat, half: nat, all: nat)
    requires m >= 1 && half <= m * (k + 1) && (n == 2 * m || n == 2 * m + 1)
    requires all == m + 2 * half + (n - 2 * m)
    ensures all <= n * (k + 2)
  {
    assert (2 * m) * (k + 2) == 2 * (m * (k + 1)) + 2 * m;
    assert (2 * m + 1) * (k + 2) == (2 * m) * (k + 2) + k + 2;
  }
}
