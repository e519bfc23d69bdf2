/** A search, then insertions of the same keyword, then a search: which insertions
    the entries left by the first search make the amortized index lose. */
module AmortizedShadow {
  import opened Powers
  import opened Collections
  import opened HeapTree
  import opened Records
  import opened AmortizedSchedule
  import opened Amortized

  /** The insertions that are gone after n of them. */
  function Lost(n: nat): nat {
    if n == 0 then 0 else if n < 1024 then Pow2(FloorLog2(n)) else 512
  }

  /** After u updates the client levels that were never filled beyond their first time
      still have the entry left by the search, and those emptied since do not. */
  ghost predicate Shade(levels: seq<Level>, u: nat, w: string) {
    forall i :: 0 <= i < 10 && i < |levels| ==> ShadeAt(levels[i], i, u, w)
  }

  ghost predicate ShadeAt(l: Level, i: nat, u: nat, w: string) {
    && (u < Pow2(i + 1) ==> Shadowed(l, w))
    && (u >= Pow2(i + 1) && Bit(u, i) == 0 ==> !Shadowed(l, w))
  }

  // ----- the counter -----

  lemma {:induction false} LowestZeroRange(u: nat)
    ensures var r := LowestZero(u); u + 1 >= Pow2(r) && (u + 1 == Pow2(r) <==> u < Pow2(r + 1))
  {
    if u % 2 == 1 { LowestZeroRange(u / 2); }
  }

  lemma {:induction false} OnesAreLow(r: nat, i: nat)
    requires i >= r
    ensures Bit(Pow2(r) - 1, i) == 0
  {
    Pow2Monotone(r, i);
    StartZero(0);
    ClimbRange(Pow2(r) - 1, i, 0);
    StartIsProduct(i, 1);
    StartIsProduct(i, 0);
  }

  /** How much is gone changes exactly when a client level is filled for the first time. */
  lemma LostStep(u: nat)
    ensures var r := LowestZero(u);
            Lost(u + 1) == if r < 10 && u + 1 == Pow2(r) then u + 1 else Lost(u)
    ensures Lost(u) <= u
  {
    hide LowestZero, FloorLog2, Pow2;
    var r := LowestZero(u);
    FloorOf1023();
    PowersUpTo1024();
    LowestZeroOfOnes(0);
    LowestZeroOfOnes(10);
    PowerStep(r);
    if u + 1 == Pow2(r) {
      FloorIs(u + 1, r);
      if r >= 10 { Pow2Monotone(10, r); } else { Pow2Monotone(r + 1, 10); }
    } else if u >= 1 {
      FloorSame(u);
    }
    if u >= 1 { FloorWithin(u); }
  }

  lemma FloorWithin(n: nat)
    requires n >= 1
    ensures Pow2(FloorLog2(n)) <= n
  {
  }

  /** Except at a power of two the logarithm stays the same. */
  lemma FloorSame(u: nat)
    requires u >= 1 && u + 1 != Pow2(LowestZero(u))
    ensures FloorLog2(u + 1) == FloorLog2(u)
  {
    hide LowestZero;
    var k := FloorLog2(u);
    if u + 1 == Pow2(k + 1) {
      LowestZeroOfOnes(k + 1);
    } else {
      FloorIs(u + 1, k);
    }
  }

  lemma FloorIs(n: nat, k: nat)
    requires n >= 1 && Pow2(k) <= n < Pow2(k + 1)
    ensures FloorLog2(n) == k
  {
    var j := FloorLog2(n);
    if j < k { Pow2Monotone(j + 1, k); }
    if k < j { Pow2Monotone(k + 1, j); }
  }

  lemma PowersUpTo1024()
    ensures Pow2(9) == 512 && Pow2(10) == 1024
  {
    assert Pow2(4) == 2 * Pow2(3) == 4 * Pow2(2) == 8 * Pow2(1) == 16 * Pow2(0);
    assert Pow2(8) == 2 * Pow2(7) == 4 * Pow2(6) == 8 * Pow2(5) == 16 * Pow2(4);
  }

  lemma FloorOf1023()
    ensures FloorLog2(1023) == 9
  {
    PowersUpTo1024();
    FloorIs(1023, 9);
  }

  // ----- one insertion -----

  lemma ShadeStep(pre: seq<Level>, post: seq<Level>, u: nat, x: Record, w: string)
    requires LowestZero(u) < |pre| && Updated(pre, post, LowestZero(u), x) && Shade(pre, u, w)
    ensures Shade(post, u + 1, w)
  {
    hide LowestZero, Merged, LevelOk, Bit;
    var r := LowestZero(u);
    LowestZeroRange(u);
    forall i | 0 <= i < 10 && i < |post| ensures ShadeAt(post[i], i, u + 1, w) {
      assert ShadeAt(pre[i], i, u, w);
      IncrementBits(u, i);
      if i < r {
        Pow2Monotone(i + 1, r);
      } else if i > r {
        BitSame(u, i);
        LowestZeroOfOnes(i + 1);
      } else {
        BitSet(u);
      }
    }
  }

  lemma BitSame(u: nat, i: nat)
    requires Climb(u + 1, i) == Climb(u, i)
    ensures Bit(u + 1, i) == Bit(u, i)
  {
  }

  lemma BitSet(u: nat)
    ensures Bit(u + 1, LowestZero(u)) == 1
  {
    IncrementOdd(u);
  }

  /** Levels whose bits are clear hold nothing. */
  lemma {:induction false} OnlyBelow(levels: seq<Level>, h: seq<Record>, s: set<string>, r: nat, n: nat, w: string)
    requires Inv(levels, h, s) && |h| + 1 == Pow2(r) && r <= n <= |levels|
    ensures Total(levels, n, w) == Total(levels, r, w)
  {
    hide Group, LevelOk, Agrees, Slice, Bit, Idle;
    if n > r {
      OnlyBelow(levels, h, s, r, n - 1, w);
      OnesAreLow(r, n - 1);
      assert LevelInv(levels[n - 1], n - 1, h, s);
      IdleGroup(levels[n - 1], w, s);
    }
  }

  /** The target has an entry exactly if it is a client level filled for the first time. */
  lemma TargetShaded(pre: seq<Level>, h: seq<Record>, s: set<string>, w: string)
    requires Inv(pre, h, s) && Shade(pre, |h|, w) && LowestZero(|h|) < |pre|
    ensures var r := LowestZero(|h|); Shadowed(pre[r], w) <==> r < 10 && |h| + 1 == Pow2(r)
  {
    hide LowestZero, LevelOk, Agrees, Bit, Slice, Idle;
    var r := LowestZero(|h|);
    LowestZeroRange(|h|);
    IncrementBits(|h|, r);
    LevelKind(pre, h, s, r);
    if r < 10 { assert ShadeAt(pre[r], r, |h|, w); }
  }

  /** Such an update leaves nothing of the keyword; any other adds its record. */
  lemma TotalStep(pre: seq<Level>, post: seq<Level>, h: seq<Record>, x: Record, s: set<string>, w: string)
    requires Inv(pre, h, s) && Shade(pre, |h|, w) && x.keyword == w
    requires LowestZero(|h|) < |pre| && Updated(pre, post, LowestZero(|h|), x)
    ensures var r := LowestZero(|h|);
            Total(post, |post|, w) ==
            if r < 10 && |h| + 1 == Pow2(r) then multiset{} else Total(pre, |pre|, w) + multiset{x}
  {
    hide LowestZero, Group, Total, Inv, LevelOk, Idle, Shade, Shadowed;
    var r := LowestZero(|h|);
    TargetShaded(pre, h, s, w);
    TotalAbove(pre, post, r, x, |pre|, w);
    IdleTarget(pre, h, s);
    IdleGroup(pre[r], w, s);
    assert Merged(pre, post[r], r, x, w);
    var a, b, p := Total(post, |post|, w), Total(pre, |pre|, w), Total(pre, r, w);
    if Shadowed(pre[r], w) {
      OnlyBelow(pre, h, s, r, |pre|, w);
      SumsTo(a, p, multiset(Group(pre[r], w)), b, multiset(Group(post[r], w)), multiset{});
    } else {
      SumsTo(a, p, multiset(Group(pre[r], w)), b, multiset(Group(post[r], w)), b + multiset{x});
    }
  }

  lemma SumsTo(a: multiset<Record>, p: multiset<Record>, none: multiset<Record>, b: multiset<Record>,
               g: multiset<Record>, sum: multiset<Record>)
    requires a + p + none == b + g && none == multiset{} && b + g == sum + p
    ensures a == sum
  {
    assert a + p == sum + p;
    SumCancels(a, p, sum);
  }

  // ----- the run -----

  ghost function Inserted(w: string, ids: seq<int>): seq<Record> {
    seq(|ids|, i requires 0 <= i < |ids| => Record(w, ids[i], INS))
  }

  lemma InsertedStep(w: string, ids: seq<int>, k: nat)
    requires k < |ids|
    ensures Inserted(w, ids[..k + 1]) == Inserted(w, ids[..k]) + [Record(w, ids[k], INS)]
    ensures |Inserted(w, ids[..k])| == k
  {
  }

  /** What is left after k insertions. */
  ghost function Left(w: string, ids: seq<int>, k: nat): multiset<Record>
    requires k <= |ids|
  {
    multiset(if Lost(k) <= k then Inserted(w, ids[Lost(k)..k]) else [])
  }

  lemma LeftStep(w: string, ids: seq<int>, k: nat)
    requires k < |ids|
    ensures var r := LowestZero(k);
            Left(w, ids, k + 1) ==
            if r < 10 && k + 1 == Pow2(r) then multiset{} else Left(w, ids, k) + multiset{Record(w, ids[k], INS)}
  {
    hide LowestZero, Lost;
    LostStep(k);
    LostStep(k + 1);
    var a := Lost(k + 1);
    if a <= k {
      assert Inserted(w, ids[a..k + 1]) == Inserted(w, ids[a..k]) + [Record(w, ids[k], INS)];
    } else {
      assert Inserted(w, ids[a..k + 1]) == [];
    }
  }

  /** The answer to insertions alone: their ids. */
  lemma LeftAnswer(w: string, ids: seq<int>, r: seq<int>)
    requires IsAnswer(multiset(Inserted(w, ids)), w, r)
    ensures Ascending(r) && forall id :: id in r <==> id in ids
  {
    var recs := Inserted(w, ids);
    forall id ensures id in r <==> id in ids {
      assert Record(w, id, DEL) !in recs;
      assert multiset(recs)[Record(w, id, DEL)] == 0;
      if id in ids {
        var i :| 0 <= i < |ids| && ids[i] == id;
        assert recs[i] == Record(w, id, INS);
        assert Record(w, id, INS) in multiset(recs);
      }
      if id in r {
        assert Record(w, id, INS) in multiset(recs);
        var i :| 0 <= i < |recs| && recs[i] == Record(w, id, INS);
        assert ids[i] == id;
      }
    }
  }

  lemma ShadeStarts(start: seq<Level>, levels: seq<Level>, w: string)
    requires Inv(start, [], {}) && Searched(start, levels, w)
    ensures Shade(levels, 0, w)
  {
    forall i | 0 <= i < 10 && i < |levels| ensures ShadeAt(levels[i], i, 0, w) {
      LevelKind(start, [], {}, i);
    }
  }

  /** A search for w on a new index, then insertions of w, then a search: below level
      10 each level that is filled for the first time loses all there is, so that the
      first 2^floor(log2 n) of n < 1024 insertions are gone; from level 10 on nothing
      is lost any more, and the first 512 stay gone. */
  method SearchThenInserts(capacity: nat, w: string, ids: seq<int>) returns (r: seq<int>)
    requires capacity >= 1 && |ids| < Pow2(if CeilLog2(capacity) < 10 then 10 else CeilLog2(capacity))
    ensures Ascending(r)
    ensures |ids| == 0 ==> r == []
    ensures 1 <= |ids| < 1024 ==> forall id :: id in r <==> id in ids[Pow2(FloorLog2(|ids|))..]
    ensures |ids| >= 1024 ==> forall id :: id in r <==> id in ids[512..]
  {
    hide Inv, Updated, Searched, Shade, IsAnswer, Total, Own, Left, Lost, LowestZero, Inserted, CeilLog2, FloorLog2,
         Pow2;
    var index := new Index(capacity);
    ghost var start := index.levels;
    var before := index.Search(w);
    ShadeStarts(start, index.levels, w);
    NothingLeft(start, index.levels, w, ids);
    for k := 0 to |ids|
      invariant fresh(index) && index.Valid() && index.searched == {w}
      invariant index.history == Inserted(w, ids[..k])
      invariant |index.levels| == if CeilLog2(capacity) < 10 then 10 else CeilLog2(capacity)
      invariant Shade(index.levels, k, w) && Total(index.levels, |index.levels|, w) == Left(w, ids, k)
    {
      InsertedStep(w, ids, k);
      ghost var pre, h := index.levels, index.history;
      var written := index.Update(INS, w, ids[k]);
      ShadeStep(pre, index.levels, k, Record(w, ids[k], INS), w);
      TotalStep(pre, index.levels, h, Record(w, ids[k], INS), {w}, w);
      LeftStep(w, ids, k);
    }
    r := index.Search(w);
    LeftWhole(w, ids, r);
  }

  lemma NothingLeft(start: seq<Level>, levels: seq<Level>, w: string, ids: seq<int>)
    requires Inv(start, [], {}) && Searched(start, levels, w)
    ensures Total(levels, |levels|, w) == Left(w, ids, 0) && Inserted(w, ids[..0]) == []
  {
    SearchKeeps(start, levels, [], {}, w);
    assert {} + {w} == {w};
    TotalBounded(levels, |levels|, [], {w}, w);
    SlicesAreHistory([], |levels|);
  }

  lemma LeftWhole(w: string, ids: seq<int>, r: seq<int>)
    requires IsAnswer(Left(w, ids, |ids|), w, r)
    ensures Ascending(r)
    ensures |ids| == 0 ==> r == []
    ensures 1 <= |ids| < 1024 ==> forall id :: id in r <==> id in ids[Pow2(FloorLog2(|ids|))..]
    ensures |ids| >= 1024 ==> forall id :: id in r <==> id in ids[512..]
  {
    hide IsAnswer, Inserted, LowestZero, FloorLog2, Pow2;
    LostStep(|ids|);
    assert ids[Lost(|ids|)..|ids|] == ids[Lost(|ids|)..];
    LeftAnswer(w, ids[Lost(|ids|)..], r);
    EmptyOrHead(r);
  }
}
