/** The covering set of QOS: the positions 0 .. a_w as a row of aligned
    subtrees, and why a search that starts at them misses no mark. */
module QosCover {
  import opened Powers
  import opened HeapTree
  import opened QosColouring
  import opened QosVisit

  /** lo is the first leaf of a subtree of height k. */
  ghost predicate Aligned(lo: nat, k: nat) {
    Start(k, Climb(lo, k)) == lo
  }

  lemma AlignedAt(k: nat, m: nat)
    ensures Climb(Start(k, m), k) == m && Aligned(Start(k, m), k)
  {
    ClimbRange(Start(k, m), k, m);
  }

  lemma {:induction false} AlignedLower(lo: nat, k: nat, j: nat)
    requires Aligned(lo, k) && j <= k
    ensures Aligned(lo, j)
    decreases k
  {
    if j < k {
      StartHalves(k - 1, Climb(lo, k));
      AlignedAt(k - 1, 2 * Climb(lo, k));
      AlignedLower(lo, k - 1, j);
    }
  }

  /** The greedy cover of the leaf addresses from lo up to hi, as addresses. */
  function CoverFrom(lo: nat, hi: nat): seq<nat>
    decreases hi - lo
  {
    if lo >= hi then []
    else
      var k := FloorLog2(hi - lo);
      [Climb(lo + Pow2(k) - 1, k)] + CoverFrom(lo + Pow2(k), hi)
  }

  /** Where the rest of the cover may start. */
  ghost predicate CoverReady(h: nat, lo: nat, hi: nat) {
    Pow2(h) <= lo <= hi <= Pow2(h + 1) && (lo < hi ==> Aligned(lo, FloorLog2(hi - lo)))
  }

  lemma CoverStarts(h: nat, n: nat)
    requires n <= Pow2(h)
    ensures CoverReady(h, Pow2(h), Pow2(h) + n)
  {
    if n > 0 {
      var k := FloorLog2(n);
      if k > h { Pow2Monotone(h + 1, k); }
      StartIsProduct(h, 1);
      AlignedAt(h, 1);
      AlignedLower(Pow2(h), h, k);
    }
  }

  /** The first block: its node, its height and its leaves; the rest is ready again. */
  lemma CoverBlock(h: nat, lo: nat, hi: nat)
    requires CoverReady(h, lo, hi) && lo < hi
    ensures var k := FloorLog2(hi - lo);
            var m := Climb(lo + Pow2(k) - 1, k);
            && k <= h && 1 <= m < Pow2(h + 1) && HeightOf(h, m) == k
            && Start(k, m) == lo && Start(k, m + 1) == lo + Pow2(k) <= hi
            && CoverReady(h, lo + Pow2(k), hi)
  {
    hide HeightOf, FloorLog2, Climb;
    var k := FloorLog2(hi - lo);
    var m := Climb(lo, k);
    if k > h { Pow2Monotone(h + 1, k); }
    ClimbRange(lo + Pow2(k) - 1, k, m);
    PathHeight(h, lo, k);
    assert Start(k, m + 1) == lo + Pow2(k);
    if lo + Pow2(k) < hi { RestAligned(lo, hi, k); }
  }

  lemma RestAligned(lo: nat, hi: nat, k: nat)
    requires lo + Pow2(k) < hi && hi - lo < Pow2(k + 1) && Aligned(lo, k)
    ensures Aligned(lo + Pow2(k), FloorLog2(hi - (lo + Pow2(k))))
  {
    hide FloorLog2;
    var j := FloorLog2(hi - (lo + Pow2(k)));
    if j > k { Pow2Monotone(k + 1, j); }
    AlignedAt(k, Climb(lo, k) + 1);
    AlignedLower(lo + Pow2(k), k, j);
  }

  /** The cover has at most one subtree of each height. */
  lemma {:induction false} CoverShort(lo: nat, hi: nat)
    ensures lo < hi ==> |CoverFrom(lo, hi)| <= FloorLog2(hi - lo) + 1
    decreases hi - lo
  {
    if lo < hi {
      var k := FloorLog2(hi - lo);
      CoverShort(lo + Pow2(k), hi);
      if lo + Pow2(k) < hi {
        var j := FloorLog2(hi - (lo + Pow2(k)));
        if j >= k { Pow2Monotone(k, j); }
      }
    }
  }

  ghost function First(h: nat, m: nat): nat
    requires 1 <= m < Pow2(h + 1)
  {
    Start(HeightOf(h, m), m)
  }

  ghost function End(h: nat, m: nat): nat
    requires 1 <= m < Pow2(h + 1)
  {
    Start(HeightOf(h, m), m + 1)
  }

  /** The cover is a row of subtrees without gap or overlap from lo to hi. */
  ghost predicate Row(h: nat, cover: seq<nat>, lo: nat, hi: nat) {
    && (forall i :: 0 <= i < |cover| ==> 1 <= cover[i] < Pow2(h + 1))
    && (cover == [] ==> lo == hi)
    && (cover != [] ==> First(h, cover[0]) == lo && lo < End(h, cover[0]) && Row(h, cover[1..], End(h, cover[0]), hi))
  }

  lemma {:induction false} CoverIsRow(h: nat, lo: nat, hi: nat)
    requires CoverReady(h, lo, hi)
    ensures Row(h, CoverFrom(lo, hi), lo, hi)
    decreases hi - lo
  {
    CoverUnfold(lo, hi);
    hide CoverFrom, CoverReady, Pow2, FloorLog2, Climb, First, End, Row;
    if lo < hi {
      var k := FloorLog2(hi - lo);
      CoverBlock(h, lo, hi);
      CoverIsRow(h, lo + Pow2(k), hi);
      var m := Climb(lo + Pow2(k) - 1, k);
      BlockEnds(h, m, k);
      RowCons(h, m, CoverFrom(lo + Pow2(k), hi), lo, hi);
    } else {
      ReadyRange(h, lo, hi);
      RowNothing(h, lo);
    }
  }

  lemma CoverUnfold(lo: nat, hi: nat)
    ensures lo >= hi ==> CoverFrom(lo, hi) == []
    ensures lo < hi ==>
      var k := FloorLog2(hi - lo); CoverFrom(lo, hi) == [Climb(lo + Pow2(k) - 1, k)] + CoverFrom(lo + Pow2(k), hi)
    ensures forall k :: Pow2(k) >= 1
  {
  }

  lemma BlockEnds(h: nat, m: nat, k: nat)
    requires 1 <= m < Pow2(h + 1) && HeightOf(h, m) == k
    ensures First(h, m) == Start(k, m) && End(h, m) == Start(k, m + 1)
  {
  }

  lemma ReadyRange(h: nat, lo: nat, hi: nat)
    requires CoverReady(h, lo, hi)
    ensures lo <= hi
  {
  }

  lemma RowNothing(h: nat, lo: nat)
    ensures Row(h, [], lo, lo)
  {
  }

  lemma RowCons(h: nat, m: nat, rest: seq<nat>, lo: nat, hi: nat)
    requires 1 <= m < Pow2(h + 1) && First(h, m) == lo && lo < End(h, m) && Row(h, rest, End(h, m), hi)
    ensures Row(h, [m] + rest, lo, hi)
  {
    hide HeightOf, First, End;
    assert ([m] + rest)[1..] == rest;
  }

  /** Members of a row keep to their own leaves, which lie between lo and hi. */
  lemma {:induction false} RowBounds(h: nat, cover: seq<nat>, lo: nat, hi: nat, i: nat)
    requires Row(h, cover, lo, hi) && i < |cover|
    ensures 1 <= cover[i] < Pow2(h + 1) && lo <= First(h, cover[i]) < End(h, cover[i]) <= hi
    decreases i, |cover|
  {
    hide First, End;
    if i > 0 {
      RowBounds(h, cover[1..], End(h, cover[0]), hi, i - 1);
    }
    RowOrder(h, cover, lo, hi);
  }

  lemma {:induction false} RowOrder(h: nat, cover: seq<nat>, lo: nat, hi: nat)
    requires Row(h, cover, lo, hi)
    ensures lo <= hi && (cover != [] ==> End(h, cover[0]) <= hi)
    decreases |cover|
  {
    hide First, End;
    if cover != [] { RowOrder(h, cover[1..], End(h, cover[0]), hi); }
  }

  lemma {:induction false} RowDisjoint(h: nat, cover: seq<nat>, lo: nat, hi: nat, i: nat, j: nat)
    requires Row(h, cover, lo, hi) && i < j < |cover|
    ensures 1 <= cover[i] < Pow2(h + 1) && 1 <= cover[j] < Pow2(h + 1) && End(h, cover[i]) <= First(h, cover[j])
    decreases i, |cover|
  {
    hide First, End;
    if i > 0 {
      RowDisjoint(h, cover[1..], End(h, cover[0]), hi, i - 1, j - 1);
    } else {
      RowBounds(h, cover[1..], End(h, cover[0]), hi, j - 1);
    }
  }

  // ----- containment -----

  /** A subtree's leaves lie among the leaves of any subtree it is within. */
  lemma {:induction false} WithinRange(h: nat, m: nat, x: nat)
    requires 1 <= m && Within(m, x) && x < Pow2(h + 1) && m < Pow2(h + 1)
    ensures x >= 1 && First(h, m) <= First(h, x) < End(h, x) <= End(h, m)
  {
    hide HeightOf;
    var k := HeightOf(h, x);
    if x == m {
      assert Start(k, x + 1) == Start(k, x) + Pow2(k);
    } else {
      WithinSmaller(m, x / 2);
      WithinRange(h, m, x / 2);
      WithinInternal(h, x / 2, HeightOf(h, x / 2), x);
      ChildHeight(h, x / 2, HeightOf(h, x / 2), x);
      RangeHalves(x / 2, k + 1);
      assert Start(k, x + 1) == Start(k, x) + Pow2(k);
    }
  }

  /** A larger subtree that starts in the block of height j at lo starts at lo. */
  lemma LargerSpan(k: nat, j: nat, m: nat, lo: nat, hi: nat)
    requires Aligned(lo, j) && j < k && Climb(Start(k, m), j) == Climb(lo, j)
    requires Start(k, m + 1) <= hi
    ensures hi - lo >= Pow2(j + 1)
  {
    AlignedAt(k, m);
    AlignedLower(Start(k, m), k, j);
    assert Start(k, m) == lo;
    Pow2Monotone(j + 1, k);
  }

  /** Any aligned subtree inside lo .. hi is contained in one member of the cover. */
  lemma {:induction false} CoverContains(h: nat, lo: nat, hi: nat, x: nat) returns (i: nat)
    requires CoverReady(h, lo, hi) && 1 <= x < Pow2(h + 1)
    requires lo <= First(h, x) && End(h, x) <= hi
    ensures i < |CoverFrom(lo, hi)| && Within(CoverFrom(lo, hi)[i], x)
    decreases hi - lo
  {
    hide *;
    CoverUnfold(lo, hi);
    EndsAfter(h, x);
    var k := FloorLog2(hi - lo);
    CoverBlock(h, lo, hi);
    var m := Climb(lo + Pow2(k) - 1, k);
    if First(h, x) < lo + Pow2(k) {
      BlockContains(h, lo, hi, x, k, m);
      i := 0;
    } else {
      var i' := CoverContains(h, lo + Pow2(k), hi, x);
      i := i' + 1;
    }
  }

  lemma EndsAfter(h: nat, x: nat)
    requires 1 <= x < Pow2(h + 1)
    ensures var k := HeightOf(h, x);
            First(h, x) == Start(k, x) && End(h, x) == Start(k, x + 1) == Start(k, x) + Pow2(k) && Pow2(k) >= 1
  {
    hide HeightOf;
  }

  /** A subtree that begins inside the first block of the cover lies inside it. */
  lemma {:induction false} BlockContains(h: nat, lo: nat, hi: nat, x: nat, k: nat, m: nat)
    requires lo < hi && 1 <= x < Pow2(h + 1) && k == FloorLog2(hi - lo) && m >= 1
    requires Start(k, m) == lo && Start(k, m + 1) == lo + Pow2(k) <= hi
    requires lo <= First(h, x) < lo + Pow2(k) && End(h, x) <= hi
    ensures Within(m, x)
  {
    hide HeightOf, FloorLog2, Climb, First, End;
    EndsAfter(h, x);
    var kx := HeightOf(h, x);
    var f := Start(kx, x);
    ClimbRange(f, k, m);
    ClimbRange(lo, k, m);
    AlignedAt(kx, x);
    if kx > k { LargerSpan(kx, k, x, lo, hi); }
    ClimbAdd(f, kx, k - kx);
    WithinClimb(m, x, k - kx);
  }

  // ----- marks and the cover -----

  ghost predicate DeadBelow(dead: set<nat>, n: nat) {
    forall p :: p in dead ==> p < n
  }

  /** A fully deleted subtree lies within the positions handed out. */
  lemma DeadInside(h: nat, n: nat, dead: set<nat>, x: nat)
    requires n <= Pow2(h) && DeadBelow(dead, n) && DeadNode(h, dead, x)
    ensures Pow2(h) <= First(h, x) && End(h, x) <= Pow2(h) + n
  {
    hide HeightOf;
    var k := HeightOf(h, x);
    assert Start(k, x + 1) == Start(k, x) + Pow2(k);
    assert Dead(h, dead, Start(k, x)) && Dead(h, dead, Start(k, x + 1) - 1);
  }

  lemma {:induction false} TopmostAbove(x: nat, marks: set<int>) returns (a: nat)
    requires MarkedUpTo(x, 1, marks)
    ensures 1 <= a <= x && Within(a, x) && Topmost(a - 1, marks)
  {
    if x > 1 && MarkedUpTo(x / 2, 1, marks) {
      a := TopmostAbove(x / 2, marks);
    } else {
      a := x;
    }
  }

  lemma {:induction false} MarkedFrom(x: nat, a: nat, c: nat, marks: set<int>)
    requires 1 <= c && Within(a, x) && Within(c, a) && a - 1 in marks
    ensures MarkedUpTo(x, c, marks)
  {
    WithinSmaller(c, a);
    WithinSmaller(a, x);
    if x != a { MarkedFrom(x / 2, a, c, marks); }
  }

  lemma SameMember(h: nat, cover: seq<nat>, lo: nat, hi: nat, i: nat, j: nat, x: nat)
    requires Row(h, cover, lo, hi) && i < |cover| && j < |cover| && x < Pow2(h + 1)
    requires Within(cover[i], x) && Within(cover[j], x)
    ensures i == j
  {
    hide First, End, Row;
    RowBounds(h, cover, lo, hi, i);
    RowBounds(h, cover, lo, hi, j);
    WithinRange(h, cover[i], x);
    WithinRange(h, cover[j], x);
    if i < j { RowDisjoint(h, cover, lo, hi, i, j); }
    if j < i { RowDisjoint(h, cover, lo, hi, j, i); }
  }

  lemma {:induction false} WithinTrans(c: nat, a: nat, x: nat)
    requires Within(c, a) && Within(a, x) && 1 <= c
    ensures Within(c, x)
  {
    WithinSmaller(c, a);
    WithinSmaller(a, x);
    if x != a { WithinTrans(c, a, x / 2); }
  }

  ghost predicate Colouring(h: nat, n: nat, dead: set<nat>, client: set<int>, server: set<int>) {
    && n <= Pow2(h) && DeadBelow(dead, n)
    && Sound(h, dead, client) && Complete(h, dead, client) && Mirrors(server, client)
  }

  /** No mark that matters sits above a cover node: below each of them the
      server's own marks are sound and complete. */
  lemma CoverComplete(h: nat, n: nat, dead: set<nat>, client: set<int>, server: set<int>, i: nat)
    requires Colouring(h, n, dead, client, server) && i < |CoverFrom(Pow2(h), Pow2(h) + n)|
    ensures Sound(h, dead, server)
    ensures CompleteBelow(h, dead, server, CoverFrom(Pow2(h), Pow2(h) + n)[i])
  {
    hide First, End, Row, DeadNode, MarkedUpTo, CoverFrom, Within, Sound, CoverReady;
    assert Sound(h, dead, server) by { SoundSubset(h, dead, client, server); }
    var cover := CoverFrom(Pow2(h), Pow2(h) + n);
    CoverStarts(h, n);
    CoverIsRow(h, Pow2(h), Pow2(h) + n);
    RowBounds(h, cover, Pow2(h), Pow2(h) + n, i);
    forall x | Within(cover[i], x) && DeadNode(h, dead, x) ensures MarkedUpTo(x, cover[i], server) {
      DeadRange(h, dead, x);
      var a := TopmostAbove(x, client);
      TopmostDead(h, dead, client, a);
      DeadInside(h, n, dead, a);
      var j := CoverContains(h, Pow2(h), Pow2(h) + n, a);
      RowBounds(h, cover, Pow2(h), Pow2(h) + n, j);
      WithinTrans(cover[j], a, x);
      SameMember(h, cover, Pow2(h), Pow2(h) + n, i, j, x);
      MarkedFrom(x, a, cover[i], server);
    }
  }

  lemma DeadRange(h: nat, dead: set<nat>, x: int)
    requires DeadNode(h, dead, x)
    ensures 1 <= x < Pow2(h + 1)
  {
  }

  lemma TopmostDead(h: nat, dead: set<nat>, client: set<int>, a: nat)
    requires Sound(h, dead, client) && a >= 1 && Topmost(a - 1, client)
    ensures DeadNode(h, dead, a)
  {
    hide AllDead, HeightOf;
  }

  lemma SoundSubset(h: nat, dead: set<nat>, marks: set<int>, fewer: set<int>)
    requires Sound(h, dead, marks) && fewer <= marks
    ensures Sound(h, dead, fewer)
  {
    hide AllDead, HeightOf;
  }

  /** Every topmost mark is hit by the search from the cover. */
  lemma CoverHits(h: nat, n: nat, dead: set<nat>, client: set<int>, server: set<int>, t: int) returns (i: nat)
    requires Colouring(h, n, dead, client, server) && Topmost(t, client)
    ensures i < |CoverFrom(Pow2(h), Pow2(h) + n)|
    ensures var c := CoverFrom(Pow2(h), Pow2(h) + n)[i];
            1 <= c < Pow2(h + 1) && t in Hits(c, HeightOf(h, c), server)
  {
    hide First, End, Row, DeadNode, CoverFrom, Within, CoverReady, HeightOf, AllDead;
    var cover := CoverFrom(Pow2(h), Pow2(h) + n);
    MarkDead(h, dead, client, t);
    TopmostDead(h, dead, client, t + 1);
    DeadInside(h, n, dead, t + 1);
    CoverStarts(h, n);
    CoverIsRow(h, Pow2(h), Pow2(h) + n);
    i := CoverContains(h, Pow2(h), Pow2(h) + n, t + 1);
    var c := cover[i];
    RowBounds(h, cover, Pow2(h), Pow2(h) + n, i);
    if t + 1 != c && MarkedUpTo((t + 1) / 2, c, server) {
      MarkedMonotone((t + 1) / 2, c, server, client);
      MarkedLower(1, c, (t + 1) / 2, client);
      OnlyRootHasNoParent(t, c);
    }
    HitsTopmost(c, HeightOf(h, c), server, t, h);
  }

  lemma OnlyRootHasNoParent(t: int, c: nat)
    requires t >= 0 && c >= 1 && Within(c, t + 1) && t + 1 != c
    ensures t >= 1
  {
  }
}
