/** The pruned tree search of the QOS server as a function of its marks: what
    it finds, where it stops, how many calls it makes. */
module QosVisit {
  import opened Powers
  import opened HeapTree
  import opened QosColouring

  /** Leaf indices reached below node m of height k, left to right. */
  function Found(m: nat, k: nat, marks: set<int>): seq<int>
    decreases k
  {
    if m - 1 in marks then []
    else if k == 0 then [m - 1]
    else Found(2 * m, k - 1, marks) + Found(2 * m + 1, k - 1, marks)
  }

  /** Marked nodes at which the search stops. */
  function Hits(m: nat, k: nat, marks: set<int>): seq<int>
    decreases k
  {
    if m - 1 in marks then [m - 1]
    else if k == 0 then []
    else Hits(2 * m, k - 1, marks) + Hits(2 * m + 1, k - 1, marks)
  }

  /** Number of recursive calls. */
  function Calls(m: nat, k: nat, marks: set<int>): nat
    decreases k
  {
    if m - 1 in marks || k == 0 then 1
    else 1 + Calls(2 * m, k - 1, marks) + Calls(2 * m + 1, k - 1, marks)
  }

  /** One call of the visit. */
  lemma VisitUnfold(m: nat, k: nat, marks: set<int>)
    ensures m - 1 in marks ==> Found(m, k, marks) == [] && Hits(m, k, marks) == [m - 1] && Calls(m, k, marks) == 1
    ensures m - 1 !in marks && k == 0 ==>
      Found(m, k, marks) == [m - 1] && Hits(m, k, marks) == [] && Calls(m, k, marks) == 1
    ensures m - 1 !in marks && k > 0 ==>
      && Found(m, k, marks) == Found(2 * m, k - 1, marks) + Found(2 * m + 1, k - 1, marks)
      && Hits(m, k, marks) == Hits(2 * m, k - 1, marks) + Hits(2 * m + 1, k - 1, marks)
      && Calls(m, k, marks) == 1 + Calls(2 * m, k - 1, marks) + Calls(2 * m + 1, k - 1, marks)
  {
  }

  /** x lies in the subtree of node m. */
  ghost predicate Within(m: nat, x: int) {
    x == m || (x > m && Within(m, x / 2))
  }

  lemma {:induction false} WithinChild(m: nat, c: nat, x: int)
    requires m >= 1 && (c == 2 * m || c == 2 * m + 1) && Within(c, x)
    ensures Within(m, x) && x > m
  {
    if x != c { WithinChild(m, c, x / 2); }
  }

  lemma {:induction false} WithinSplits(m: nat, x: int)
    requires m >= 1 && Within(m, x) && x != m
    ensures Within(2 * m, x) || Within(2 * m + 1, x)
  {
    if x / 2 != m { WithinSplits(m, x / 2); }
  }

  lemma {:induction false} WithinDisjoint(m: nat, x: int)
    requires m >= 1 && Within(2 * m, x)
    ensures !Within(2 * m + 1, x)
  {
    assert !Within(2 * m, m);
    if x > 2 * m + 1 { WithinDisjoint(m, x / 2); }
  }

  lemma {:induction false} WithinClimb(m: nat, x: nat, i: nat)
    requires m >= 1 && Climb(x, i) == m
    ensures Within(m, x)
  {
    if i > 0 {
      ClimbFirst(x, i);
      WithinClimb(m, x / 2, i - 1);
      WithinSmaller(m, x / 2);
    }
  }

  lemma WithinSmaller(m: nat, x: int)
    requires m >= 1 && Within(m, x)
    ensures x >= m
  {
  }

  // ----- the search touches only its own subtree -----

  lemma {:induction false} HitsMarked(m: nat, k: nat, marks: set<int>)
    requires m >= 1
    ensures forall n :: n in Hits(m, k, marks) ==> n in marks && Within(m, n + 1)
    decreases k
  {
    if m - 1 !in marks && k > 0 {
      HitsMarked(2 * m, k - 1, marks);
      HitsMarked(2 * m + 1, k - 1, marks);
      forall n | n in Hits(m, k, marks) ensures n in marks && Within(m, n + 1) {
        if n in Hits(2 * m, k - 1, marks) { WithinChild(m, 2 * m, n + 1); } else { WithinChild(m, 2 * m + 1, n + 1); }
      }
    }
  }

  /** Marks outside the subtree do not matter. */
  lemma {:induction false} VisitLocal(m: nat, k: nat, marks: set<int>, marks': set<int>)
    requires m >= 1 && forall n :: Within(m, n + 1) ==> (n in marks <==> n in marks')
    ensures Found(m, k, marks) == Found(m, k, marks')
    ensures Hits(m, k, marks) == Hits(m, k, marks')
    ensures Calls(m, k, marks) == Calls(m, k, marks')
    decreases k
  {
    assert Within(m, (m - 1) + 1);
    if m - 1 !in marks && k > 0 {
      forall n | Within(2 * m, n + 1) ensures n in marks <==> n in marks' { WithinChild(m, 2 * m, n + 1); }
      forall n | Within(2 * m + 1, n + 1) ensures n in marks <==> n in marks' { WithinChild(m, 2 * m + 1, n + 1); }
      VisitLocal(2 * m, k - 1, marks, marks');
      VisitLocal(2 * m + 1, k - 1, marks, marks');
    }
  }

  /** Erasing the hits of the left child changes nothing for the right child. */
  lemma RightUnaffected(m: nat, k: nat, marks: set<int>, marks': set<int>)
    requires m >= 1 && marks' == marks - (set n | n in Hits(2 * m, k, marks))
    ensures Found(2 * m + 1, k, marks') == Found(2 * m + 1, k, marks)
    ensures Hits(2 * m + 1, k, marks') == Hits(2 * m + 1, k, marks)
    ensures Calls(2 * m + 1, k, marks') == Calls(2 * m + 1, k, marks)
  {
    HitsMarked(2 * m, k, marks);
    forall n | Within(2 * m + 1, n + 1) ensures n in marks' <==> n in marks {
      if Within(2 * m, n + 1) { WithinDisjoint(m, n + 1); }
    }
    VisitLocal(2 * m + 1, k, marks', marks);
  }

  // ----- what the search finds -----

  /** Indices of the live leaves with addresses from lo up to hi. */
  ghost function LiveLeaves(h: nat, dead: set<nat>, lo: nat, hi: nat): seq<int>
    decreases hi
  {
    if lo >= hi then []
    else if Dead(h, dead, hi - 1) then LiveLeaves(h, dead, lo, hi - 1)
    else LiveLeaves(h, dead, lo, hi - 1) + [hi - 2]
  }

  lemma {:induction false} LiveJoins(h: nat, dead: set<nat>, a: nat, b: nat, c: nat)
    requires a <= b <= c
    ensures LiveLeaves(h, dead, a, b) + LiveLeaves(h, dead, b, c) == LiveLeaves(h, dead, a, c)
    decreases c
  {
    if b < c { LiveJoins(h, dead, a, b, c - 1); }
  }

  lemma {:induction false} LiveNone(h: nat, dead: set<nat>, lo: nat, hi: nat)
    requires forall q :: lo <= q < hi ==> Dead(h, dead, q)
    ensures LiveLeaves(h, dead, lo, hi) == []
    decreases hi
  {
    if lo < hi { LiveNone(h, dead, lo, hi - 1); }
  }

  lemma {:induction false} LiveSome(h: nat, dead: set<nat>, lo: nat, hi: nat, q: nat)
    requires lo <= q < hi && !Dead(h, dead, q)
    ensures |LiveLeaves(h, dead, lo, hi)| >= 1
    decreases hi
  {
    if q < hi - 1 { LiveSome(h, dead, lo, hi - 1, q); }
  }

  /** Below node m every fully deleted subtree has a mark at its root or above, up to m. */
  ghost predicate CompleteBelow(h: nat, dead: set<nat>, marks: set<int>, m: nat) {
    forall x :: Within(m, x) && DeadNode(h, dead, x) ==> MarkedUpTo(x, m, marks)
  }

  lemma {:induction false} MarkedUpToChild(m: nat, c: nat, x: int, marks: set<int>)
    requires m >= 1 && (c == 2 * m || c == 2 * m + 1) && Within(c, x)
    requires m - 1 !in marks && MarkedUpTo(x, m, marks)
    ensures MarkedUpTo(x, c, marks)
  {
    if x - 1 !in marks {
      if x != c { MarkedUpToChild(m, c, x / 2, marks); }
    }
  }

  lemma CompleteChild(h: nat, dead: set<nat>, marks: set<int>, m: nat, c: nat)
    requires m >= 1 && (c == 2 * m || c == 2 * m + 1) && m - 1 !in marks
    requires CompleteBelow(h, dead, marks, m)
    ensures CompleteBelow(h, dead, marks, c)
  {
    hide DeadNode, MarkedUpTo, Within;
    forall x | Within(c, x) && DeadNode(h, dead, x) ensures MarkedUpTo(x, c, marks) {
      WithinChild(m, c, x);
      MarkedUpToChild(m, c, x, marks);
    }
  }

  lemma ChildHeight(h: nat, m: nat, k: nat, c: nat)
    requires 1 <= m < Pow2(h + 1) && HeightOf(h, m) == k && k >= 1 && (c == 2 * m || c == 2 * m + 1)
    ensures c < Pow2(h + 1) && HeightOf(h, c) == k - 1
  {
    assert Pow2(h - k + 1) == 2 * Pow2(h - k) && Pow2(h - k + 2) == 2 * Pow2(h - k + 1);
    Pow2Monotone(h - k + 2, h + 1);
    HeightUnique(h, c, k - 1);
  }

  /** An unmarked node the search visits has a live leaf below it. */
  lemma UnmarkedIsLive(h: nat, dead: set<nat>, marks: set<int>, m: nat, k: nat)
    requires 1 <= m < Pow2(h + 1) && HeightOf(h, m) == k && CompleteBelow(h, dead, marks, m)
    requires m - 1 !in marks
    ensures !AllDead(h, dead, m, k)
    ensures |LiveLeaves(h, dead, Start(k, m), Start(k, m + 1))| >= 1
  {
    assert Within(m, m);
    assert !DeadNode(h, dead, m);
    var q :| Start(k, m) <= q < Start(k, m + 1) && !Dead(h, dead, q);
    LiveSome(h, dead, Start(k, m), Start(k, m + 1), q);
  }

  /** The search finds exactly the live leaves of the subtree, in order. */
  lemma {:induction false} FoundIsLive(h: nat, dead: set<nat>, marks: set<int>, m: nat, k: nat)
    requires 1 <= m < Pow2(h + 1) && HeightOf(h, m) == k
    requires Sound(h, dead, marks) && CompleteBelow(h, dead, marks, m)
    ensures Found(m, k, marks) == LiveLeaves(h, dead, Start(k, m), Start(k, m + 1))
    decreases k
  {
    hide HeightOf, CompleteBelow;
    if m - 1 in marks {
      MarkDead(h, dead, marks, m - 1);
      LiveNone(h, dead, Start(k, m), Start(k, m + 1));
    } else if k == 0 {
      UnmarkedIsLive(h, dead, marks, m, k);
      StartZero(m);
      StartZero(m + 1);
    } else {
      FoundChild(h, dead, marks, m, k, 2 * m);
      FoundChild(h, dead, marks, m, k, 2 * m + 1);
      RangeHalves(m, k);
      LiveJoins(h, dead, Start(k, m), Start(k - 1, 2 * m + 1), Start(k, m + 1));
    }
  }

  lemma FoundChild(h: nat, dead: set<nat>, marks: set<int>, m: nat, k: nat, c: nat)
    requires 1 <= m < Pow2(h + 1) && HeightOf(h, m) == k && k >= 1 && (c == 2 * m || c == 2 * m + 1)
    requires Sound(h, dead, marks) && CompleteBelow(h, dead, marks, m) && m - 1 !in marks
    ensures Found(c, k - 1, marks) == LiveLeaves(h, dead, Start(k - 1, c), Start(k - 1, c + 1))
    decreases k, 0
  {
    hide HeightOf, CompleteBelow, Sound;
    ChildHeight(h, m, k, c);
    CompleteChild(h, dead, marks, m, c);
    FoundIsLive(h, dead, marks, c, k - 1);
  }

  lemma RangeHalves(m: nat, k: nat)
    requires k >= 1
    ensures Start(k, m) == Start(k - 1, 2 * m) <= Start(k - 1, 2 * m + 1) <= Start(k - 1, 2 * m + 2) == Start(k, m + 1)
  {
    StartHalves(k - 1, m);
    StartHalves(k - 1, m + 1);
    StartMonotone(k - 1, 2 * m, 2 * m + 1);
    StartMonotone(k - 1, 2 * m + 1, 2 * m + 2);
  }

  /** Quasi-optimality on one subtree: the calls are bounded by the live leaves
      found, not by the deletions skipped. */
  lemma {:induction false} CallsBounded(h: nat, dead: set<nat>, marks: set<int>, m: nat, k: nat)
    requires 1 <= m < Pow2(h + 1) && HeightOf(h, m) == k
    requires Sound(h, dead, marks) && CompleteBelow(h, dead, marks, m)
    ensures Calls(m, k, marks) <= 1 + 2 * (|Found(m, k, marks)| * k)
    decreases k
  {
    hide HeightOf, CompleteBelow, Sound;
    if m - 1 !in marks && k > 0 {
      ChildHeight(h, m, k, 2 * m);
      ChildHeight(h, m, k, 2 * m + 1);
      CompleteChild(h, dead, marks, m, 2 * m);
      CompleteChild(h, dead, marks, m, 2 * m + 1);
      CallsBounded(h, dead, marks, 2 * m, k - 1);
      CallsBounded(h, dead, marks, 2 * m + 1, k - 1);
      UnmarkedIsLive(h, dead, marks, m, k);
      FoundIsLive(h, dead, marks, m, k);
      CallsSum(|Found(2 * m, k - 1, marks)|, |Found(2 * m + 1, k - 1, marks)|, k);
    }
  }

  lemma CallsSum(a: nat, b: nat, k: nat)
    requires k >= 1 && a + b >= 1
    ensures 3 + 2 * (a * (k - 1)) + 2 * (b * (k - 1)) <= 1 + 2 * ((a + b) * k)
  {
    assert a * (k - 1) == a * k - a && b * (k - 1) == b * k - b;
    assert (a + b) * k == a * k + b * k;
  }

  /** A mark inside the subtree with no mark above it up to m is always hit. */
  lemma {:induction false} HitsTopmost(m: nat, k: nat, marks: set<int>, n: int, h: nat)
    requires 1 <= m < Pow2(h + 1) && HeightOf(h, m) == k && n + 1 < Pow2(h + 1)
    requires n in marks && Within(m, n + 1)
    requires n + 1 != m ==> !MarkedUpTo((n + 1) / 2, m, marks)
    ensures n in Hits(m, k, marks)
    decreases k
  {
    hide HeightOf;
    if n + 1 != m {
      TopUnmarked(m, (n + 1) / 2, marks);
      WithinInternal(h, m, k, n + 1);
      var c := if Within(2 * m, n + 1) then 2 * m else 2 * m + 1;
      WithinSplits(m, n + 1);
      ChildHeight(h, m, k, c);
      if n + 1 != c && MarkedUpTo((n + 1) / 2, c, marks) { MarkedLower(m, c, (n + 1) / 2, marks); }
      HitsTopmost(c, k - 1, marks, n, h);
    }
  }

  lemma {:induction false} TopUnmarked(m: nat, x: int, marks: set<int>)
    requires m >= 1 && Within(m, x) && !MarkedUpTo(x, m, marks)
    ensures m - 1 !in marks
  {
    if x != m { TopUnmarked(m, x / 2, marks); }
  }

  /** A node with a proper descendant in the tree is not a leaf. */
  lemma WithinInternal(h: nat, m: nat, k: nat, x: int)
    requires 1 <= m < Pow2(h + 1) && HeightOf(h, m) == k && Within(m, x) && x != m && x < Pow2(h + 1)
    ensures k >= 1
  {
    WithinSplits(m, x);
    if Within(2 * m, x) { WithinSmaller(2 * m, x); } else { WithinSmaller(2 * m + 1, x); }
  }

  lemma {:induction false} MarkedLower(m: nat, c: nat, x: int, marks: set<int>)
    requires m <= c && x >= 0 && MarkedUpTo(x, c, marks)
    ensures MarkedUpTo(x, m, marks)
  {
    if x - 1 !in marks { MarkedLower(m, c, x / 2, marks); }
  }
}
