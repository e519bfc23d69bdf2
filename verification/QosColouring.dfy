/** The colouring of QOS: deletion marks on a complete binary tree over the
    insertion positions of one keyword, and the search that prunes at marks.
    Node m (an address) has height HeightOf(h, m); its leaves are the addresses
    from Start(k, m) up to Start(k, m + 1). */
module QosColouring {
  import opened Powers
  import opened HeapTree

  /** The leaf at address q carries a deleted position. */
  ghost predicate Dead(h: nat, dead: set<nat>, q: nat) {
    q >= Pow2(h) && q - Pow2(h) in dead
  }

  /** All leaves below the node m of height k are deleted. */
  ghost predicate AllDead(h: nat, dead: set<nat>, m: nat, k: nat) {
    forall q :: Start(k, m) <= q < Start(k, m + 1) ==> Dead(h, dead, q)
  }

  lemma AllDeadSplits(h: nat, dead: set<nat>, m: nat, k: nat)
    requires k >= 1
    ensures AllDead(h, dead, m, k) <==> AllDead(h, dead, 2 * m, k - 1) && AllDead(h, dead, 2 * m + 1, k - 1)
  {
    StartHalves(k - 1, m);
    StartHalves(k - 1, m + 1);
    StartMonotone(k - 1, 2 * m, 2 * m + 1);
    StartMonotone(k - 1, 2 * m + 1, 2 * m + 2);
  }

  /** A node or one of its ancestors up to top is marked. */
  ghost predicate MarkedUpTo(m: int, top: nat, marks: set<int>) {
    m >= 1 && (m - 1 in marks || (m > top && MarkedUpTo(m / 2, top, marks)))
  }

  /** A marked node has all its leaves deleted. */
  ghost predicate Sound(h: nat, dead: set<nat>, marks: set<int>) {
    forall n :: n in marks ==> 0 <= n && n + 1 < Pow2(h + 1) && AllDead(h, dead, n + 1, HeightOf(h, n + 1))
  }

  ghost predicate DeadNode(h: nat, dead: set<nat>, m: int) {
    1 <= m < Pow2(h + 1) && AllDead(h, dead, m, HeightOf(h, m))
  }

  /** Every fully deleted subtree has its root or an ancestor marked. */
  ghost predicate Complete(h: nat, dead: set<nat>, marks: set<int>) {
    forall m :: DeadNode(h, dead, m) ==> MarkedUpTo(m, 1, marks)
  }

  /** A mark with no mark above it. */
  ghost predicate Topmost(n: int, marks: set<int>) {
    n in marks && !(n >= 1 && MarkedUpTo((n + 1) / 2, 1, marks))
  }

  /** The server's marks: only client marks, and at least the topmost ones. */
  ghost predicate Mirrors(server: set<int>, client: set<int>) {
    server <= client && forall n :: Topmost(n, client) ==> n in server
  }

  function Sibling(m: nat): nat {
    if m % 2 == 0 then m + 1 else m - 1
  }

  // ----- one removal -----

  /** All siblings below height i on the path from leaf q are marked. */
  ghost predicate SiblingsMarked(q: nat, i: nat, marks: set<int>) {
    forall j :: 0 <= j < i ==> Sibling(Climb(q, j)) - 1 in marks
  }

  /** What a removal picks on the path from leaf q: top is the highest node
      below which every sibling is marked, j the highest unmarked node up to
      there, or -1 when all of them are marked already. */
  ghost predicate Picks(h: nat, q: nat, marks: set<int>, top: nat, j: int) {
    && top <= h && SiblingsMarked(q, top, marks)
    && (top < h ==> Sibling(Climb(q, top)) - 1 !in marks)
    && -1 <= j <= top
    && (j >= 0 ==> Climb(q, j) - 1 !in marks)
    && (forall i :: j < i <= top ==> Climb(q, i) - 1 in marks)
  }

  function Picked(q: nat, j: int): set<int> {
    if j < 0 then {} else {Climb(q, j) - 1}
  }

  lemma SiblingRange(m: nat, a: nat)
    requires a >= 1 && 2 * a <= m < 4 * a
    ensures 2 * a <= Sibling(m) < 4 * a && Sibling(m) / 2 == m / 2
  {
  }

  lemma MarkDead(h: nat, dead: set<nat>, marks: set<int>, n: int)
    requires Sound(h, dead, marks) && n in marks
    ensures 0 <= n && n + 1 < Pow2(h + 1) && AllDead(h, dead, n + 1, HeightOf(h, n + 1))
  {
    hide AllDead, HeightOf;
  }

  lemma SiblingHeight(h: nat, q: nat, i: nat)
    requires Pow2(h) <= q < Pow2(h + 1) && i < h
    ensures var s := Sibling(Climb(q, i));
            1 <= s < Pow2(h + 1) && HeightOf(h, s) == i && s / 2 == Climb(q, i + 1)
  {
    hide HeightOf, Sibling;
    ClimbBounds(h, q, i);
    assert Pow2(h - i) == 2 * Pow2(h - i - 1) && Pow2(h - i + 1) == 2 * Pow2(h - i);
    SiblingRange(Climb(q, i), Pow2(h - i - 1));
    Pow2Monotone(h - i + 1, h + 1);
    HeightUnique(h, Sibling(Climb(q, i)), i);
  }

  /** A parent is dead as soon as a node of the path and its sibling are. */
  lemma ParentDead(h: nat, dead: set<nat>, q: nat, i: nat)
    requires AllDead(h, dead, Climb(q, i), i) && AllDead(h, dead, Sibling(Climb(q, i)), i)
    ensures AllDead(h, dead, Climb(q, i + 1), i + 1)
  {
    AllDeadSplits(h, dead, Climb(q, i) / 2, i + 1);
  }

  lemma LeafDead(h: nat, dead: set<nat>, q: nat)
    ensures AllDead(h, dead, q, 0) <==> Dead(h, dead, q)
  {
    StartZero(q);
    StartZero(q + 1);
  }

  lemma {:induction false} PathDead(h: nat, dead: set<nat>, marks: set<int>, q: nat, i: nat)
    requires Pow2(h) <= q < Pow2(h + 1) && i <= h
    requires Sound(h, dead, marks) && Dead(h, dead, q) && SiblingsMarked(q, i, marks)
    ensures AllDead(h, dead, Climb(q, i), i)
  {
    hide AllDead, HeightOf, Sound, Sibling, Pow2, Dead;
    if i == 0 {
      LeafDead(h, dead, q);
    } else {
      PathDead(h, dead, marks, q, i - 1);
      SiblingHeight(h, q, i - 1);
      MarkDead(h, dead, marks, Sibling(Climb(q, i - 1)) - 1);
      ParentDead(h, dead, q, i - 1);
    }
  }

  lemma DeadMonotone(h: nat, dead: set<nat>, dead': set<nat>, m: nat, k: nat)
    requires dead <= dead' && AllDead(h, dead, m, k)
    ensures AllDead(h, dead', m, k)
  {
    forall q | Start(k, m) <= q < Start(k, m + 1) ensures Dead(h, dead', q) {
      assert Dead(h, dead, q);
    }
  }

  lemma SoundMonotone(h: nat, dead: set<nat>, dead': set<nat>, marks: set<int>)
    requires dead <= dead' && Sound(h, dead, marks)
    ensures Sound(h, dead', marks)
  {
    forall n | n in marks ensures 0 <= n && n + 1 < Pow2(h + 1) && AllDead(h, dead', n + 1, HeightOf(h, n + 1)) {
      DeadMonotone(h, dead, dead', n + 1, HeightOf(h, n + 1));
    }
  }

  lemma {:induction false} MarkedMonotone(m: int, top: nat, marks: set<int>, marks': set<int>)
    requires marks <= marks' && MarkedUpTo(m, top, marks)
    ensures MarkedUpTo(m, top, marks')
  {
    if m - 1 !in marks { MarkedMonotone(m / 2, top, marks, marks'); }
  }

  /** No node of the path of a live leaf is marked. */
  lemma LivePathUnmarked(h: nat, dead: set<nat>, marks: set<int>, q: nat, i: nat)
    requires Pow2(h) <= q < Pow2(h + 1) && i <= h && Sound(h, dead, marks) && !Dead(h, dead, q)
    ensures Climb(q, i) - 1 !in marks
  {
    PathHeight(h, q, i);
    ClimbRange(q, i, Climb(q, i));
  }

  lemma {:induction false} LivePathUnmarkedAbove(h: nat, dead: set<nat>, marks: set<int>, q: nat, i: nat)
    requires Pow2(h) <= q < Pow2(h + 1) && i <= h && Sound(h, dead, marks) && !Dead(h, dead, q)
    ensures !MarkedUpTo(Climb(q, i), 1, marks)
    decreases h - i
  {
    LivePathUnmarked(h, dead, marks, q, i);
    ClimbBounds(h, q, i);
    if i < h { LivePathUnmarkedAbove(h, dead, marks, q, i + 1); }
  }

  /** If the subtree at height k of the path becomes fully deleted with leaf q,
      then all siblings below it were already marked. */
  lemma {:induction false} FullSubtreeSiblings(h: nat, dead: set<nat>, p: nat, marks: set<int>, k: nat)
    requires p < Pow2(h) && k <= h && p !in dead
    requires Sound(h, dead, marks) && Complete(h, dead, marks)
    requires AllDead(h, dead + {p}, Climb(p + Pow2(h), k), k)
    ensures SiblingsMarked(p + Pow2(h), k, marks)
  {
    if k > 0 {
      hide AllDead, HeightOf, Sound, Complete;
      var q, i := p + Pow2(h), k - 1;
      var s := Sibling(Climb(q, i));
      AllDeadSplits(h, dead + {p}, Climb(q, k), k);
      assert {Climb(q, i), s} == {2 * Climb(q, k), 2 * Climb(q, k) + 1};
      FullSubtreeSiblings(h, dead, p, marks, i);
      SiblingWasMarked(h, dead, p, marks, i);
    }
  }

  lemma SiblingWasMarked(h: nat, dead: set<nat>, p: nat, marks: set<int>, i: nat)
    requires p < Pow2(h) && i < h && p !in dead
    requires Sound(h, dead, marks) && Complete(h, dead, marks)
    requires AllDead(h, dead + {p}, Sibling(Climb(p + Pow2(h), i)), i)
    ensures Sibling(Climb(p + Pow2(h), i)) - 1 in marks
  {
    hide AllDead, HeightOf, Sound;
    var q := p + Pow2(h);
    var s := Sibling(Climb(q, i));
    SiblingHeight(h, q, i);
    NewlyDead(h, dead, p, s);
    LivePathUnmarkedAbove(h, dead, marks, q, i + 1);
    assert MarkedUpTo(s, 1, marks);
  }

  lemma {:induction false} PickedAbove(q: nat, k: nat, top: nat, marks: set<int>, h: nat)
    requires Pow2(h) <= q < Pow2(h + 1) && k <= top <= h && Climb(q, top) - 1 in marks
    ensures MarkedUpTo(Climb(q, k), 1, marks)
    decreases top - k
  {
    ClimbBounds(h, q, k);
    ClimbBounds(h, q, top);
    if k < top {
      PickedAbove(q, k + 1, top, marks, h);
      assert Climb(q, k) > 1 by { assert Pow2(h - k) == 2 * Pow2(h - k - 1); }
    }
  }

  /** Marking only the picked node keeps the colouring sound. */
  lemma RemoveKeepsSound(h: nat, dead: set<nat>, p: nat, marks: set<int>, top: nat, j: int)
    requires p < Pow2(h) && Sound(h, dead, marks) && Picks(h, p + Pow2(h), marks, top, j)
    ensures Sound(h, dead + {p}, marks + Picked(p + Pow2(h), j))
  {
    hide AllDead, HeightOf, Climb, Sound;
    var q, dead' := p + Pow2(h), dead + {p};
    SoundMonotone(h, dead, dead', marks);
    if j >= 0 {
      PathHeight(h, q, j);
      PathDead(h, dead', marks, q, j);
      SoundAdd(h, dead', marks, Climb(q, j) - 1);
    } else {
      assert marks + Picked(q, j) == marks;
    }
  }

  lemma SoundAdd(h: nat, dead: set<nat>, marks: set<int>, n: nat)
    requires Sound(h, dead, marks) && n + 1 < Pow2(h + 1) && AllDead(h, dead, n + 1, HeightOf(h, n + 1))
    ensures Sound(h, dead, marks + {n})
  {
    hide AllDead, HeightOf;
  }

  /** A subtree that becomes fully deleted with p either was so before or lies on p's path. */
  lemma NewlyDead(h: nat, dead: set<nat>, p: nat, m: nat)
    requires p < Pow2(h) && DeadNode(h, dead + {p}, m)
    requires p in dead || Climb(p + Pow2(h), HeightOf(h, m)) != m
    ensures DeadNode(h, dead, m)
  {
    hide HeightOf, Start, Climb, Pow2;
    var k := HeightOf(h, m);
    ClimbRange(p + Pow2(h), k, m);
    forall x | Start(k, m) <= x < Start(k, m + 1) ensures Dead(h, dead, x) {
      assert Dead(h, dead + {p}, x);
    }
  }

  /** Marking only the picked node keeps the colouring complete. */
  lemma RemoveKeepsComplete(h: nat, dead: set<nat>, p: nat, marks: set<int>, top: nat, j: int)
    requires p < Pow2(h) && Sound(h, dead, marks) && Complete(h, dead, marks)
    requires Picks(h, p + Pow2(h), marks, top, j)
    ensures Complete(h, dead + {p}, marks + Picked(p + Pow2(h), j))
  {
    hide AllDead, HeightOf, Climb, MarkedUpTo, Picks, Sound;
    var q, marks' := p + Pow2(h), marks + Picked(p + Pow2(h), j);
    forall m | DeadNode(h, dead + {p}, m) ensures MarkedUpTo(m, 1, marks') {
      if p in dead || Climb(q, HeightOf(h, m)) != m {
        NewlyDead(h, dead, p, m);
        MarkedMonotone(m, 1, marks, marks');
      } else {
        FullSubtreeSiblings(h, dead, p, marks, HeightOf(h, m));
        FreshPick(h, dead, p, marks, top, j, HeightOf(h, m));
      }
    }
  }

  lemma FreshPick(h: nat, dead: set<nat>, p: nat, marks: set<int>, top: nat, j: int, k: nat)
    requires p < Pow2(h) && p !in dead && Sound(h, dead, marks) && k <= h
    requires SiblingsMarked(p + Pow2(h), k, marks) && Picks(h, p + Pow2(h), marks, top, j)
    ensures MarkedUpTo(Climb(p + Pow2(h), k), 1, marks + Picked(p + Pow2(h), j))
  {
    hide AllDead, HeightOf, MarkedUpTo, Sound;
    var q := p + Pow2(h);
    LivePathUnmarked(h, dead, marks, q, top);
    PickedAbove(q, k, top, marks + Picked(q, j), h);
  }

  /** Telling the server about the picked node keeps its marks in step. */
  lemma RemoveKeepsMirror(server: set<int>, client: set<int>, picked: set<int>)
    requires Mirrors(server, client)
    ensures Mirrors(server + picked, client + picked)
  {
    forall n | Topmost(n, client + picked) ensures n in server + picked {
      if n in client {
        if n >= 1 && MarkedUpTo((n + 1) / 2, 1, client) {
          MarkedMonotone((n + 1) / 2, 1, client, client + picked);
        }
        assert Topmost(n, client);
      }
    }
  }
}
