/** A complete binary tree stored by index, the root at 0 and the children of
    n at 2n + 1 and 2n + 2. The address of a node is its index plus one, so the
    parent of an address is its half. Leaves are the addresses from 2^H on. */
module HeapTree {
  import opened Powers

  /** The ancestor k levels above an address. */
  function Climb(m: nat, k: nat): (r: nat) {
    if k == 0 then m else Climb(m, k - 1) / 2
  }

  /** A subtree of height k spans an aligned block of 2^k addresses. */
  lemma {:induction false} ClimbRange(q: nat, k: nat, m: nat)
    ensures Climb(q, k) == m <==> Start(k, m) <= q < Start(k, m + 1)
  {
    if k == 0 {
      StartZero(m);
      StartZero(m + 1);
    } else {
      ClimbRange(q, k - 1, 2 * m);
      ClimbRange(q, k - 1, 2 * m + 1);
      StartHalves(k - 1, m);
      StartHalves(k - 1, m + 1);
      StartMonotone(k - 1, 2 * m, 2 * m + 1);
      StartMonotone(k - 1, 2 * m + 1, 2 * m + 2);
    }
  }

  lemma {:induction false} ClimbAdd(m: nat, a: nat, b: nat)
    ensures Climb(m, a + b) == Climb(Climb(m, a), b)
  {
    if b > 0 { ClimbAdd(m, a, b - 1); }
  }

  lemma {:induction false} ClimbFirst(m: nat, k: nat)
    requires k >= 1
    ensures Climb(m, k) == Climb(m / 2, k - 1)
  {
    ClimbAdd(m, 1, k - 1);
  }

  /** Every path of a tree of height h ends at the root. */
  lemma {:induction false} ClimbBounds(h: nat, q: nat, k: nat)
    requires Pow2(h) <= q < Pow2(h + 1) && k <= h
    ensures Pow2(h - k) <= Climb(q, k) < Pow2(h - k + 1)
  {
    if k > 0 { ClimbBounds(h, q, k - 1); }
  }

  /** The height of an address in a tree of height h: 0 for a leaf, h for the root. */
  function HeightOf(h: nat, m: nat): (k: nat)
    requires 1 <= m < Pow2(h + 1)
    ensures k <= h && Pow2(h - k) <= m < Pow2(h - k + 1)
  {
    LogBound(h, m);
    h - FloorLog2(m)
  }

  lemma LogBound(h: nat, m: nat)
    requires 1 <= m < Pow2(h + 1)
    ensures FloorLog2(m) <= h
  {
    if FloorLog2(m) > h { Pow2Monotone(h + 1, FloorLog2(m)); }
  }

  lemma {:induction false} HeightUnique(h: nat, m: nat, k: nat)
    requires 1 <= m < Pow2(h + 1) && k <= h && Pow2(h - k) <= m < Pow2(h - k + 1)
    ensures HeightOf(h, m) == k
  {
    var j := HeightOf(h, m);
    if j < k { Pow2Monotone(h - k + 1, h - j); }
    if k < j { Pow2Monotone(h - j + 1, h - k); }
  }

  lemma {:induction false} PathHeight(h: nat, q: nat, i: nat)
    requires Pow2(h) <= q < Pow2(h + 1) && i <= h
    ensures 1 <= Climb(q, i) < Pow2(h + 1) && HeightOf(h, Climb(q, i)) == i
  {
    ClimbBounds(h, q, i);
    Pow2Monotone(h - i + 1, h + 1);
    HeightUnique(h, Climb(q, i), i);
  }

  /** The array index of the node at depth curDepth on the path to a leaf, in a
      tree whose leaves are at depth bottom. */
  method GetNodeOnPath(h: nat, leaf: nat, bottom: int, curDepth: int) returns (r: nat)
    requires leaf < Pow2(h) && 0 <= bottom - curDepth <= h
    ensures r == Climb(leaf + Pow2(h), bottom - curDepth) - 1
  {
    assert Pow2(h + 1) == 2 * Pow2(h);
    r := leaf + (Pow2(h + 1) - 1) / 2;
    var d := bottom - 1;
    while d >= curDepth
      invariant curDepth - 1 <= d <= bottom - 1
      invariant r == Climb(leaf + Pow2(h), bottom - 1 - d) - 1
    {
      ClimbBounds(h, leaf + Pow2(h), bottom - d);
      r := (r + 1) / 2 - 1;
      d := d - 1;
    }
  }
}
