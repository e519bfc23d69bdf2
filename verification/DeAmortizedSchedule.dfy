/** The arithmetic of the four-set level schedule of the de-amortized index.
    The clock is t = updates + 2; nothing below mentions the stored data. */
module DeAmortizedSchedule {
  import opened Powers

  /** Merges completed into level j by clock t (for level 0: updates stored). */
  function Produced(j: nat, t: nat): nat {
    if t / Pow2(j) >= 2 then t / Pow2(j) - 2 else 0
  }

  /** Records already copied by the merge into level j that is under way. */
  function Progress(j: nat, t: nat): (r: nat)
    ensures r < Pow2(j)
  {
    if t / Pow2(j) >= 2 then t % Pow2(j) else 0
  }

  /** Merges of level j's sets already completed into level j + 1 of l levels. */
  function Consumed(l: nat, j: nat, t: nat): nat {
    if j + 1 < l then Produced(j + 1, t) else 0
  }

  /** ceil(log2 N) levels; level 0 exists even for N = 1. */
  function Levels(n: nat): (l: nat)
    requires n >= 1
    ensures l >= 1
  {
    if n == 1 then 1 else CeilLog2(n)
  }

  /** Updates stay within capacity while the clock is below this bound. */
  function Capacity(l: nat): nat
    requires l >= 1
  {
    6 * Pow2(l - 1)
  }

  /** The merge cycle that a copy into level i at clock t belongs to, as the
      source computes it from the incremented update counter u = t - 2. */
  function UpCnt(i: nat, u: nat): int
    requires i >= 1
  {
    CeilDiv(u - (6 * Pow2(i - 1) - 2), Pow2(i)) + 1
  }

  lemma ProducedZero(t: nat)
    requires t >= 2
    ensures Produced(0, t) == t - 2
  {
  }

  /** The number of full sets of a level, for every clock value. */
  lemma Occupancy(j: nat, t: nat)
    ensures 2 * Produced(j + 1, t) <= Produced(j, t)
    ensures var full := Produced(j, t) - 2 * Produced(j + 1, t);
            && full <= 3
            && (t < Pow2(j + 1) ==> full == 0)
            && (Pow2(j + 1) <= t < Pow2(j + 2) ==> full == t / Pow2(j) - 2)
            && (Pow2(j + 2) <= t ==> full == 2 + (t / Pow2(j)) % 2)
            && (full >= 2 <==> t / Pow2(j + 1) >= 2)
  {
    var b := Pow2(j);
    assert Pow2(j + 1) == 2 * b && Pow2(j + 2) == 4 * b;
    DivHalves(t, b);
    DivBound(t, b, 2);
    DivBound(t, b, 4);
  }

  lemma DivBound(t: nat, b: nat, k: nat)
    requires b >= 1
    ensures t / b >= k <==> t >= k * b
  {
    var q := t / b;
    assert q * b <= t < q * b + b;
    if q >= k {
      assert q * b >= k * b;
    } else {
      assert (q + 1) * b <= k * b;
    }
  }

  /** One tick of the merge into level i: idle, one record further, or complete;
      it completes only when all three sets of the level below are full. */
  lemma ScheduleStep(i: nat, t: nat)
    requires i >= 1
    ensures var active := Produced(i - 1, t) - 2 * Produced(i, t) >= 2;
            && (active <==> t / Pow2(i) >= 2)
            && (!active ==> Produced(i, t + 1) == Produced(i, t) == 0 && Progress(i, t + 1) == Progress(i, t) == 0)
            && (active && Progress(i, t) + 1 < Pow2(i) ==>
                  Produced(i, t + 1) == Produced(i, t) && Progress(i, t + 1) == Progress(i, t) + 1)
            && (active && Progress(i, t) + 1 == Pow2(i) ==>
                  && Produced(i, t + 1) == Produced(i, t) + 1 && Progress(i, t + 1) == 0
                  && Produced(i - 1, t) - 2 * Produced(i, t) == 3)
  {
    var b, c := Pow2(i), Pow2(i - 1);
    assert b == 2 * c;
    Occupancy(i - 1, t);
    DivModStep(t + 1, b);
    if t / b >= 2 && t % b == b - 1 { LastTickOdd(t, c); }
  }

  /** At the last tick of a cycle the level below has seen an odd number of slices. */
  lemma LastTickOdd(t: nat, c: nat)
    requires c >= 1 && t % (2 * c) == 2 * c - 1
    ensures t / c == 2 * (t / (2 * c)) + 1
  {
    var q := t / (2 * c);
    assert t == q * (2 * c) + (2 * c - 1);
    assert t == (2 * q + 1) * c + (c - 1);
    DivModUnique(t, c, 2 * q + 1, c - 1);
  }

  /** The cycle number of the copy made while the clock moves from t to t + 1:
      the ceil expression of the source is floor(t / 2^i) - 1. */
  lemma CycleNumber(i: nat, t: nat)
    requires i >= 1 && t >= 1
    ensures UpCnt(i, t - 1) == t / Pow2(i) - 1 == CeilDiv(t + 1, Pow2(i)) - 2
  {
    var b := Pow2(i);
    assert 6 * Pow2(i - 1) == 3 * b;
    hide *;
    CeilOfSuccessor(t, b);
    UpCntIs(i, t, b);
  }

  lemma UpCntIs(i: nat, t: nat, b: nat)
    requires i >= 1 && t >= 1 && b == Pow2(i)
    ensures b >= 1 && UpCnt(i, t - 1) == CeilDiv(t + 1 - 3 * b, b) + 1
  {
    hide CeilDiv;
    assert 6 * Pow2(i - 1) == 3 * b;
  }

  lemma CeilOfSuccessor(t: nat, b: nat)
    requires b >= 1
    ensures CeilDiv(t + 1, b) == t / b + 1
    ensures CeilDiv(t + 1 - 3 * b, b) == t / b - 2
  {
    var q := t / b;
    assert q * b <= t < q * b + b;
    assert (q + 1) * b == q * b + b;
    CeilUnique(t + 1, b, q + 1);
    assert (q - 2) * b == q * b - 2 * b && (q - 3) * b == q * b - 3 * b;
    CeilUnique(t + 1 - 3 * b, b, q - 2);
  }

  lemma CeilUnique(a: int, b: nat, r: int)
    requires b >= 1 && (r - 1) * b < a <= r * b
    ensures CeilDiv(a, b) == r
  {
    var r' := CeilDiv(a, b);
    assert (r' - 1) * b < r * b && (r - 1) * b < r' * b;
    if r' > r { MulOrder(r, r' - 1, b); }
    if r' < r { MulOrder(r', r - 1, b); }
  }

  lemma MulOrder(x: int, y: int, b: nat)
    requires x <= y
    ensures x * b <= y * b
  {
  }

  /** A merge cycle keeps one number while it runs and a later cycle never
      reuses it: the number changes exactly when the merge completes. */
  lemma CycleStable(i: nat, t: nat)
    requires i >= 1 && t >= 1 && t / Pow2(i) >= 2
    ensures Progress(i, t) + 1 < Pow2(i) ==> UpCnt(i, t) == UpCnt(i, t - 1)
    ensures Progress(i, t) + 1 == Pow2(i) ==> UpCnt(i, t) == UpCnt(i, t - 1) + 1
  {
    CycleNumber(i, t);
    CycleNumber(i, t + 1);
    DivModStep(t + 1, Pow2(i));
  }

  /** The N updates a caller announces to the constructor fit in the capacity. */
  lemma CapacityCoversN(n: nat, u: nat)
    requires n >= 1 && u <= n
    ensures CeilLog2(n) == 0 <==> n == 1
    ensures u + 2 < Capacity(Levels(n))
  {
    var k := CeilLog2(n);
    if k > 0 { assert Pow2(k) == 2 * Pow2(k - 1); }
  }

  /** N updates are announced for the least l >= 1 with N <= 2^l, and the index then
      takes fewer than 3 * 2^l - 2 of them. */
  lemma LevelsExact(n: nat, l: nat)
    requires n >= 1
    ensures Levels(n) == l <==> l >= 1 && n <= Pow2(l) && (l == 1 || Pow2(l - 1) < n)
    ensures Levels(n) == l ==> Capacity(l) == 3 * Pow2(l)
  {
    var k := Levels(n);
    if l >= 1 && n <= Pow2(l) && (l == 1 || Pow2(l - 1) < n) {
      if l < k { Pow2Monotone(l, k - 1); }
      if k < l { Pow2Monotone(k, l - 1); }
    }
  }

  /** The top level has a free set for every completed merge exactly while the
      clock is below the capacity. */
  lemma TopFits(l: nat, t: nat)
    requires l >= 1
    ensures Produced(l - 1, t) <= 3 <==> t < Capacity(l)
  {
    DivBound(t, Pow2(l - 1), 6);
  }
}
