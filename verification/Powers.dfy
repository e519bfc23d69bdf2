/** Powers of two and the integer form of the floating-point expressions
    (pow, log2, ceil) that the schemes use to size their levels and trees. */
module Powers {

  function Pow2(k: nat): (r: nat)
    ensures r >= 1
  {
    if k == 0 then 1 else 2 * Pow2(k - 1)
  }

  /** (int) ceil(log2(n)): the least k with n <= 2^k. */
  function CeilLog2(n: nat): (k: nat)
    requires n >= 1
    ensures n <= Pow2(k)
    ensures k > 0 ==> Pow2(k - 1) < n
  {
    if n == 1 then 0 else 1 + CeilLog2((n + 1) / 2)
  }

  /** (int) floor(log2(n)): the greatest k with 2^k <= n. */
  function FloorLog2(n: nat): (k: nat)
    requires n >= 1
    ensures Pow2(k) <= n < Pow2(k + 1)
  {
    if n == 1 then 0 else 1 + FloorLog2(n / 2)
  }

  /** ceil(a / b) for a positive divisor and any dividend. */
  function CeilDiv(a: int, b: nat): (r: int)
    requires b >= 1
    ensures (r - 1) * b < a <= r * b
  {
    -((-a) / b)
  }

  lemma {:induction false} Pow2Monotone(a: nat, b: nat)
    requires a <= b
    ensures Pow2(a) <= Pow2(b)
    decreases b
  {
    if a < b { Pow2Monotone(a, b - 1); }
  }

  lemma {:induction false} Pow2Add(a: nat, b: nat)
    ensures Pow2(a + b) == Pow2(a) * Pow2(b)
  {
    if a > 0 { Pow2Add(a - 1, b); assert Pow2(a + b) == 2 * Pow2(a - 1 + b); }
  }

  /** q and r are the quotient and remainder as soon as they satisfy the division equation. */
  lemma DivModUnique(a: int, b: nat, q: int, r: int)
    requires b >= 1 && a == q * b + r && 0 <= r < b
    ensures a / b == q && a % b == r
  {
    var q', r' := a / b, a % b;
    assert a == q' * b + r';
    assert (q - q') * b == r' - r;
    assert (q' - q) * b == r - r';
    if q > q' {
      MulLower(q - q', b);
    } else if q < q' {
      MulLower(q' - q, b);
    }
  }

  lemma MulLower(k: int, b: nat)
    requires k >= 1
    ensures k * b >= b
  {
    assert k * b == (k - 1) * b + b;
  }

  /** Counting up by one either advances the remainder or wraps it. */
  lemma DivModStep(t: nat, b: nat)
    requires t >= 1 && b >= 1
    ensures t % b == 0 ==> (t - 1) % b == b - 1 && t / b == (t - 1) / b + 1
    ensures t % b != 0 ==> (t - 1) % b == t % b - 1 && t / b == (t - 1) / b
  {
    var q, r := t / b, t % b;
    if r == 0 {
      assert t - 1 == (q - 1) * b + (b - 1);
      DivModUnique(t - 1, b, q - 1, b - 1);
    } else {
      DivModUnique(t - 1, b, q, r - 1);
    }
  }

  lemma DivHalves(t: nat, b: nat)
    requires b >= 1
    ensures t / (2 * b) == (t / b) / 2
  {
    var q := t / b;
    var r := t - q * b;
    assert q == 2 * (q / 2) + q % 2;
    assert t == (q / 2) * (2 * b) + ((q % 2) * b + r);
    assert 0 <= (q % 2) * b + r < 2 * b;
    DivModUnique(t, 2 * b, q / 2, (q % 2) * b + r);
  }

  /** k * 2^j by repeated addition: where the k-th aligned block of 2^j starts. */
  ghost function Start(j: nat, k: nat): nat {
    if k == 0 then 0 else Start(j, k - 1) + Pow2(j)
  }

  lemma {:induction false} StartIsProduct(j: nat, k: nat)
    ensures Start(j, k) == k * Pow2(j)
  {
    if k > 0 {
      StartIsProduct(j, k - 1);
      assert k * Pow2(j) == (k - 1) * Pow2(j) + Pow2(j);
    }
  }

  lemma {:induction false} StartMonotone(j: nat, k: nat, p: nat)
    requires k <= p
    ensures Start(j, k) <= Start(j, p)
    decreases p
  {
    if k < p { StartMonotone(j, k, p - 1); }
  }

  lemma {:induction false} StartHalves(j: nat, k: nat)
    ensures Start(j + 1, k) == Start(j, 2 * k)
  {
    if k > 0 {
      StartHalves(j, k - 1);
      assert Start(j, 2 * k) == Start(j, 2 * k - 1) + Pow2(j);
      assert Start(j, 2 * k - 1) == Start(j, 2 * k - 2) + Pow2(j);
    }
  }

  lemma {:induction false} StartZero(k: nat)
    ensures Start(0, k) == k
  {
    StartIsProduct(0, k);
  }

  lemma {:induction false} CeilLog2Monotone(a: nat, b: nat)
    requires 1 <= a <= b
    ensures CeilLog2(a) <= CeilLog2(b)
  {
    if a > 1 { CeilLog2Monotone((a + 1) / 2, (b + 1) / 2); }
  }
}
