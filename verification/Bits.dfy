/** Python's integer bit operators, on unbounded integers. */
module Bits {

  function Pow2(k: nat): (p: nat)
    ensures p >= 1
  {
    if k == 0 then 1 else 2 * Pow2(k - 1)
  }

  /** `a ^ b` for non-negative operands. */
  function Xor(a: nat, b: nat): nat
  {
    if a == 0 && b == 0 then 0
    else (a % 2 + b % 2) % 2 + 2 * Xor(a / 2, b / 2)
  }

  /** `a & b` for non-negative operands. */
  function And(a: nat, b: nat): nat {
    if a == 0 || b == 0 then 0
    else (if a % 2 == 1 && b % 2 == 1 then 1 else 0) + 2 * And(a / 2, b / 2)
  }

  lemma AndTwo(a: nat)
    ensures And(a, 2) == 2 * (a / 2 % 2)
  {
    assert And(a / 2, 1) == (if a / 2 % 2 == 1 then 1 else 0) + 2 * And(a / 2 / 2, 0);
  }

  /** `a | b` in two's complement with infinitely many sign bits. */
  function Or(a: int, b: int): int
    decreases if a >= 0 then a else -a
  {
    if a == 0 then b
    else if a == -1 then -1
    else (if a % 2 == 1 || b % 2 == 1 then 1 else 0) + 2 * Or(a / 2, b / 2)
  }

  // ---------- Division ----------

  /** Quotient and remainder are determined by the division equation, for negative numbers too. */
  lemma DivUnique(n: int, d: nat, q: int, r: nat)
    requires d > 0 && n == d * q + r && r < d
    ensures n / d == q && n % d == r
  {
    var e := n / d - q;
    assert n == d * (n / d) + n % d;
    MulDistributes(d, n / d, q);
    assert d * e == r - n % d;
    if e >= 1 {
      MulMonotone(d, 1, e);
    }
    if e <= -1 {
      MulMonotone(d, e, -1);
    }
  }

  lemma MulDistributes(d: int, a: int, b: int)
    ensures d * (a - b) == d * a - d * b
  {
  }

  lemma MulMonotone(d: nat, a: int, b: int)
    requires a <= b
    ensures d * a <= d * b
  {
  }

  lemma HalveThenDivide(n: nat, b: nat)
    requires b > 0
    ensures n / 2 / b == n / (2 * b)
  {
    var q, r := n / 2 / b, n / 2 % b;
    assert n / 2 == b * q + r;
    assert (2 * b) * q == 2 * (b * q);
    DivUnique(n, 2 * b, q, 2 * r + n % 2);
  }

  // ---------- Powers and operators ----------

  lemma Pow2Add(a: nat, b: nat)
    ensures Pow2(a + b) == Pow2(a) * Pow2(b)
  {
    if a > 0 {
      Pow2Add(a - 1, b);
    }
  }

  /** OR of a multiple of 2^k with a field of at most k bits is their sum: no carry. */
  lemma {:induction false} OrIsSum(high: int, k: nat, low: nat)
    requires low < Pow2(k)
    ensures Or(high * Pow2(k), low) == high * Pow2(k) + low
    decreases k
  {
    if k == 0 {
      OrZero(high);
    } else {
      var a := high * Pow2(k);
      assert a == 2 * (high * Pow2(k - 1));
      assert a % 2 == 0 && a / 2 == high * Pow2(k - 1);
      OrIsSum(high, k - 1, low / 2);
    }
  }

  lemma {:induction false} OrZero(a: int)
    ensures Or(a, 0) == a
    decreases if a >= 0 then a else -a
  {
    if a != 0 && a != -1 {
      OrZero(a / 2);
    }
  }
}
