/**
 * Polynomials over GF(2), each the finite set of the exponents it contains,
 * and divisibility by the generator of ITU-T V.41, section 2.
 */
module Gf2 {

  type Poly = set<nat>

  /** The generator x^16 + x^12 + x^5 + 1. */
  const G: Poly := {16, 12, 5, 0}

  function Add(a: Poly, b: Poly): Poly {
    (a - b) + (b - a)
  }

  /** p(x) * x^k */
  function Shift(p: Poly, k: nat): Poly {
    set e | e in p :: e + k
  }

  /** q(x) * G by Horner's rule; q lists its coefficients, highest power first. */
  function Multiple(q: seq<bool>): Poly {
    if q == [] then {}
    else Add(Shift(Multiple(q[..|q| - 1]), 1), if q[|q| - 1] then G else {})
  }

  ghost predicate Divisible(p: Poly) {
    exists q: seq<bool> :: p == Multiple(q)
  }

  predicate Small(p: Poly) {
    forall e | e in p :: e < 16
  }

  /** r is the remainder of p on division by G. */
  ghost predicate IsRemainder(p: Poly, r: Poly) {
    Small(r) && Divisible(Add(p, r))
  }

  // Sums of abstract polynomials, so that proofs need not look inside their terms.

  lemma AddSwap(a: Poly, b: Poly, c: Poly, d: Poly)
    ensures Add(Add(a, b), Add(c, d)) == Add(Add(a, c), Add(b, d))
  {
  }

  lemma AddCancel(a: Poly, b: Poly, c: Poly)
    ensures Add(Add(a, c), Add(b, c)) == Add(a, b)
    ensures Add(Add(c, a), Add(c, b)) == Add(a, b)
  {
  }

  lemma AddConstantTerm(c: Poly, d: Poly, a: Poly, b: Poly)
    requires 0 !in a && 0 !in b && c <= {0} && d <= {0}
    ensures Add(c + a, d + b) == Add(c, d) + Add(a, b)
  {
  }

  lemma AddUnit(c: Poly, a: Poly, b: Poly)
    requires a !! c && b !! c
    ensures Add(a, c + b) == c + Add(a, b)
  {
  }

  lemma InShift(p: Poly, k: nat, e: nat)
    ensures e in Shift(p, k) <==> e >= k && e - k in p
  {
    if e >= k && e - k in p {
      var f: nat := e - k;
      assert f in p && e == f + k;
    }
  }

  lemma ShiftShift(p: Poly, j: nat, k: nat)
    ensures Shift(Shift(p, j), k) == Shift(p, j + k)
  {
    forall e: nat
      ensures e in Shift(Shift(p, j), k) <==> e in Shift(p, j + k)
    {
      InShift(Shift(p, j), k, e);
      InShift(p, j + k, e);
      if e >= k {
        InShift(p, j, e - k);
      }
    }
  }

  lemma ShiftAdd(a: Poly, b: Poly, k: nat)
    ensures Shift(Add(a, b), k) == Add(Shift(a, k), Shift(b, k))
  {
    forall e: nat
      ensures e in Shift(Add(a, b), k) <==> e in Add(Shift(a, k), Shift(b, k))
    {
      InShift(Add(a, b), k, e);
      InShift(a, k, e);
      InShift(b, k, e);
    }
  }

  lemma ShiftInsert(p: Poly, e: nat, k: nat)
    ensures Shift(p + {e}, k) == Shift(p, k) + {e + k}
  {
    assert e in p + {e};
  }

  lemma ShiftInjective(a: Poly, b: Poly, k: nat)
    requires Shift(a, k) == Shift(b, k)
    ensures a == b
  {
    forall e: nat
      ensures e in a <==> e in b
    {
      InShift(a, k, e + k);
      InShift(b, k, e + k);
    }
  }

  lemma {:induction false} PadQuotient(k: nat, q: seq<bool>)
    ensures Multiple(seq(k, _ => false) + q) == Multiple(q)
    decreases |q|, k
  {
    var z := seq(k, _ => false);
    if q != [] {
      assert (z + q)[..|z + q| - 1] == z + q[..|q| - 1];
      PadQuotient(k, q[..|q| - 1]);
    } else if k > 0 {
      assert z + q == z;
      assert z[..k - 1] == seq(k - 1, _ => false) == seq(k - 1, _ => false) + q;
      PadQuotient(k - 1, q);
    } else {
      assert z + q == q;
    }
  }

  lemma {:induction false} SumOfMultiples(p: seq<bool>, q: seq<bool>, s: seq<bool>)
    requires |p| == |q| == |s| && forall i | 0 <= i < |s| :: s[i] == (p[i] != q[i])
    ensures Add(Multiple(p), Multiple(q)) == Multiple(s)
  {
    if s != [] {
      var n := |s| - 1;
      var a, b := Multiple(p[..n]), Multiple(q[..n]);
      SumOfMultiples(p[..n], q[..n], s[..n]);
      ShiftAdd(a, b, 1);
      AddSwap(Shift(a, 1), if p[n] then G else {}, Shift(b, 1), if q[n] then G else {});
    }
  }

  lemma DivisibleAdd(a: Poly, b: Poly)
    requires Divisible(a) && Divisible(b)
    ensures Divisible(Add(a, b))
  {
    var p, q :| a == Multiple(p) && b == Multiple(q);
    PadQuotient(|q|, p);
    PadQuotient(|p|, q);
    var p', q' := seq(|q|, _ => false) + p, seq(|p|, _ => false) + q;
    SumOfMultiples(p', q', seq(|p'|, i requires 0 <= i < |p'| => p'[i] != q'[i]));
  }

  ghost predicate IsDegree(p: Poly, d: nat) {
    d in p && forall e | e in p :: e <= d
  }

  /** A multiple of G is 0 or reaches the degree of G. */
  lemma {:induction false} LeadingTerm(q: seq<bool>) returns (d: nat)
    ensures Multiple(q) == {} || (d >= 16 && IsDegree(Multiple(q), d))
  {
    d := 16;
    if q != [] {
      var m := Multiple(q[..|q| - 1]);
      var c := LeadingTerm(q[..|q| - 1]);
      if m == {} {
        assert Shift(m, 1) == {};
      } else {
        d := c + 1;
        InShift(m, 1, d);
        assert forall e | e in Shift(m, 1) :: e <= d;
      }
    }
  }

  lemma SmallMultipleIsZero(p: Poly)
    requires Small(p) && Divisible(p)
    ensures p == {}
  {
    var q :| p == Multiple(q);
    var d := LeadingTerm(q);
  }

  lemma RemainderUnique(p: Poly, r: Poly, s: Poly)
    requires IsRemainder(p, r) && IsRemainder(p, s)
    ensures r == s
  {
    DivisibleAdd(Add(p, r), Add(p, s));
    AddCancel(r, s, p);
    SmallMultipleIsZero(Add(r, s));
    assert r == Add(Add(r, s), s);
  }

  /** G has a constant term, so a factor x can be cancelled and put back. */
  lemma CancelOneX(p: Poly)
    ensures Divisible(Shift(p, 1)) <==> Divisible(p)
  {
    if Divisible(p) {
      var q :| p == Multiple(q);
      assert (q + [false])[..|q|] == q;
      assert Shift(p, 1) == Multiple(q + [false]);
    }
    if Divisible(Shift(p, 1)) {
      var q :| Shift(p, 1) == Multiple(q);
      InShift(p, 1, 0);
      if q == [] {
        ShiftInjective(p, {}, 1);
        assert p == Multiple([]);
      } else {
        var m := Multiple(q[..|q| - 1]);
        InShift(m, 1, 0);
        assert !q[|q| - 1];
        assert Shift(m, 1) == Multiple(q);
        ShiftInjective(p, m, 1);
      }
    }
  }

  lemma {:induction false} CancelX(p: Poly, k: nat)
    ensures Divisible(Shift(p, k)) <==> Divisible(p)
  {
    if k == 0 {
      assert Shift(p, 0) == p;
    } else {
      CancelX(p, k - 1);
      ShiftShift(p, k - 1, 1);
      CancelOneX(Shift(p, k - 1));
    }
  }
}
