/**
 Powers of two, and division by a number that is not a constant.
 */
module Arith {
  function Pow2(n: nat): nat { if n == 0 then 1 else 2 * Pow2(n - 1) }

  lemma {:induction false} Pow2Add(a: nat, b: nat)
    ensures Pow2(a + b) == Pow2(a) * Pow2(b)
  {
    if a != 0 { Pow2Add(a - 1, b); }
  }

  lemma PowPositive(n: nat)
    ensures Pow2(n) >= 1
  {}

  function Quotient(n: nat, p: nat): nat
    requires p > 0
  {
    n / p
  }

  function Remainder(n: nat, p: nat): nat
    requires p > 0
  {
    n % p
  }

  lemma {:induction false} Gap(a: nat, b: nat, p: nat)
    ensures a < b ==> a * p + p <= b * p
    decreases b
  {
    if a + 1 < b {
      Gap(a, b - 1, p);
      assert b * p == (b - 1) * p + p;
    }
  }

  lemma DivMod(n: nat, p: nat)
    requires p > 0
    ensures n == Quotient(n, p) * p + Remainder(n, p) && Remainder(n, p) < p
  {}

  lemma QuotientIs(n: nat, p: nat, q: nat, r: nat)
    requires p > 0 && n == q * p + r && r < p
    ensures Quotient(n, p) == q
  {
    Gap(q, Quotient(n, p), p);
    Gap(Quotient(n, p), q, p);
    DivMod(n, p);
  }

  lemma RemainderIs(n: nat, p: nat, q: nat, r: nat)
    requires p > 0 && n == q * p + r && r < p
    ensures Remainder(n, p) == r
  {
    QuotientIs(n, p, q, r);
    DivMod(n, p);
  }

  lemma AtLeast(n: nat, p: nat, q: nat)
    requires p > 0 && q * p <= n
    ensures q <= Quotient(n, p)
  {
    DivMod(n, p);
    Gap(Quotient(n, p), q, p);
  }
}
