/** Division with remainder, whose quotient and remainder are the only ones, and powers of two. */
module Arithmetic {

  lemma {:induction false} MulApart(a: nat, b: nat, n: nat)
    requires a > b
    ensures a * n >= b * n + n
    decreases a
  {
    OneMore(a - 1, n);
    if a > b + 1 {
      MulApart(a - 1, b, n);
    }
  }

  lemma OneMore(a: nat, n: nat)
    ensures (a + 1) * n == a * n + n
  {}

  lemma DivUnique(k: nat, n: nat, q: nat, r: nat)
    requires n > 0 && r < n && k == q * n + r
    ensures k / n == q && k % n == r
  {
    var q2, r2 := k / n, k % n;
    assert k == q2 * n + r2;
    if q > q2 {
      MulApart(q, q2, n);
    } else if q < q2 {
      MulApart(q2, q, n);
    }
  }

  function Pow2(n: nat): nat {
    if n == 0 then 1 else 2 * Pow2(n - 1)
  }

  lemma {:induction false} Pow2Split(m: nat, n: nat)
    ensures Pow2(m + n) == Pow2(m) * Pow2(n)
    decreases m
  {
    if m > 0 {
      Pow2Split(m - 1, n);
    }
  }
}
