/** Facts about integer division, and small functions on numbers, that several modules need. */
module Arithmetic {
  function AtLeast0(n: int): nat { if n < 0 then 0 else n }

  lemma {:induction false} MulLess(m: nat, a: nat, b: nat)
    requires a < b
    ensures m * a + m <= m * b
  {
    assert m * b == m * (b - 1) + m;
    if a < b - 1 {
      MulLess(m, a, b - 1);
    }
  }

  /** Uniqueness of quotient and remainder. */
  lemma DivUnique(x: nat, m: nat, q: nat, r: nat)
    requires m > 0 && x == m * q + r && r < m
    ensures x / m == q && x % m == r
  {
    var q', r' := x / m, x % m;
    assert x == m * q' + r';
    if q < q' {
      MulLess(m, q, q');
    } else if q' < q {
      MulLess(m, q', q);
    }
  }

  lemma DivSplit(x: nat, m: nat)
    requires m > 0
    ensures x == m * (x / m) + x % m && x % m < m
  {
  }

  /** Quotient and remainder under names, so that proofs need not know more of them than Split and Unique. */
  function Quot(x: nat, m: nat): nat
    requires m > 0
  {
    x / m
  }

  function Rem(x: nat, m: nat): nat
    requires m > 0
  {
    x % m
  }

  lemma Split(x: nat, m: nat)
    requires m > 0
    ensures x == m * Quot(x, m) + Rem(x, m) && Rem(x, m) < m
  {
    DivSplit(x, m);
  }

  lemma Unique(x: nat, m: nat, q: nat, r: nat)
    requires m > 0 && x == m * q + r && r < m
    ensures Quot(x, m) == q && Rem(x, m) == r
  {
    DivUnique(x, m, q, r);
  }

  /** Adding d < m to x either stays in the same round or goes into the next. */
  lemma ModAdd(x: nat, d: nat, m: nat)
    requires m > 0 && d < m
    ensures (x + d) % m == if x % m + d < m then x % m + d else x % m + d - m
  {
    DivSplit(x, m);
    var q, r := x / m, x % m;
    if r + d < m {
      DivUnique(x + d, m, q, r + d);
    } else {
      assert m * (q + 1) == m * q + m;
      DivUnique(x + d, m, q + 1, r + d - m);
    }
  }
}
