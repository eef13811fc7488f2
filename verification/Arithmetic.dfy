/** Powers of two and integer quotients. */
module Arithmetic {
  function Pow2(n: nat): (p: nat)
    ensures p >= 1
  {
    if n == 0 then 1 else 2 * Pow2(n - 1)
  }

  lemma {:induction false} Pow2Adds(m: nat, n: nat)
    ensures Pow2(m + n) == Pow2(m) * Pow2(n)
  {
    if m > 0 {
      Pow2Adds(m - 1, n);
      assert Pow2(m + n) == 2 * Pow2(m - 1 + n);
      assert 2 * (Pow2(m - 1) * Pow2(n)) == (2 * Pow2(m - 1)) * Pow2(n);
    }
  }

  lemma SameOrder(a: int, b: int, c: int)
    requires c > 0
    ensures a * c < b * c <==> a < b
  {
    if a < b {
      assert b * c == a * c + (b - a) * c;
    } else {
      assert a * c == b * c + (a - b) * c;
    }
  }

  lemma QuotientBound(k: int, c: int, span: int)
    requires 0 <= k && c > 0 && k * c <= span
    ensures k <= span / c
  {
    var q := span / c;
    assert (q + 1) * c == q * c + c > span;
    SameOrder(k, q + 1, c);
  }

  lemma QuotientGrows(a: int, b: int, c: int)
    requires 0 <= a <= b && c > 0
    ensures a / c <= b / c
  {
    QuotientBound(a / c, c, b);
  }
}
