/** Powers of two and division by a variable, shared by the transforms and the checksum. */
module Arithmetic {

  function Pow2(n: nat): (p: nat)
    ensures p >= 1
  {
    if n == 0 then 1 else 2 * Pow2(n - 1)
  }

  lemma Quotient(n: nat, d: nat)
    requires d > 0
    ensures n / d >= 0 && n == d * (n / d) + n % d && d * (n / d) >= 0
  {
  }

  lemma {:induction false} Pow2Adds(a: nat, b: nat)
    ensures Pow2(a + b) == Pow2(a) * Pow2(b)
  {
    if b > 0 {
      Pow2Adds(a, b - 1);
      assert Pow2(a + b) == 2 * Pow2(a + b - 1) && Pow2(b) == 2 * Pow2(b - 1);
      hide Pow2;
      assert Pow2(a) * (2 * Pow2(b - 1)) == 2 * (Pow2(a) * Pow2(b - 1));
    }
  }

  lemma MultipleHasNoRemainder(a: nat, b: nat)
    requires b > 0
    ensures (a * b) % b == 0
  {
    assert a * b == b * a + 0;
    DivisionIsUnique(a * b, b, a, 0);
  }

  lemma ProductGrows(d: nat, low: nat, high: nat)
    requires low < high
    ensures d * low + d <= d * high
  {
    var gap := high - low - 1;
    assert high == low + 1 + gap;
    assert d * high == d * low + d + d * gap;
    assert d * gap >= 0;
  }

  lemma DivisionIsUnique(n: nat, d: nat, q: nat, r: nat)
    requires d > 0 && r < d && n == d * q + r
    ensures n / d == q && n % d == r
  {
    var q' := n / d;
    if q < q' {
      ProductGrows(d, q, q');
    } else if q' < q {
      ProductGrows(d, q', q);
    }
  }

  lemma {:induction false} Pow2Doubles(s: nat, m: nat)
    requires s < m
    ensures 2 * Pow2(s) <= Pow2(m)
    decreases m - s
  {
    if s + 1 < m {
      Pow2Doubles(s + 1, m);
    }
  }
}
