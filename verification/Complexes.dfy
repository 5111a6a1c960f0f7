/** Exact complex arithmetic: the ring in which the transform of core/spectrum.c is stated. */
module Complexes {

  datatype Complex = Complex(re: real, im: real)

  const ZERO := Complex(0.0, 0.0)
  const ONE := Complex(1.0, 0.0)
  const MINUS_ONE := Complex(-1.0, 0.0)

  function Add(a: Complex, b: Complex): Complex {
    Complex(a.re + b.re, a.im + b.im)
  }

  function Sub(a: Complex, b: Complex): Complex {
    Complex(a.re - b.re, a.im - b.im)
  }

  function Mul(a: Complex, b: Complex): Complex {
    Complex(a.re * b.re - a.im * b.im, a.re * b.im + a.im * b.re)
  }

  lemma MulCommutes(a: Complex, b: Complex)
    ensures Mul(a, b) == Mul(b, a)
  {
  }

  lemma MulAssociates(a: Complex, b: Complex, c: Complex)
    ensures Mul(Mul(a, b), c) == Mul(a, Mul(b, c))
  {
  }

  lemma MulDistributes(a: Complex, b: Complex, c: Complex)
    ensures Mul(a, Add(b, c)) == Add(Mul(a, b), Mul(a, c))
  {
  }

  lemma MulUnits(a: Complex)
    ensures Mul(ONE, a) == a && Mul(a, ONE) == a
    ensures Mul(MINUS_ONE, a) == Sub(ZERO, a)
  {
  }

  function Pow(a: Complex, n: nat): Complex {
    if n == 0 then ONE else Mul(Pow(a, n - 1), a)
  }

  lemma {:induction false} PowAdds(a: Complex, m: nat, n: nat)
    ensures Pow(a, m + n) == Mul(Pow(a, m), Pow(a, n))
  {
    if n == 0 {
      MulUnits(Pow(a, m));
    } else {
      PowAdds(a, m, n - 1);
      MulAssociates(Pow(a, m), Pow(a, n - 1), a);
    }
  }

  lemma {:induction false} PowMultiplies(a: Complex, m: nat, n: nat)
    ensures Pow(a, m * n) == Pow(Pow(a, m), n)
  {
    if n == 0 {
    } else {
      assert m * n == m * (n - 1) + m;
      PowAdds(a, m * (n - 1), m);
      PowMultiplies(a, m, n - 1);
    }
  }

  lemma {:induction false} PowOfOne(one: Complex, n: nat)
    requires one == ONE
    ensures Pow(one, n) == ONE
  {
    hide Mul;
    if n > 0 {
      PowOfOne(one, n - 1);
      MulUnits(one);
    }
  }
}
