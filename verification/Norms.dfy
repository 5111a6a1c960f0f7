/** Bounds on the modulus of exact complex numbers, without square roots. */
module Norms {
  import opened Complexes

  ghost predicate Within(z: Complex, r: real) {
    r >= 0.0 && z.re * z.re + z.im * z.im <= r * r
  }

  function Scale(c: real, z: Complex): Complex {
    Complex(c * z.re, c * z.im)
  }

  lemma SquaresGrow(small: real, large: real)
    requires 0.0 <= small < large
    ensures small * small < large * large
  {
    var x, y, z := small * small, small * large, large * large;
    assert x <= y;
    assert y < z;
  }

  lemma SquaresOrder(a: real, b: real)
    requires a >= 0.0 && b >= 0.0
    ensures a * a <= b * b <==> a <= b
  {
    if a < b {
      SquaresGrow(a, b);
    } else if b < a {
      SquaresGrow(b, a);
    }
  }

  lemma SquareBound(v: real, b: real)
    requires -b <= v <= b
    ensures v * v <= b * b
  {
    SquaresOrder(if v >= 0.0 then v else -v, b);
  }

  lemma Lagrange(a: real, b: real, c: real, d: real)
    ensures (a * c + b * d) * (a * c + b * d) <= (a * a + b * b) * (c * c + d * d)
  {
    var cross := a * d - b * c;
    assert cross * cross >= 0.0;
    assert (a * a + b * b) * (c * c + d * d) == (a * c + b * d) * (a * c + b * d) + cross * cross;
  }

  lemma ProductsOrder(a: real, b: real, c: real, d: real)
    requires 0.0 <= a <= c && 0.0 <= b <= d
    ensures a * b <= c * d
  {
    assert a * b <= c * b <= c * d;
  }

  lemma DotBound(a: Complex, b: Complex, r: real, t: real)
    requires Within(a, r) && Within(b, t)
    ensures a.re * b.re + a.im * b.im <= r * t
  {
    var dot := a.re * b.re + a.im * b.im;
    Lagrange(a.re, a.im, b.re, b.im);
    ProductsOrder(a.re * a.re + a.im * a.im, b.re * b.re + b.im * b.im, r * r, t * t);
    assert r * r * (t * t) == (r * t) * (r * t);
    assert r * t >= 0.0;
    if dot > 0.0 {
      SquaresOrder(dot, r * t);
    }
  }

  /** The triangle inequality. */
  lemma SumWithin(a: Complex, b: Complex, r: real, t: real)
    requires Within(a, r) && Within(b, t)
    ensures Within(Add(a, b), r + t)
  {
    DotBound(a, b, r, t);
    var s := Add(a, b);
    assert s.re * s.re + s.im * s.im
        == (a.re * a.re + a.im * a.im) + (b.re * b.re + b.im * b.im) + 2.0 * (a.re * b.re + a.im * b.im);
    assert (r + t) * (r + t) == r * r + t * t + 2.0 * (r * t);
  }

  /** The modulus of a product is the product of the moduli. */
  lemma ProductWithin(a: Complex, b: Complex, r: real, t: real)
    requires Within(a, r) && Within(b, t)
    ensures Within(Mul(a, b), r * t)
  {
    ModulusMultiplies(a, b);
    ProductsOrder(a.re * a.re + a.im * a.im, b.re * b.re + b.im * b.im, r * r, t * t);
    assert r * r * (t * t) == (r * t) * (r * t);
    assert r * t >= 0.0;
  }

  lemma ModulusMultiplies(a: Complex, b: Complex)
    ensures var p := Mul(a, b);
            p.re * p.re + p.im * p.im == (a.re * a.re + a.im * a.im) * (b.re * b.re + b.im * b.im)
  {
    var x, y, u, v := a.re * b.re, a.im * b.im, a.re * b.im, a.im * b.re;
    assert x * y == u * v;
    assert (x - y) * (x - y) == x * x + y * y - 2.0 * (x * y);
    assert (u + v) * (u + v) == u * u + v * v + 2.0 * (u * v);
    assert x * x == (a.re * a.re) * (b.re * b.re);
    assert y * y == (a.im * a.im) * (b.im * b.im);
    assert u * u == (a.re * a.re) * (b.im * b.im);
    assert v * v == (a.im * a.im) * (b.re * b.re);
  }

  lemma ScaledWithin(c: real, z: Complex, r: real)
    requires Within(z, r) && c >= 0.0
    ensures Within(Scale(c, z), c * r)
  {
    var n := z.re * z.re + z.im * z.im;
    assert (c * z.re) * (c * z.re) + (c * z.im) * (c * z.im) == (c * c) * n;
    assert c * c >= 0.0;
    assert (c * c) * n <= (c * c) * (r * r);
    assert (c * c) * (r * r) == (c * r) * (c * r);
    assert c * r >= 0.0;
  }

  lemma NegatedWithin(z: Complex, r: real)
    requires Within(z, r)
    ensures Within(Sub(ZERO, z), r)
  {
  }

  lemma PartsWithin(z: Complex, r: real)
    requires Within(z, r)
    ensures -r <= z.re <= r && -r <= z.im <= r
  {
    var x, y := if z.re >= 0.0 then z.re else -z.re, if z.im >= 0.0 then z.im else -z.im;
    assert x * x == z.re * z.re && y * y == z.im * z.im;
    SquaresOrder(x, r);
    SquaresOrder(y, r);
  }

  lemma WiderWithin(z: Complex, r: real, t: real)
    requires Within(z, r) && r <= t
    ensures Within(z, t)
  {
    SquaresOrder(r, t);
  }
}
