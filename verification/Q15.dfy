/** The fixed-point transform model of tools/fft_precision_report.py: sixteen-bit saturating
    butterflies with one bit of scaling per stage. */
module Q15 {
  import opened Complexes
  import opened Norms

  datatype Point = Point(re: int, im: int)

  function SaturateQ15(value: int): int {
    if value > 32767 then 32767 else if value < -32768 then -32768 else value
  }

  /** The source shifts right by 15, which rounds toward minus infinity. */
  function ShiftRight15(value: int): int {
    value / 32768
  }

  function MultiplyQ15(left: int, right: int): int {
    SaturateQ15(ShiftRight15(left * right))
  }

  function Twiddled(w: Point, odd: Point): Point {
    Point(MultiplyQ15(w.re, odd.re) - MultiplyQ15(w.im, odd.im),
          MultiplyQ15(w.re, odd.im) + MultiplyQ15(w.im, odd.re))
  }

  function Clamped(z: Point): Point {
    Point(SaturateQ15(z.re), SaturateQ15(z.im))
  }

  /** One butterfly's outputs before the final clamp; the shift by one floors. */
  function RawUpper(even: Point, odd: Point, w: Point): Point {
    var t := Twiddled(w, odd);
    Point((even.re + t.re) / 2, (even.im + t.im) / 2)
  }

  function RawLower(even: Point, odd: Point, w: Point): Point {
    var t := Twiddled(w, odd);
    Point((even.re - t.re) / 2, (even.im - t.im) / 2)
  }

  function Upper(even: Point, odd: Point, w: Point): Point {
    Clamped(RawUpper(even, odd, w))
  }

  function Lower(even: Point, odd: Point, w: Point): Point {
    Clamped(RawLower(even, odd, w))
  }

  function ToComplex(z: Point): Complex {
    Complex(z.re as real, z.im as real)
  }

  predicate InRange(v: int) {
    -32768 <= v <= 32767
  }

  predicate WindowBound(v: int) {
    -32767 <= v <= 32767
  }

  lemma CastMultiplies(a: int, b: int)
    ensures (a * b) as real == (a as real) * (b as real)
  {
  }

  lemma NonNegativeProduct(a: int, b: int)
    requires a >= 0 && b >= 0
    ensures a * b >= 0
  {
  }

  lemma ProductMagnitude(a: int, b: int, c: int, d: int)
    requires -c <= a <= c && -d <= b <= d
    ensures -(c * d) <= a * b <= c * d
  {
    NonNegativeProduct(c - a, d + b);
    NonNegativeProduct(c + a, d - b);
    NonNegativeProduct(c - a, d - b);
    NonNegativeProduct(c + a, d + b);
    assert (c - a) * (d + b) == c * d + c * b - a * d - a * b;
    assert (c + a) * (d - b) == c * d - c * b + a * d - a * b;
    assert (c - a) * (d - b) == c * d - c * b - a * d + a * b;
    assert (c + a) * (d + b) == c * d + c * b + a * d + a * b;
  }

  /** multiply_q15 never saturates when one factor avoids -32768. */
  lemma MultiplyNeverSaturates(left: int, right: int)
    requires WindowBound(left) && InRange(right)
    ensures WindowBound(ShiftRight15(left * right))
    ensures MultiplyQ15(left, right) == ShiftRight15(left * right)
  {
    ProductMagnitude(left, right, 32767, 32768);
  }

  /** Saturation keeps 16-bit values, and takes every other to the nearest one. */
  lemma SaturationIsNearest(value: int, other: int)
    requires InRange(other)
    ensures InRange(SaturateQ15(value)) && (InRange(value) ==> SaturateQ15(value) == value)
    ensures value > other ==> value - SaturateQ15(value) <= value - other && SaturateQ15(value) <= value
    ensures value < other ==> SaturateQ15(value) - value <= other - value && value <= SaturateQ15(value)
  {
  }

  /** The integers a butterfly computes, for all inputs: each product is rounded down to a multiple of
      2^15 before the clamp, and each half is rounded down. */
  lemma ButterflyRoundsDown(even: Point, odd: Point, w: Point)
    ensures var t, u, l := Twiddled(w, odd), RawUpper(even, odd, w), RawLower(even, odd, w);
            && 2 * u.re <= even.re + t.re < 2 * u.re + 2 && 2 * u.im <= even.im + t.im < 2 * u.im + 2
            && 2 * l.re <= even.re - t.re < 2 * l.re + 2 && 2 * l.im <= even.im - t.im < 2 * l.im + 2
            && t == Point(MultiplyQ15(w.re, odd.re) - MultiplyQ15(w.im, odd.im),
                          MultiplyQ15(w.re, odd.im) + MultiplyQ15(w.im, odd.re))
            && Upper(even, odd, w) == Point(SaturateQ15(u.re), SaturateQ15(u.im))
            && Lower(even, odd, w) == Point(SaturateQ15(l.re), SaturateQ15(l.im))
  {
  }

  lemma ProductRoundsDown(left: int, right: int, p: int)
    requires 32768 * p <= left * right < 32768 * (p + 1)
    ensures MultiplyQ15(left, right) == SaturateQ15(p)
  {
  }

  /** What rounding adds to one output of a butterfly, measured before the halving of its inputs. */
  lemma ShiftError(v: int)
    ensures v as real - 32768.0 < 32768.0 * (ShiftRight15(v) as real) <= v as real
  {
  }

  lemma HalfError(v: int)
    ensures v as real - 1.0 <= 2.0 * ((v / 2) as real) <= v as real
  {
  }

  /** w * odd / 32768 in exact arithmetic. */
  function ExactTwiddled(w: Point, odd: Point): Complex {
    Scale(1.0 / 32768.0, Mul(ToComplex(w), ToComplex(odd)))
  }

  /** A truncated product is less than one unit below the exact one. */
  lemma ProductError(w: int, v: int)
    requires WindowBound(w) && InRange(v)
    ensures var exact := (w as real) * (v as real) / 32768.0;
            exact - 1.0 <= MultiplyQ15(w, v) as real <= exact
  {
    MultiplyNeverSaturates(w, v);
    hide MultiplyQ15, ShiftRight15;
    ShiftError(w * v);
    CastMultiplies(w, v);
  }

  /** The truncated products: the real part is off by at most one unit either way, the imaginary part by at
      most two units downwards. */
  lemma TwiddledError(w: Point, odd: Point)
    requires WindowBound(w.re) && WindowBound(w.im) && InRange(odd.re) && InRange(odd.im)
    ensures var t, x := Twiddled(w, odd), ExactTwiddled(w, odd);
            -1.0 <= t.re as real - x.re <= 1.0 && -2.0 <= t.im as real - x.im <= 0.0
  {
    hide MultiplyQ15;
    ProductError(w.re, odd.re);
    ProductError(w.im, odd.im);
    ProductError(w.re, odd.im);
    ProductError(w.im, odd.re);
  }

  /** What all truncations of one butterfly can add to an output's modulus: less than two units. */
  const ROUNDING := 1.9

  /** The truncations of one butterfly move each output by less than two units. */
  lemma RoundingError(even: Point, odd: Point, w: Point)
    requires WindowBound(w.re) && WindowBound(w.im) && InRange(odd.re) && InRange(odd.im)
    ensures Within(Sub(ToComplex(RawUpper(even, odd, w)),
                       Scale(0.5, Add(ToComplex(even), ExactTwiddled(w, odd)))), ROUNDING)
    ensures Within(Sub(ToComplex(RawLower(even, odd, w)),
                       Scale(0.5, Sub(ToComplex(even), ExactTwiddled(w, odd)))), ROUNDING)
  {
    TwiddledError(w, odd);
    hide Twiddled, ExactTwiddled, Within;
    var t, x := Twiddled(w, odd), ExactTwiddled(w, odd);
    HalfError(even.re + t.re);
    HalfError(even.im + t.im);
    HalfError(even.re - t.re);
    HalfError(even.im - t.im);
    SmallParts(Sub(ToComplex(RawUpper(even, odd, w)), Scale(0.5, Add(ToComplex(even), x))));
    SmallParts(Sub(ToComplex(RawLower(even, odd, w)), Scale(0.5, Sub(ToComplex(even), x))));
  }

  lemma SmallParts(z: Complex)
    requires -1.0 <= z.re <= 1.0 && -1.5 <= z.im <= 1.5
    ensures Within(z, ROUNDING)
  {
    SquareBound(z.re, 1.0);
    SquareBound(z.im, 1.5);
  }

  /** All that is asked of a twiddle for the clamps not to act. */
  ghost predicate Bounded(w: Point) {
    WindowBound(w.re) && WindowBound(w.im) && Within(ToComplex(w), 32768.0)
  }

  /** A table entry rounded from the exact twiddle: within two units of 32768 times it. */
  ghost predicate EntryOk(w: Point, exact: Complex) {
    && Bounded(w)
    && Within(Sub(ToComplex(w), Scale(32768.0, exact)), 2.0)
  }

  ghost predicate TwiddleOk(w: Point, exact: Complex) {
    EntryOk(w, exact) && Within(exact, 1.0)
  }

  lemma ExactTwiddledWithin(w: Point, odd: Point, bound: real)
    requires Bounded(w) && Within(ToComplex(odd), bound)
    ensures Within(ExactTwiddled(w, odd), bound)
  {
    ProductWithin(ToComplex(w), ToComplex(odd), 32768.0, bound);
    ScaledWithin(1.0 / 32768.0, Mul(ToComplex(w), ToComplex(odd)), 32768.0 * bound);
    assert 1.0 / 32768.0 * (32768.0 * bound) == bound;
  }

  lemma PartsInRange(z: Point, bound: real)
    requires Within(ToComplex(z), bound) && bound <= 32767.0
    ensures WindowBound(z.re) && WindowBound(z.im)
  {
    PartsWithin(ToComplex(z), bound);
  }

  /** Sum of an exact half-scaled pair and a rounding error. */
  lemma Recompose(z: Complex, pair: Complex)
    ensures z == Add(Scale(0.5, pair), Sub(z, Scale(0.5, pair)))
  {
  }

  lemma HalvedPairWithin(a: Complex, b: Complex, bound: real)
    requires Within(a, bound) && Within(b, bound)
    ensures Within(Scale(0.5, Add(a, b)), bound) && Within(Scale(0.5, Sub(a, b)), bound)
  {
    SumWithin(a, b, bound, bound);
    ScaledWithin(0.5, Add(a, b), bound + bound);
    NegatedWithin(b, bound);
    SumWithin(a, Sub(ZERO, b), bound, bound);
    assert Add(a, Sub(ZERO, b)) == Sub(a, b);
    ScaledWithin(0.5, Sub(a, b), bound + bound);
  }

  /** Whatever the twiddle, within its bounds: one stage lets the modulus grow by less than two units, and
      with two units of headroom its clamps never act. */
  lemma ModulusGrowth(even: Point, odd: Point, w: Point, bound: real)
    requires Bounded(w) && bound <= 32765.0
    requires Within(ToComplex(even), bound) && Within(ToComplex(odd), bound)
    ensures Upper(even, odd, w) == RawUpper(even, odd, w) && Lower(even, odd, w) == RawLower(even, odd, w)
    ensures Within(ToComplex(Upper(even, odd, w)), bound + ROUNDING)
    ensures Within(ToComplex(Lower(even, odd, w)), bound + ROUNDING)
  {
    hide Within, RawUpper, RawLower, Scale, Add, Sub, ExactTwiddled, ToComplex;
    PartsInRange(odd, bound);
    RoundingError(even, odd, w);
    ExactTwiddledWithin(w, odd, bound);
    var e, x := ToComplex(even), ExactTwiddled(w, odd);
    HalvedPairWithin(e, x, bound);
    var u, l := RawUpper(even, odd, w), RawLower(even, odd, w);
    Recompose(ToComplex(u), Add(e, x));
    Recompose(ToComplex(l), Sub(e, x));
    SumWithin(Scale(0.5, Add(e, x)), Sub(ToComplex(u), Scale(0.5, Add(e, x))), bound, ROUNDING);
    SumWithin(Scale(0.5, Sub(e, x)), Sub(ToComplex(l), Scale(0.5, Sub(e, x))), bound, ROUNDING);
    PartsInRange(u, bound + ROUNDING);
    PartsInRange(l, bound + ROUNDING);
  }

  /** How far w * odd / 32768 is from c * exact * O when odd tracks c * O. */
  lemma TwiddleErrorSplits(w: Point, odd: Point, exact: Complex, bigO: Complex, c: real)
    ensures Sub(ExactTwiddled(w, odd), Scale(c, Mul(exact, bigO)))
         == Add(Mul(exact, Sub(ToComplex(odd), Scale(c, bigO))),
                Scale(1.0 / 32768.0, Mul(Sub(ToComplex(w), Scale(32768.0, exact)), ToComplex(odd))))
  {
    var o, v := ToComplex(odd), ToComplex(w);
    MulSubDistributes(exact, o, Scale(c, bigO));
    ScaleMovesOut(c, exact, bigO);
    MulCommutes(Sub(v, Scale(32768.0, exact)), o);
    MulSubDistributes(o, v, Scale(32768.0, exact));
    ScaleMovesOut(32768.0, o, exact);
    MulCommutes(o, v);
    MulCommutes(o, exact);
    assert Scale(1.0 / 32768.0, Sub(Mul(v, o), Scale(32768.0, Mul(exact, o))))
        == Sub(Scale(1.0 / 32768.0, Mul(v, o)), Mul(exact, o));
  }

  lemma MulSubDistributes(a: Complex, b: Complex, c: Complex)
    ensures Mul(a, Sub(b, c)) == Sub(Mul(a, b), Mul(a, c))
  {
  }

  lemma ScaleMovesOut(c: real, a: Complex, b: Complex)
    ensures Mul(a, Scale(c, b)) == Scale(c, Mul(a, b))
  {
  }

  lemma TwiddleError(w: Point, odd: Point, exact: Complex, bound: real, bigO: Complex, c: real, err: real)
    requires TwiddleOk(w, exact) && bound <= 32765.0
    requires Within(ToComplex(odd), bound) && Within(Sub(ToComplex(odd), Scale(c, bigO)), err)
    ensures Within(Sub(ExactTwiddled(w, odd), Scale(c, Mul(exact, bigO))), err + 2.0)
  {
    hide Scale, Add, Sub, Mul, ExactTwiddled, ToComplex;
    var gap := Sub(ToComplex(w), Scale(32768.0, exact));
    TwiddleErrorSplits(w, odd, exact, bigO, c);
    ProductWithin(exact, Sub(ToComplex(odd), Scale(c, bigO)), 1.0, err);
    ProductWithin(gap, ToComplex(odd), 2.0, bound);
    ScaledWithin(1.0 / 32768.0, Mul(gap, ToComplex(odd)), 2.0 * bound);
    WiderWithin(Scale(1.0 / 32768.0, Mul(gap, ToComplex(odd))), 1.0 / 32768.0 * (2.0 * bound), 2.0);
    SumWithin(Mul(exact, Sub(ToComplex(odd), Scale(c, bigO))),
              Scale(1.0 / 32768.0, Mul(gap, ToComplex(odd))), 1.0 * err, 2.0);
  }

  lemma ErrorSplits(z: Complex, e: Complex, x: Complex, bigE: Complex, bigT: Complex, c: real)
    ensures Sub(z, Scale(c / 2.0, Add(bigE, bigT)))
         == Add(Sub(z, Scale(0.5, Add(e, x))),
                Scale(0.5, Add(Sub(e, Scale(c, bigE)), Sub(x, Scale(c, bigT)))))
    ensures Sub(z, Scale(c / 2.0, Sub(bigE, bigT)))
         == Add(Sub(z, Scale(0.5, Sub(e, x))),
                Scale(0.5, Sub(Sub(e, Scale(c, bigE)), Sub(x, Scale(c, bigT)))))
  {
  }

  lemma MixedPairWithin(a: Complex, b: Complex, err: real)
    requires Within(a, err) && Within(b, err + 2.0)
    ensures Within(Scale(0.5, Add(a, b)), err + 1.0) && Within(Scale(0.5, Sub(a, b)), err + 1.0)
  {
    hide Within, Scale;
    SumWithin(a, b, err, err + 2.0);
    ScaledWithin(0.5, Add(a, b), err + (err + 2.0));
    NegatedWithin(b, err + 2.0);
    SumWithin(a, Sub(ZERO, b), err, err + 2.0);
    assert Add(a, Sub(ZERO, b)) == Sub(a, b);
    ScaledWithin(0.5, Sub(a, b), err + (err + 2.0));
  }

  /** If a butterfly's inputs track c times exact values within err, its outputs track c / 2 times
      the exact butterfly within err + 3. */
  lemma ErrorGrowth(even: Point, odd: Point, w: Point, exact: Complex, bound: real,
                    bigE: Complex, bigO: Complex, c: real, err: real)
    requires TwiddleOk(w, exact) && bound <= 32765.0
    requires Within(ToComplex(even), bound) && Within(ToComplex(odd), bound)
    requires Within(Sub(ToComplex(even), Scale(c, bigE)), err)
    requires Within(Sub(ToComplex(odd), Scale(c, bigO)), err)
    ensures Within(Sub(ToComplex(Upper(even, odd, w)), Scale(c / 2.0, Add(bigE, Mul(exact, bigO)))), err + 3.0)
    ensures Within(Sub(ToComplex(Lower(even, odd, w)), Scale(c / 2.0, Sub(bigE, Mul(exact, bigO)))), err + 3.0)
  {
    hide Within, RawUpper, RawLower, Upper, Lower, Scale, Add, Sub, Mul, ExactTwiddled, ToComplex;
    ModulusGrowth(even, odd, w, bound);
    PartsInRange(odd, bound);
    RoundingError(even, odd, w);
    TwiddleError(w, odd, exact, bound, bigO, c, err);
    var e, x, t := ToComplex(even), ExactTwiddled(w, odd), Mul(exact, bigO);
    var u, l := ToComplex(Upper(even, odd, w)), ToComplex(Lower(even, odd, w));
    ErrorSplits(u, e, x, bigE, t, c);
    ErrorSplits(l, e, x, bigE, t, c);
    var a, b := Sub(e, Scale(c, bigE)), Sub(x, Scale(c, t));
    MixedPairWithin(a, b, err);
    WiderWithin(Sub(u, Scale(0.5, Add(e, x))), ROUNDING, 2.0);
    WiderWithin(Sub(l, Scale(0.5, Sub(e, x))), ROUNDING, 2.0);
    SumWithin(Sub(u, Scale(0.5, Add(e, x))), Scale(0.5, Add(a, b)), 2.0, err + 1.0);
    SumWithin(Sub(l, Scale(0.5, Sub(e, x))), Scale(0.5, Sub(a, b)), 2.0, err + 1.0);
  }
}
