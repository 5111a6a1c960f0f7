/** Whole runs of the fixed-point transform, against the exact transform. */
module Q15Fft {
  import opened Complexes
  import opened Norms
  import opened Arithmetic
  import opened BitReversal
  import opened Q15
  import Fft

  function ButterflyAt(a: seq<Point>, half: nat, table: seq<Point>, clamp: bool, p: nat): Point
    requires half > 0 && |table| == half && p < |a| && |a| % (2 * half) == 0
  {
    var q := p % (2 * half);
    Fft.PartnerInRange(|a|, half, p);
    if q < half then
      if clamp then Upper(a[p], a[p + half], table[q]) else RawUpper(a[p], a[p + half], table[q])
    else
    if clamp then Lower(a[p - half], a[p], table[q - half]) else RawLower(a[p - half], a[p], table[q - half])
  }

  function StageResult(a: seq<Point>, half: nat, table: seq<Point>, clamp: bool): (r: seq<Point>)
    requires half > 0 && |table| == half && |a| % (2 * half) == 0
    ensures |r| == |a|
    ensures forall p :: 0 <= p < |r| ==> r[p] == ButterflyAt(a, half, table, clamp, p)
  {
    seq(|a|, (p: nat) requires p < |a| => ButterflyAt(a, half, table, clamp, p))
  }

  /** tables[s] holds the twiddles of the stage of length 2^s. */
  predicate TableShapes(m: nat, tables: seq<seq<Point>>) {
    |tables| == m + 1 && forall s :: 1 <= s <= m ==> |tables[s]| == Pow2(s - 1)
  }

  /** The first s stages, with or without the saturating clamps. */
  function Run(m: nat, a: seq<Point>, tables: seq<seq<Point>>, clamp: bool, s: nat): (r: seq<Point>)
    requires TableShapes(m, tables) && |a| == Pow2(m) && s <= m
    ensures |r| == |a|
  {
    if s == 0 then Permuted(m, a)
    else
      Fft.Pow2Divides(m, s);
      StageResult(Run(m, a, tables, clamp, s - 1), Pow2(s - 1), tables[s], clamp)
  }

  /** Every table entry is within two units of 32768 times the exact twiddle. */
  ghost predicate TablesOk(m: nat, tables: seq<seq<Point>>, steps: seq<Complex>) {
    && TableShapes(m, tables) && |steps| == m + 1
    && forall s, q :: 1 <= s <= m && 0 <= q < |tables[s]| ==> EntryOk(tables[s][q], Pow(steps[s], q))
  }

  function ModulusSquared(z: Complex): real {
    z.re * z.re + z.im * z.im
  }

  lemma UnitSquareRoot(z: Complex)
    requires ModulusSquared(Mul(z, z)) == 1.0
    ensures ModulusSquared(z) == 1.0
  {
    var n := ModulusSquared(z);
    ModulusMultiplies(z, z);
    assert n * n == 1.0 && n >= 0.0;
    if n < 1.0 {
      SquaresGrow(n, 1.0);
    } else if n > 1.0 {
      SquaresGrow(1.0, n);
    }
  }

  /** The steps of a root tower, and their powers, lie on the unit circle. */
  lemma {:induction false} StepsAreUnits(m: nat, steps: seq<Complex>, s: nat)
    requires Fft.RootTower(m, steps) && 1 <= s <= m
    ensures ModulusSquared(steps[s]) == 1.0
  {
    if s > 1 {
      StepsAreUnits(m, steps, s - 1);
      assert Mul(steps[s], steps[s]) == steps[s - 1] by {
        assert s == (s - 1) + 1;
      }
      UnitSquareRoot(steps[s]);
    }
  }

  lemma {:induction false} PowersAreUnits(z: Complex, n: nat)
    requires ModulusSquared(z) == 1.0
    ensures ModulusSquared(Pow(z, n)) == 1.0 && Within(Pow(z, n), 1.0)
  {
    if n > 0 {
      PowersAreUnits(z, n - 1);
      ModulusMultiplies(Pow(z, n - 1), z);
    }
  }

  ghost predicate Close(z: Point, exact: Complex, c: real, bound: real, err: real) {
    Within(ToComplex(z), bound) && Within(Sub(ToComplex(z), Scale(c, exact)), err)
  }

  ghost predicate Tracks(a: seq<Point>, exact: seq<Complex>, c: real, bound: real, err: real) {
    |a| == |exact| && forall p :: 0 <= p < |a| ==> Close(a[p], exact[p], c, bound, err)
  }

  lemma StageTracks(a: seq<Point>, exact: seq<Complex>, half: nat, table: seq<Point>, step: Complex,
                    c: real, bound: real, err: real)
    requires half > 0 && |table| == half && |a| % (2 * half) == 0
    requires forall q :: 0 <= q < half ==> TwiddleOk(table[q], Pow(step, q))
    requires Tracks(a, exact, c, bound, err) && bound <= 32765.0
    ensures Tracks(StageResult(a, half, table, true), Fft.StageResult(exact, half, step),
                   c / 2.0, bound + 2.0, err + 3.0)
    ensures StageResult(a, half, table, true) == StageResult(a, half, table, false)
  {
    var b, d := StageResult(a, half, table, true), Fft.StageResult(exact, half, step);
    forall p | 0 <= p < |b|
      ensures Close(b[p], d[p], c / 2.0, bound + 2.0, err + 3.0)
      ensures b[p] == StageResult(a, half, table, false)[p]
    {
      hide TwiddleOk, Within, Scale, Add, Sub, Mul, Pow, ToComplex, Upper, Lower, RawUpper, RawLower, Fft.ButterflyAt;
      var q := p % (2 * half);
      Fft.PartnerInRange(|a|, half, p);
      Fft.ButterflyHalves(exact, half, step, p, q);
      var even, k := if q < half then p else p - half, if q < half then q else q - half;
      assert Close(a[even], exact[even], c, bound, err);
      assert Close(a[even + half], exact[even + half], c, bound, err);
      ModulusGrowth(a[even], a[even + half], table[k], bound);
      WiderWithin(ToComplex(b[p]), bound + ROUNDING, bound + 2.0);
      ErrorGrowth(a[even], a[even + half], table[k], Pow(step, k), bound,
                  exact[even], exact[even + half], c, err);
    }
  }

  /** Every table entry is within its bounds, and nothing else is asked of it. */
  ghost predicate TablesBounded(m: nat, tables: seq<seq<Point>>) {
    && TableShapes(m, tables)
    && forall s, q :: 1 <= s <= m && 0 <= q < |tables[s]| ==> Bounded(tables[s][q])
  }

  ghost predicate AllWithin(a: seq<Point>, bound: real) {
    forall p :: 0 <= p < |a| ==> Within(ToComplex(a[p]), bound)
  }

  lemma StageNeverClamps(a: seq<Point>, half: nat, table: seq<Point>, bound: real)
    requires half > 0 && |table| == half && |a| % (2 * half) == 0
    requires (forall q :: 0 <= q < half ==> Bounded(table[q])) && AllWithin(a, bound) && bound <= 32765.0
    ensures StageResult(a, half, table, true) == StageResult(a, half, table, false)
    ensures AllWithin(StageResult(a, half, table, true), bound + ROUNDING)
  {
    var b := StageResult(a, half, table, true);
    forall p | 0 <= p < |b|
      ensures Within(ToComplex(b[p]), bound + ROUNDING)
      ensures b[p] == StageResult(a, half, table, false)[p]
    {
      hide Bounded, Within, ToComplex, Upper, Lower, RawUpper, RawLower;
      var q := p % (2 * half);
      Fft.PartnerInRange(|a|, half, p);
      var even, k := if q < half then p else p - half, if q < half then q else q - half;
      ModulusGrowth(a[even], a[even + half], table[k], bound);
    }
  }

  lemma PermutedWithin(m: nat, a: seq<Point>, bound: real)
    requires |a| == Pow2(m) && AllWithin(a, bound)
    ensures AllWithin(Permuted(m, a), bound)
  {
  }

  /** No overflow: for any tables within their bounds, and any input that leaves two units of headroom per
      stage, no clamp acts in any stage, and every modulus grows by less than two units per stage. */
  lemma {:induction false} RunNeverClamps(m: nat, a: seq<Point>, tables: seq<seq<Point>>, bound: real, s: nat)
    requires |a| == Pow2(m) && s <= m && TablesBounded(m, tables) && AllWithin(a, bound)
    requires bound + 2.0 * (m as real) <= 32767.0
    ensures Run(m, a, tables, true, s) == Run(m, a, tables, false, s)
    ensures AllWithin(Run(m, a, tables, true, s), bound + ROUNDING * (s as real))
  {
    hide Bounded, AllWithin, StageResult;
    if s == 0 {
      PermutedWithin(m, a, bound);
      assert bound + ROUNDING * (s as real) == bound;
    } else {
      RunNeverClamps(m, a, tables, bound, s - 1);
      Fft.Pow2Divides(m, s);
      var before := bound + ROUNDING * ((s - 1) as real);
      assert before + ROUNDING == bound + ROUNDING * (s as real);
      StageNeverClamps(Run(m, a, tables, true, s - 1), Pow2(s - 1), tables[s], before);
    }
  }

  lemma TwiddleFromEntry(w: Point, exact: Complex)
    requires EntryOk(w, exact) && Within(exact, 1.0)
    ensures TwiddleOk(w, exact)
  {
  }

  function ToComplexes(a: seq<Point>): (r: seq<Complex>)
    ensures |r| == |a| && forall p :: 0 <= p < |r| ==> r[p] == ToComplex(a[p])
  {
    seq(|a|, (p: nat) requires p < |a| => ToComplex(a[p]))
  }

  /** 1 / 2^s. */
  function Shrink(s: nat): real {
    if s == 0 then 1.0 else Shrink(s - 1) / 2.0
  }

  lemma {:induction false} ShrinkIsInverse(s: nat)
    ensures Shrink(s) * (Pow2(s) as real) == 1.0 && Shrink(s) == 1.0 / (Pow2(s) as real)
  {
    if s > 0 {
      ShrinkIsInverse(s - 1);
      assert Pow2(s) as real == 2.0 * (Pow2(s - 1) as real);
      assert Shrink(s) == Shrink(s - 1) / 2.0;
    }
  }

  lemma StartTracks(m: nat, a: seq<Point>, bound: real)
    requires |a| == Pow2(m) && forall p :: 0 <= p < |a| ==> Within(ToComplex(a[p]), bound)
    ensures Tracks(Permuted(m, a), Permuted(m, ToComplexes(a)), 1.0, bound, 0.0)
  {
    var b, d := Permuted(m, a), Permuted(m, ToComplexes(a));
    forall p | 0 <= p < |b|
      ensures Close(b[p], d[p], 1.0, bound, 0.0)
    {
    }
  }

  /** After s stages the fixed-point values stay within `bound` + 2s, no clamp has acted, and they
      track the exact partial transform divided by 2^s to within 3s units. */
  lemma {:induction false} RunTracks(m: nat, a: seq<Point>, tables: seq<seq<Point>>, steps: seq<Complex>,
                                     bound: real, s: nat) returns (exact: seq<Complex>)
    requires |a| == Pow2(m) && s <= m && Fft.RootTower(m, steps) && TablesOk(m, tables, steps)
    requires forall p :: 0 <= p < |a| ==> Within(ToComplex(a[p]), bound)
    requires bound + 2.0 * (m as real) <= 32767.0
    ensures Fft.StageDone(ToComplexes(a), exact, m, s, steps[m])
    ensures Tracks(Run(m, a, tables, true, s), exact, Shrink(s), bound + 2.0 * (s as real), 3.0 * (s as real))
    ensures Run(m, a, tables, true, s) == Run(m, a, tables, false, s)
  {
    hide EntryOk, TwiddleOk, Within, Pow, Fft.BlockValue, Fft.ButterflyAt, ButterflyAt, Close;
    if s == 0 {
      exact := Permuted(m, ToComplexes(a));
      Fft.StartsReversed(ToComplexes(a), m, steps[m]);
      StartTracks(m, a, bound);
    } else {
      var before := RunTracks(m, a, tables, steps, bound, s - 1);
      Fft.Pow2Divides(m, s);
      Fft.StageAdvances(ToComplexes(a), m, s - 1, steps, before);
      StepsAreUnits(m, steps, s);
      forall q | 0 <= q < Pow2(s - 1)
        ensures TwiddleOk(tables[s][q], Pow(steps[s], q))
      {
        PowersAreUnits(steps[s], q);
        TwiddleFromEntry(tables[s][q], Pow(steps[s], q));
      }
      StageTracks(Run(m, a, tables, true, s - 1), before, Pow2(s - 1), tables[s], steps[s],
                  Shrink(s - 1), bound + 2.0 * ((s - 1) as real), 3.0 * ((s - 1) as real));
      exact := Fft.StageResult(before, Pow2(s - 1), steps[s]);
    }
  }

  /** Accuracy of the whole fixed-point transform: every output is within 3m units of the exact
      transform divided by its length, and the sixteen-bit clamps never act. */
  lemma Q15Accuracy(m: nat, a: seq<Point>, tables: seq<seq<Point>>, steps: seq<Complex>, bound: real, k: nat)
    requires |a| == Pow2(m) && k < |a| && Fft.RootTower(m, steps) && TablesOk(m, tables, steps)
    requires forall p :: 0 <= p < |a| ==> Within(ToComplex(a[p]), bound)
    requires bound + 2.0 * (m as real) <= 32767.0
    ensures var z := ToComplex(Run(m, a, tables, true, m)[k]);
            && Within(Sub(z, Scale(1.0 / (Pow2(m) as real), Fft.Dft(ToComplexes(a), steps[m], k))), 3.0 * (m as real))
            && Within(z, bound + 2.0 * (m as real))
    ensures Run(m, a, tables, true, m) == Run(m, a, tables, false, m)
  {
    hide EntryOk, Within, Fft.BlockValue, Fft.ButterflyAt, ButterflyAt, Run, Fft.Dft;
    ShrinkIsInverse(m);
    var exact := RunTracks(m, a, tables, steps, bound, m);
    Fft.EndsWithDft(ToComplexes(a), exact, m, steps[m]);
    assert Close(Run(m, a, tables, true, m)[k], exact[k], Shrink(m), bound + 2.0 * (m as real), 3.0 * (m as real));
  }

  function Points(re: seq<int>, im: seq<int>): (r: seq<Point>)
    requires |re| == |im|
    ensures |r| == |re| && forall p :: 0 <= p < |r| ==> r[p] == Point(re[p], im[p])
  {
    seq(|re|, (p: nat) requires p < |re| => Point(re[p], im[p]))
  }

  lemma ButterflyHalves(a: seq<Point>, half: nat, table: seq<Point>, p: nat, q: nat)
    requires half > 0 && |table| == half && p < |a| && |a| % (2 * half) == 0 && q == p % (2 * half)
    ensures q < half ==> p + half < |a| && ButterflyAt(a, half, table, true, p) == Upper(a[p], a[p + half], table[q])
    ensures q >= half ==> p >= half && ButterflyAt(a, half, table, true, p) == Lower(a[p - half], a[p], table[q - half])
  {
    hide Upper, Lower;
    Fft.PartnerInRange(|a|, half, p);
  }

  method Stage(re: array<int>, im: array<int>, half: nat, table: seq<Point>)
    requires re != im && re.Length == im.Length
    requires half > 0 && |table| == half && re.Length % (2 * half) == 0
    modifies re, im
    ensures Points(re[..], im[..]) == StageResult(old(Points(re[..], im[..])), half, table, true)
  {
    hide *;
    ghost var a := Points(re[..], im[..]);
    ghost var b := StageResult(a, half, table, true);
    var base := 0;
    ghost var block := 0;
    while base < re.Length
      invariant 0 <= base <= re.Length && base == 2 * half * block
      invariant forall p :: 0 <= p < re.Length ==> Point(re[p], im[p]) == if p < base then b[p] else a[p]
    {
      Fft.NextBlock(re.Length, half, block);
      for offset := 0 to half
        invariant forall p :: 0 <= p < re.Length ==>
                                Point(re[p], im[p]) ==
                                if p < base + offset || base + half <= p < base + half + offset then b[p] else a[p]
      {
        var even := base + offset;
        var odd := even + half;
        Fft.OffsetInBlock(half, block, offset);
        assert Point(re[even], im[even]) == a[even] && Point(re[odd], im[odd]) == a[odd];
        ButterflyHalves(a, half, table, even, offset);
        ButterflyHalves(a, half, table, odd, offset + half);
        ButterflyInPlace(re, im, even, odd, table[offset].re, table[offset].im);
      }
      base := base + 2 * half;
      block := block + 1;
    }
    assert Points(re[..], im[..]) == b;
  }

  method ButterflyInPlace(re: array<int>, im: array<int>, even: nat, odd: nat, wr: int, wi: int)
    requires re != im && even < odd < re.Length == im.Length
    modifies re, im
    ensures Point(re[even], im[even])
         == old(Upper(Point(re[even], im[even]), Point(re[odd], im[odd]), Point(wr, wi)))
    ensures Point(re[odd], im[odd])
         == old(Lower(Point(re[even], im[even]), Point(re[odd], im[odd]), Point(wr, wi)))
    ensures forall p :: 0 <= p < re.Length && p != even && p != odd ==>
                          re[p] == old(re[p]) && im[p] == old(im[p])
  {
    hide MultiplyQ15;
    var tr := MultiplyQ15(wr, re[odd]) - MultiplyQ15(wi, im[odd]);
    var ti := MultiplyQ15(wr, im[odd]) + MultiplyQ15(wi, re[odd]);
    var evenReal, evenImag := re[even], im[even];
    re[even] := SaturateQ15((evenReal + tr) / 2);
    im[even] := SaturateQ15((evenImag + ti) / 2);
    re[odd] := SaturateQ15((evenReal - tr) / 2);
    im[odd] := SaturateQ15((evenImag - ti) / 2);
  }

  /** The windowed input, as real numbers on the complex plane. */
  function Windowed(samples: seq<int>, window: seq<int>): (r: seq<Point>)
    requires |samples| == |window|
    ensures |r| == |samples|
    ensures forall p :: 0 <= p < |r| ==> r[p] == Point(MultiplyQ15(samples[p], window[p]), 0)
  {
    seq(|samples|, (p: nat) requires p < |samples| => Point(MultiplyQ15(samples[p], window[p]), 0))
  }

  lemma RunStarts(m: nat, a: seq<Point>, tables: seq<seq<Point>>)
    requires TableShapes(m, tables) && |a| == Pow2(m)
    ensures Run(m, a, tables, true, 0) == Permuted(m, a)
    ensures 2 == Pow2(1)
  {
  }

  lemma RunAdvances(m: nat, a: seq<Point>, tables: seq<seq<Point>>, s: nat)
    requires TableShapes(m, tables) && |a| == Pow2(m) && s < m
    ensures |a| % (2 * Pow2(s)) == 0 && |tables| == m + 1 && |tables[s + 1]| == Pow2(s)
    ensures Pow2(s + 1) == 2 * Pow2(s) && Pow2(s + 2) == 2 * Pow2(s + 1)
    ensures Run(m, a, tables, true, s + 1) == StageResult(Run(m, a, tables, true, s), Pow2(s), tables[s + 1], true)
  {
    Fft.Pow2Divides(m, s + 1);
  }

  /** The part of q15_fft after windowing: bit reversal and every stage. */
  method TransformInPlace(m: nat, re: array<int>, im: array<int>, tables: seq<seq<Point>>)
    requires re != im && re.Length == im.Length == Pow2(m) && TableShapes(m, tables)
    modifies re, im
    ensures Points(re[..], im[..]) == Run(m, old(Points(re[..], im[..])), tables, true, m)
  {
    hide *;
    ghost var a := Points(re[..], im[..]);
    BitReverse(m, re, im);
    RunStarts(m, a, tables);
    assert Points(re[..], im[..]) == Permuted(m, a);
    var length := 2;
    var s := 0;
    while length <= re.Length
      invariant s <= m && length == Pow2(s + 1)
      invariant Points(re[..], im[..]) == Run(m, a, tables, true, s)
      decreases m - s
    {
      Fft.LengthFits(m, s);
      RunAdvances(m, a, tables, s);
      Stage(re, im, length / 2, tables[s + 1]);
      length := length * 2;
      s := s + 1;
    }
    Fft.LengthFits(m, s);
  }

  /** The windowed samples leave two units of headroom per stage. */
  predicate Headroom(m: nat, samples: seq<int>, window: seq<int>)
    requires |samples| == |window|
  {
    forall i :: 0 <= i < |samples| ==> -32767 + 2 * m <= MultiplyQ15(samples[i], window[i]) <= 32767 - 2 * m
  }

  /** Within 3m units of the exact transform divided by 2^m. */
  ghost predicate Accurate(b: seq<Point>, a: seq<Point>, m: nat, w: Complex) {
    var scale := 1.0 / (Pow2(m) as real);
    forall k: nat :: k < |b| ==>
                       Within(Sub(ToComplex(b[k]), Scale(scale, Fft.Dft(ToComplexes(a), w, k))), 3.0 * (m as real))
  }

  /** q15_fft: the returned lists are the clamped run on the windowed samples. With headroom no clamp has
      acted, for any tables within their bounds; and for tables rounded from a root of unity the result is
      within 3m units of the exact transform divided by 2^m. */
  method Q15Transform(m: nat, samples: seq<int>, window: seq<int>, tables: seq<seq<Point>>,
                      ghost steps: seq<Complex>) returns (outRe: seq<int>, outIm: seq<int>)
    requires |samples| == |window| == Pow2(m) && TableShapes(m, tables)
    ensures |outRe| == |outIm| == |samples|
    ensures Points(outRe, outIm) == Run(m, Windowed(samples, window), tables, true, m)
    ensures Headroom(m, samples, window) && TablesBounded(m, tables) ==>
              Points(outRe, outIm) == Run(m, Windowed(samples, window), tables, false, m)
    ensures Headroom(m, samples, window) && Fft.RootTower(m, steps) && TablesOk(m, tables, steps) ==>
              Accurate(Points(outRe, outIm), Windowed(samples, window), m, steps[m])
  {
    hide *;
    ghost var a := Windowed(samples, window);
    var re := new int[|samples|](i requires 0 <= i < |samples| == |window| => MultiplyQ15(samples[i], window[i]));
    var im := new int[|samples|](i => 0);
    assert Points(re[..], im[..]) == a;
    TransformInPlace(m, re, im, tables);
    outRe, outIm := re[..], im[..];
    if Headroom(m, samples, window) {
      if TablesBounded(m, tables) {
        WindowedNeverClamps(m, samples, window, tables);
      }
      if Fft.RootTower(m, steps) && TablesOk(m, tables, steps) {
        WindowedAccurate(m, samples, window, tables, steps);
      }
    }
  }

  lemma HeadroomIsBound(m: nat, samples: seq<int>, window: seq<int>)
    requires |samples| == |window| == Pow2(m) && Headroom(m, samples, window)
    ensures AllWithin(Windowed(samples, window), (32767 - 2 * m) as real)
    ensures 2 * m <= 32767
  {
    hide MultiplyQ15;
    var a := Windowed(samples, window);
    assert -32767 + 2 * m <= MultiplyQ15(samples[0], window[0]) <= 32767 - 2 * m;
    forall p | 0 <= p < |a|
      ensures Within(ToComplex(a[p]), (32767 - 2 * m) as real)
    {
      SquareBound(a[p].re as real, (32767 - 2 * m) as real);
    }
  }

  lemma WindowedNeverClamps(m: nat, samples: seq<int>, window: seq<int>, tables: seq<seq<Point>>)
    requires |samples| == |window| == Pow2(m) && TablesBounded(m, tables) && Headroom(m, samples, window)
    ensures Run(m, Windowed(samples, window), tables, true, m) == Run(m, Windowed(samples, window), tables, false, m)
  {
    hide Run, AllWithin, Headroom, Bounded, MultiplyQ15;
    HeadroomIsBound(m, samples, window);
    RunNeverClamps(m, Windowed(samples, window), tables, (32767 - 2 * m) as real, m);
  }

  lemma WindowedAccurate(m: nat, samples: seq<int>, window: seq<int>, tables: seq<seq<Point>>, steps: seq<Complex>)
    requires |samples| == |window| == Pow2(m) && Fft.RootTower(m, steps) && TablesOk(m, tables, steps)
    requires Headroom(m, samples, window)
    ensures var a := Windowed(samples, window);
            Accurate(Run(m, a, tables, true, m), a, m, steps[m])
  {
    hide EntryOk, MultiplyQ15, Run, Fft.Dft, Within, Headroom, Sub, Scale;
    var a := Windowed(samples, window);
    HeadroomIsBound(m, samples, window);
    forall k: nat | k < |Run(m, a, tables, true, m)|
      ensures Within(Sub(ToComplex(Run(m, a, tables, true, m)[k]),
                         Scale(1.0 / (Pow2(m) as real), Fft.Dft(ToComplexes(a), steps[m], k))), 3.0 * (m as real))
    {
      Q15Accuracy(m, a, tables, steps, (32767 - 2 * m) as real, k);
    }
  }
}
