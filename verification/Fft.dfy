/** fft_in_place of core/spectrum.c over exact complex numbers, for any size 2^m. */
module Fft {
  import opened Complexes
  import opened Arithmetic
  import opened BitReversal

  /** The transform by its definition: the sum of x[n] * w^(n*k) over the first `count` samples. */
  function DftPrefix(x: seq<Complex>, w: Complex, k: nat, count: nat): Complex
    requires count <= |x|
  {
    if count == 0 then ZERO
    else Add(DftPrefix(x, w, k, count - 1), Mul(x[count - 1], Pow(w, (count - 1) * k)))
  }

  function Dft(x: seq<Complex>, w: Complex, k: nat): Complex {
    DftPrefix(x, w, k, |x|)
  }

  /** `steps[s]` stands for the pair cosf/sinf computes for length 2^s: minus one for length 2, and
      each later one a square root of the one before. */
  ghost predicate RootTower(m: nat, steps: seq<Complex>) {
    && |steps| == m + 1
    && (m > 0 ==> steps[1] == MINUS_ONE)
    && forall s :: 1 <= s < m ==> Mul(steps[s + 1], steps[s + 1]) == steps[s]
  }

  /** The two float arrays of the source as one sequence of complex numbers. */
  function Paired(re: seq<real>, im: seq<real>): (r: seq<Complex>)
    requires |re| == |im|
    ensures |r| == |re|
    ensures forall p :: 0 <= p < |r| ==> r[p] == Complex(re[p], im[p])
  {
    seq(|re|, (p: nat) requires p < |re| => Complex(re[p], im[p]))
  }

  function Sample(x: seq<Complex>, i: nat): Complex {
    if i < |x| then x[i] else ZERO
  }

  function Term(x: seq<Complex>, start: nat, stride: nat, w: Complex, k: nat, n: nat): Complex {
    Mul(Sample(x, start + n * stride), Pow(w, stride * n * k))
  }

  /** The transform of every stride-th sample from `start`, with root w^stride. */
  function DftSum(x: seq<Complex>, start: nat, stride: nat, count: nat, w: Complex, k: nat): Complex {
    if count == 0 then ZERO
    else Add(DftSum(x, start, stride, count - 1, w, k), Term(x, start, stride, w, k, count - 1))
  }

  lemma {:induction false} WholeSum(x: seq<Complex>, w: Complex, k: nat, count: nat)
    requires count <= |x|
    ensures DftSum(x, 0, 1, count, w, k) == DftPrefix(x, w, k, count)
  {
    hide Mul, Add, Pow;
    if count > 0 {
      WholeSum(x, w, k, count - 1);
      assert 1 * (count - 1) * k == (count - 1) * k;
    }
  }

  lemma EvenTerm(x: seq<Complex>, start: nat, stride: nat, w: Complex, k: nat, h: nat)
    ensures Term(x, start, stride, w, k, 2 * h) == Term(x, start, 2 * stride, w, k, h)
  {
    hide Mul, Pow, Sample;
    assert start + (2 * h) * stride == start + h * (2 * stride);
    assert stride * (2 * h) * k == 2 * stride * h * k;
  }

  lemma OddTerm(x: seq<Complex>, start: nat, stride: nat, w: Complex, k: nat, h: nat)
    ensures Term(x, start, stride, w, k, 2 * h + 1)
         == Mul(Pow(w, stride * k), Term(x, start + stride, 2 * stride, w, k, h))
  {
    hide Mul, Pow, Sample;
    assert start + (2 * h + 1) * stride == start + stride + h * (2 * stride);
    assert stride * (2 * h + 1) * k == stride * k + 2 * stride * h * k;
    var v := Sample(x, start + stride + h * (2 * stride));
    var pm, pn := Pow(w, stride * k), Pow(w, 2 * stride * h * k);
    PowAdds(w, stride * k, 2 * stride * h * k);
    MulAssociates(v, pm, pn);
    MulCommutes(v, pm);
    MulAssociates(pm, v, pn);
  }

  lemma Regroup(a: Complex, b: Complex, c: Complex, d: Complex)
    ensures Add(Add(Add(a, b), c), d) == Add(Add(a, c), Add(b, d))
  {
  }

  /** Decimation in time: a sum of 2 * half terms is its even part plus w^(stride*k) times its odd part. */
  lemma {:induction false} SplitEvenOdd(x: seq<Complex>, start: nat, stride: nat, half: nat, w: Complex, k: nat)
    ensures DftSum(x, start, stride, 2 * half, w, k)
         == Add(DftSum(x, start, 2 * stride, half, w, k),
                Mul(Pow(w, stride * k), DftSum(x, start + stride, 2 * stride, half, w, k)))
  {
    hide Mul, Add, Pow, Term;
    var twiddle := Pow(w, stride * k);
    if half == 0 {
      ZeroTerms(twiddle);
    } else {
      var h := half - 1;
      SplitEvenOdd(x, start, stride, h, w, k);
      EvenTerm(x, start, stride, w, k, h);
      OddTerm(x, start, stride, w, k, h);
      var e := DftSum(x, start, 2 * stride, h, w, k);
      var o := DftSum(x, start + stride, 2 * stride, h, w, k);
      var oddTerm := Term(x, start + stride, 2 * stride, w, k, h);
      Regroup(e, Mul(twiddle, o), Term(x, start, 2 * stride, w, k, h), Mul(twiddle, oddTerm));
      MulDistributes(twiddle, o, oddTerm);
      assert 2 * half - 1 == 2 * h + 1;
    }
  }

  lemma ZeroTerms(a: Complex)
    ensures Add(ZERO, Mul(a, ZERO)) == ZERO
  {
  }

  /** A term of a sum repeats when k grows by `period`. */
  lemma TermIsPeriodic(x: seq<Complex>, start: nat, stride: nat, n: nat, w: Complex, k: nat, period: nat)
    requires Pow(w, stride * period) == ONE
    ensures Term(x, start, stride, w, k + period, n) == Term(x, start, stride, w, k, n)
  {
    hide Mul, Add, Pow;
    PeriodicExponent(stride, n, k, period);
    PowAdds(w, stride * n * k, stride * period * n);
    PowMultiplies(w, stride * period, n);
    PowOfOne(Pow(w, stride * period), n);
    MulUnits(Pow(w, stride * n * k));
  }

  lemma {:induction false} SumIsPeriodic(x: seq<Complex>, start: nat, stride: nat, count: nat,
                                         w: Complex, k: nat, period: nat)
    requires Pow(w, stride * period) == ONE
    ensures DftSum(x, start, stride, count, w, k + period) == DftSum(x, start, stride, count, w, k)
  {
    if count > 0 {
      hide Mul, Add, Pow, Term;
      SumIsPeriodic(x, start, stride, count - 1, w, k, period);
      TermIsPeriodic(x, start, stride, count - 1, w, k, period);
    }
  }

  lemma PeriodicExponent(stride: nat, n: nat, k: nat, period: nat)
    ensures stride * n * (k + period) == stride * n * k + stride * period * n
  {
  }

  /** Stage value at index p: the butterfly of the entry pair that p belongs to. */
  function ButterflyAt(a: seq<Complex>, half: nat, step: Complex, p: nat): Complex
    requires half > 0 && p < |a| && |a| % (2 * half) == 0
  {
    var q := p % (2 * half);
    PartnerInRange(|a|, half, p);
    if q < half then Add(a[p], Mul(Pow(step, q), a[p + half]))
    else Sub(a[p - half], Mul(Pow(step, q - half), a[p]))
  }

  lemma PartnerInRange(n: nat, half: nat, p: nat)
    requires half > 0 && p < n && n % (2 * half) == 0
    ensures p % (2 * half) < half ==> p + half < n
    ensures p % (2 * half) >= half ==> p >= half
  {
    var len := 2 * half;
    Quotient(n, len);
    Quotient(p, len);
    if p / len < n / len {
      ProductGrows(len, p / len, n / len);
    } else if n / len < p / len {
      ProductGrows(len, n / len, p / len);
    }
  }

  function StageResult(a: seq<Complex>, half: nat, step: Complex): (r: seq<Complex>)
    requires half > 0 && |a| % (2 * half) == 0
    ensures |r| == |a|
    ensures forall p :: 0 <= p < |r| ==> r[p] == ButterflyAt(a, half, step, p)
  {
    seq(|a|, (p: nat) requires p < |a| => ButterflyAt(a, half, step, p))
  }

  /** What holds after s stages: block p / 2^s of the array is the transform of the samples whose
      index ends in the reversed block number. */
  ghost predicate StageDone(x: seq<Complex>, a: seq<Complex>, m: nat, s: nat, w: Complex) {
    && s <= m && |a| == |x| == Pow2(m)
    && forall p: nat :: p < |a| ==> a[p] == BlockValue(x, m, s, w, p)
  }

  ghost function BlockValue(x: seq<Complex>, m: nat, s: nat, w: Complex, p: nat): Complex
    requires s <= m
  {
    DftSum(x, Rev(m - s, BlockNumber(p, Pow2(s))), Pow2(m - s), Pow2(s), w, p % Pow2(s))
  }

  function BlockNumber(p: nat, length: nat): (c: nat)
    requires length > 0
    ensures c == p / length
  {
    Quotient(p, length);
    p / length
  }

  lemma Pow2Divides(m: nat, s: nat)
    requires s <= m
    ensures Pow2(m) % Pow2(s) == 0 && Pow2(m) == Pow2(m - s) * Pow2(s)
  {
    Pow2Adds(m - s, s);
    MultipleHasNoRemainder(Pow2(m - s), Pow2(s));
  }

  /** In a block of length 2 * half, the first half of the indexes belongs to the even sub-block
      and the second half to the odd one. */
  lemma SubBlocks(p: nat, half: nat, c: nat, q: nat)
    requires half > 0 && c == p / (2 * half) && q == p % (2 * half)
    ensures q < half ==>
              p / half == 2 * c && p % half == q && (p + half) / half == 2 * c + 1 && (p + half) % half == q
    ensures q >= half ==>
              p >= half && p / half == 2 * c + 1 && p % half == q - half
              && (p - half) / half == 2 * c && (p - half) % half == q - half
  {
    Quotient(p, 2 * half);
    BlockStart(half, c);
    if q < half {
      DivisionIsUnique(p, half, 2 * c, q);
      DivisionIsUnique(p + half, half, 2 * c + 1, q);
    } else {
      DivisionIsUnique(p, half, 2 * c + 1, q - half);
      DivisionIsUnique(p - half, half, 2 * c, q - half);
    }
  }

  lemma BlockStart(half: nat, c: nat)
    ensures 2 * half * c == half * (2 * c) >= 0
    ensures half * (2 * c + 1) == half * (2 * c) + half
  {
  }

  lemma NegatedTwiddle(e: Complex, t: Complex, o: Complex)
    ensures Sub(e, Mul(t, o)) == Add(e, Mul(Mul(t, MINUS_ONE), o))
  {
  }

  /** The last step is a primitive root: its powers give every other step. */
  lemma {:induction false} StepIsPower(m: nat, steps: seq<Complex>, s: nat)
    requires RootTower(m, steps) && 1 <= s <= m
    ensures Pow(steps[m], Pow2(m - s)) == steps[s]
    decreases m - s
  {
    hide Mul;
    var w := steps[m];
    if s == m {
      assert Pow(w, 1) == Mul(Pow(w, 0), w);
      MulUnits(w);
    } else {
      StepIsPower(m, steps, s + 1);
      assert Pow2(m - s) == Pow2(m - s - 1) + Pow2(m - s - 1);
      PowAdds(w, Pow2(m - s - 1), Pow2(m - s - 1));
    }
  }

  lemma RootFacts(m: nat, steps: seq<Complex>, s: nat)
    requires RootTower(m, steps) && s < m
    ensures Pow(steps[m], Pow2(m - s - 1)) == steps[s + 1]
    ensures Pow(steps[m], Pow2(m - s - 1) * Pow2(s)) == MINUS_ONE
  {
    hide Mul, Pow;
    StepIsPower(m, steps, s + 1);
    StepIsPower(m, steps, 1);
    Pow2Adds(m - s - 1, s);
  }

  /** Twice half a turn. */
  lemma FullTurn(w: Complex, d: nat, half: nat)
    requires Pow(w, d * half) == MINUS_ONE
    ensures Pow(w, 2 * d * half) == ONE
  {
    hide Mul, Pow;
    assert 2 * d * half == d * half + d * half;
    PowAdds(w, d * half, d * half);
    MinusOneSquared();
  }

  lemma MinusOneSquared()
    ensures Mul(MINUS_ONE, MINUS_ONE) == ONE
  {
  }

  /** One butterfly yields entries k and k + half of the double-length transform. */
  lemma Merge(x: seq<Complex>, r: nat, d: nat, half: nat, w: Complex, step: Complex, k: nat)
    requires Pow(w, d) == step && Pow(w, d * half) == MINUS_ONE
    ensures var e, o := DftSum(x, r, 2 * d, half, w, k), DftSum(x, r + d, 2 * d, half, w, k);
            && Add(e, Mul(Pow(step, k), o)) == DftSum(x, r, d, 2 * half, w, k)
            && Sub(e, Mul(Pow(step, k), o)) == DftSum(x, r, d, 2 * half, w, k + half)
  {
    hide Mul, Add, Sub, Pow, DftSum;
    FullTurn(w, d, half);
    SplitEvenOdd(x, r, d, half, w, k);
    SplitEvenOdd(x, r, d, half, w, k + half);
    PowMultiplies(w, d, k);
    SumIsPeriodic(x, r, 2 * d, half, w, k, half);
    SumIsPeriodic(x, r + d, 2 * d, half, w, k, half);
    assert d * (k + half) == d * k + d * half;
    PowAdds(w, d * k, d * half);
    NegatedTwiddle(DftSum(x, r, 2 * d, half, w, k), Pow(step, k), DftSum(x, r + d, 2 * d, half, w, k));
  }

  lemma ReversedSubBlocks(m: nat, c: nat)
    requires m > 0
    ensures Rev(m, 2 * c) == Rev(m - 1, c)
    ensures Rev(m, 2 * c + 1) == Rev(m - 1, c) + Pow2(m - 1)
  {
    assert (2 * c) % 2 == 0 && (2 * c) / 2 == c && (2 * c + 1) % 2 == 1 && (2 * c + 1) / 2 == c;
  }

  lemma BlockAt(x: seq<Complex>, m: nat, s: nat, w: Complex, p: nat, c: nat, k: nat)
    requires s <= m && p / Pow2(s) == c && p % Pow2(s) == k
    ensures BlockValue(x, m, s, w, p) == DftSum(x, Rev(m - s, c), Pow2(m - s), Pow2(s), w, k)
  {
  }

  lemma ButterflyHalves(a: seq<Complex>, half: nat, step: Complex, p: nat, q: nat)
    requires half > 0 && p < |a| && |a| % (2 * half) == 0 && q == p % (2 * half)
    ensures q < half ==> p + half < |a| && ButterflyAt(a, half, step, p) == Add(a[p], Mul(Pow(step, q), a[p + half]))
    ensures q >= half ==> p >= half && ButterflyAt(a, half, step, p) == Sub(a[p - half], Mul(Pow(step, q - half), a[p]))
  {
    hide Mul, Add, Sub, Pow;
    PartnerInRange(|a|, half, p);
  }

  /** Merge for the sub-blocks 2 * c and 2 * c + 1 of stage s. */
  lemma MergeInBlock(x: seq<Complex>, m: nat, s: nat, steps: seq<Complex>, c: nat, k: nat)
    requires RootTower(m, steps) && s < m
    ensures var half, w := Pow2(s), steps[m];
            var t := Pow(steps[s + 1], k);
            var e := DftSum(x, Rev(m - s, 2 * c), Pow2(m - s), half, w, k);
            var o := DftSum(x, Rev(m - s, 2 * c + 1), Pow2(m - s), half, w, k);
            && Add(e, Mul(t, o)) == DftSum(x, Rev(m - s - 1, c), Pow2(m - s - 1), Pow2(s + 1), w, k)
            && Sub(e, Mul(t, o)) == DftSum(x, Rev(m - s - 1, c), Pow2(m - s - 1), Pow2(s + 1), w, k + half)
  {
    assert Pow2(m - s) == 2 * Pow2(m - s - 1) && Pow2(s + 1) == 2 * Pow2(s);
    ReversedSubBlocks(m - s, c);
    RootFacts(m, steps, s);
    hide *;
    Merge(x, Rev(m - s - 1, c), Pow2(m - s - 1), Pow2(s), steps[m], steps[s + 1], k);
  }

  /** One butterfly merges the two half-length transforms of its block. */
  lemma MergedBlock(x: seq<Complex>, m: nat, s: nat, steps: seq<Complex>, a: seq<Complex>, p: nat)
    requires RootTower(m, steps) && s < m && p < Pow2(m)
    requires StageDone(x, a, m, s, steps[m])
    requires |a| % (2 * Pow2(s)) == 0
    ensures ButterflyAt(a, Pow2(s), steps[s + 1], p) == BlockValue(x, m, s + 1, steps[m], p)
  {
    var half, w, step := Pow2(s), steps[m], steps[s + 1];
    assert Pow2(s + 1) == 2 * half;
    hide Mul, Add, Sub, Pow, DftSum, Rev, BlockValue, ButterflyAt, Pow2;
    Quotient(p, 2 * half);
    var c, q := p / (2 * half), p % (2 * half);
    SubBlocks(p, half, c, q);
    ButterflyHalves(a, half, step, p, q);
    BlockAt(x, m, s + 1, w, p, c, q);
    if q < half {
      MergeInBlock(x, m, s, steps, c, q);
      BlockAt(x, m, s, w, p, 2 * c, q);
      BlockAt(x, m, s, w, p + half, 2 * c + 1, q);
    } else {
      MergeInBlock(x, m, s, steps, c, q - half);
      BlockAt(x, m, s, w, p - half, 2 * c, q - half);
      BlockAt(x, m, s, w, p, 2 * c + 1, q - half);
    }
  }

  lemma StageAdvances(x: seq<Complex>, m: nat, s: nat, steps: seq<Complex>, a: seq<Complex>)
    requires RootTower(m, steps) && s < m
    requires StageDone(x, a, m, s, steps[m])
    ensures |a| % (2 * Pow2(s)) == 0
    ensures StageDone(x, StageResult(a, Pow2(s), steps[s + 1]), m, s + 1, steps[m])
  {
    hide BlockValue, ButterflyAt;
    Pow2Divides(m, s + 1);
    var b := StageResult(a, Pow2(s), steps[s + 1]);
    forall p: nat | p < |b|
      ensures b[p] == BlockValue(x, m, s + 1, steps[m], p)
    {
      MergedBlock(x, m, s, steps, a, p);
    }
  }

  lemma StartsReversed(x: seq<Complex>, m: nat, w: Complex)
    requires |x| == Pow2(m)
    ensures StageDone(x, Permuted(m, x), m, 0, w)
  {
    hide Mul, Add, Pow;
    var a := Permuted(m, x);
    forall p: nat | p < |a|
      ensures a[p] == BlockValue(x, m, 0, w, p)
    {
      var r := Rev(m, p);
      assert p / 1 == p && p % 1 == 0;
      assert DftSum(x, r, Pow2(m), 1, w, 0)
          == Add(ZERO, Mul(Sample(x, r + 0 * Pow2(m)), Pow(w, Pow2(m) * 0 * 0)));
      assert Pow2(m) * 0 * 0 == 0;
      FirstTerm(x[r], w);
    }
  }

  lemma FirstTerm(v: Complex, w: Complex)
    ensures Add(ZERO, Mul(v, Pow(w, 0))) == v
  {
  }

  lemma EndsWithDft(x: seq<Complex>, a: seq<Complex>, m: nat, w: Complex)
    requires StageDone(x, a, m, m, w)
    ensures forall k: nat :: k < |a| ==> a[k] == Dft(x, w, k)
  {
    hide DftSum, DftPrefix;
    forall k: nat | k < |a|
      ensures a[k] == Dft(x, w, k)
    {
      DivisionIsUnique(k, Pow2(m), 0, k);
      WholeSum(x, w, k, |x|);
    }
  }

  method Butterfly(re: array<real>, im: array<real>, even: nat, odd: nat, w: Complex)
    requires re != im && even < odd < re.Length == im.Length
    modifies re, im
    ensures Complex(re[even], im[even])
         == old(Add(Complex(re[even], im[even]), Mul(w, Complex(re[odd], im[odd]))))
    ensures Complex(re[odd], im[odd])
         == old(Sub(Complex(re[even], im[even]), Mul(w, Complex(re[odd], im[odd]))))
    ensures forall p :: 0 <= p < re.Length && p != even && p != odd ==>
                          re[p] == old(re[p]) && im[p] == old(im[p])
  {
    var tr := w.re * re[odd] - w.im * im[odd];
    var ti := w.re * im[odd] + w.im * re[odd];
    assert Complex(tr, ti) == Mul(w, Complex(re[odd], im[odd]));
    hide Mul;
    re[odd] := re[even] - tr;
    im[odd] := im[even] - ti;
    re[even] := re[even] + tr;
    im[even] := im[even] + ti;
  }

  /** Which entries of a stage are finished when `offset` butterflies of the block at `base` are. */
  ghost predicate Finished(p: nat, base: nat, half: nat, offset: nat) {
    p < base + offset || base + half <= p < base + half + offset
  }

  /** One pass of the `length` loop: every block, every offset, with the twiddle built by repeated
      multiplication. */
  method Stage(re: array<real>, im: array<real>, half: nat, step: Complex)
    requires re != im && re.Length == im.Length
    requires half > 0 && re.Length % (2 * half) == 0
    modifies re, im
    ensures Paired(re[..], im[..]) == StageResult(old(Paired(re[..], im[..])), half, step)
  {
    hide ButterflyAt, Pow, Mul, Add, Sub, BitReversal.Rev;
    ghost var a := Paired(re[..], im[..]);
    ghost var b := StageResult(a, half, step);
    var base := 0;
    ghost var block := 0;
    while base < re.Length
      invariant 0 <= base <= re.Length && base == 2 * half * block
      invariant forall p :: 0 <= p < re.Length ==> Complex(re[p], im[p]) == if p < base then b[p] else a[p]
    {
      NextBlock(re.Length, half, block);
      var w := ONE;
      PowZero(step);
      for offset := 0 to half
        invariant w == Pow(step, offset)
        invariant forall p :: 0 <= p < re.Length ==>
                                Complex(re[p], im[p]) == if Finished(p, base, half, offset) then b[p] else a[p]
      {
        var even := base + offset;
        var odd := even + half;
        OffsetInBlock(half, block, offset);
        ButterflyHalves(a, half, step, even, offset);
        ButterflyHalves(a, half, step, odd, offset + half);
        assert Complex(re[even], im[even]) == a[even] && Complex(re[odd], im[odd]) == a[odd];
        Butterfly(re, im, even, odd, w);
        PowNext(step, offset);
        w := Mul(w, step);
      }
      base := base + 2 * half;
      block := block + 1;
    }
    assert Paired(re[..], im[..]) == b;
  }

  lemma PowZero(a: Complex)
    ensures Pow(a, 0) == ONE
  {
  }

  lemma PowNext(a: Complex, n: nat)
    ensures Pow(a, n + 1) == Mul(Pow(a, n), a)
  {
  }

  lemma NextBlock(length: nat, half: nat, block: nat)
    requires half > 0 && length % (2 * half) == 0 && 2 * half * block < length
    ensures 2 * half * block + 2 * half <= length && 2 * half * (block + 1) == 2 * half * block + 2 * half
  {
    Quotient(length, 2 * half);
    if length / (2 * half) <= block {
      if length / (2 * half) < block {
        ProductGrows(2 * half, length / (2 * half), block);
      }
    } else if length / (2 * half) > block + 1 {
      ProductGrows(2 * half, block + 1, length / (2 * half));
    }
  }

  lemma OffsetInBlock(half: nat, block: nat, offset: nat)
    requires offset < half
    ensures (2 * half * block + offset) % (2 * half) == offset
    ensures (2 * half * block + offset + half) % (2 * half) == offset + half
  {
    DivisionIsUnique(2 * half * block + offset, 2 * half, block, offset);
    DivisionIsUnique(2 * half * block + offset + half, 2 * half, block, offset + half);
  }

  lemma FirstLength(m: nat, steps: seq<Complex>)
    requires RootTower(m, steps)
    ensures |steps| == m + 1 && Pow2(1) == 2
  {
  }

  lemma NextLength(m: nat, steps: seq<Complex>, s: nat)
    requires RootTower(m, steps) && s <= m
    ensures |steps| == m + 1 && Pow2(s + 1) == 2 * Pow2(s) && Pow2(s + 2) == 2 * Pow2(s + 1)
    ensures Pow2(s + 1) <= Pow2(m) <==> s < m
  {
    LengthFits(m, s);
  }

  /** fft_in_place: whatever the input, the arrays end up holding its discrete Fourier transform. */
  method FftInPlace(m: nat, re: array<real>, im: array<real>, steps: seq<Complex>)
    requires re != im && re.Length == im.Length == Pow2(m)
    requires RootTower(m, steps)
    modifies re, im
    ensures forall k: nat :: k < re.Length ==>
                               Complex(re[k], im[k]) == Dft(old(Paired(re[..], im[..])), steps[m], k)
  {
    hide *;
    ghost var x := Paired(re[..], im[..]);
    FirstLength(m, steps);
    BitReverse(m, re, im);
    assert Paired(re[..], im[..]) == Permuted(m, x);
    StartsReversed(x, m, steps[m]);
    var length := 2;
    var s := 0;
    while length <= re.Length
      invariant s <= m && length == Pow2(s + 1)
      invariant StageDone(x, Paired(re[..], im[..]), m, s, steps[m])
      decreases m - s
    {
      NextLength(m, steps, s);
      StageAdvances(x, m, s, steps, Paired(re[..], im[..]));
      Stage(re, im, length / 2, steps[s + 1]);
      length := length * 2;
      s := s + 1;
    }
    NextLength(m, steps, s);
    ghost var a := Paired(re[..], im[..]);
    EndsWithDft(x, a, m, steps[m]);
    assert forall k :: 0 <= k < |a| ==> a[k] == Complex(re[k], im[k]);
  }

  lemma LengthFits(m: nat, s: nat)
    requires s <= m
    ensures Pow2(s + 1) <= Pow2(m) <==> s < m
  {
    if s < m {
      Pow2Doubles(s, m);
    }
  }
}
