/** The bit-reversal permutation shared by core/spectrum.c and tools/fft_precision_report.py, for any
    power-of-two size. */
module BitReversal {
  import opened Arithmetic

  /** The number whose m binary digits are those of i read backwards. */
  function Rev(m: nat, i: nat): nat {
    if m == 0 then 0 else (if i % 2 == 1 then Pow2(m - 1) else 0) + Rev(m - 1, i / 2)
  }

  lemma {:induction false} RevBound(m: nat, i: nat)
    ensures Rev(m, i) < Pow2(m)
  {
    if m > 0 {
      RevBound(m - 1, i / 2);
    }
  }

  lemma RevUnfolds(m: nat, i: nat)
    requires m > 0
    ensures i / 2 >= 0 && Rev(m, i) == (if i % 2 == 1 then Pow2(m - 1) else 0) + Rev(m - 1, i / 2)
  {
  }

  /** Rev described from the other end: the top digit of i becomes the lowest of Rev. */
  lemma {:induction false} RevTopDigit(m: nat, hi: nat, lo: nat)
    requires m > 0 && hi < 2 && lo < Pow2(m - 1)
    ensures Rev(m, (if hi == 1 then Pow2(m - 1) else 0) + lo) == 2 * Rev(m - 1, lo) + hi
  {
    if m == 1 {
    } else {
      hide Rev;
      var top := if hi == 1 then Pow2(m - 2) else 0;
      var i := 2 * top + lo;
      assert i % 2 == lo % 2 && i / 2 == top + lo / 2;
      RevTopDigit(m - 1, hi, lo / 2);
      RevUnfolds(m, i);
      RevUnfolds(m - 1, lo);
    }
  }

  /** Bit reversal is its own inverse. */
  lemma {:induction false} RevInvolution(m: nat, i: nat)
    requires i < Pow2(m)
    ensures Rev(m, i) < Pow2(m) && Rev(m, Rev(m, i)) == i
  {
    RevBound(m, i);
    if m > 0 {
      var low := Rev(m - 1, i / 2);
      RevInvolution(m - 1, i / 2);
      RevTopDigit(m, i % 2, low);
    }
  }

  /** What one pass of the carry loop computes: add one to j counted in reversed binary,
      digit `bit` first. */
  lemma {:induction false} RevSuccessor(m: nat, i: nat)
    requires m > 0 && i + 1 < Pow2(m)
    ensures i % 2 == 0 ==> Rev(m, i) < Pow2(m - 1) && Rev(m, i + 1) == Rev(m, i) + Pow2(m - 1)
    ensures i % 2 == 1 ==> m > 1 && i / 2 + 1 < Pow2(m - 1)
                           && Pow2(m - 1) <= Rev(m, i)
                           && Rev(m, i + 1) == Rev(m - 1, i / 2 + 1)
  {
    RevBound(m - 1, i / 2);
    if i % 2 == 1 {
      assert (i + 1) / 2 == i / 2 + 1;
    }
  }

  /** The sequence read through bit reversal. */
  function Permuted<T>(m: nat, a: seq<T>): (r: seq<T>)
    requires |a| == Pow2(m)
    ensures |r| == |a|
    ensures forall p :: 0 <= p < |r| ==> Rev(m, p) < |a| && r[p] == a[Rev(m, p)]
  {
    assert forall p: nat :: Rev(m, p) < |a| by {
      forall p: nat ensures Rev(m, p) < |a| { RevBound(m, p); }
    }
    seq(|a|, (p: nat) requires p < |a| => a[Rev(m, p)])
  }

  /** The carry loop: `j` holds Rev(m, i - 1) on entry and Rev(m, i) on exit. */
  method NextReversed(m: nat, i: nat, previous: nat) returns (j: nat)
    requires 1 <= i < Pow2(m)
    requires previous == Rev(m, i - 1)
    ensures j == Rev(m, i)
  {
    j := previous;
    ghost var digits: nat, rest: nat := m, i - 1;
    var bit := Pow2(m) / 2;
    assert m > 0;
    assert bit == Pow2(m - 1);
    while (j / bit) % 2 == 1
      invariant 1 <= digits <= m && bit == Pow2(digits - 1)
      invariant rest + 1 < Pow2(digits)
      invariant j == Rev(digits, rest) && Rev(m, i) == Rev(digits, rest + 1)
      decreases digits
    {
      RevBound(digits, rest);
      RevSuccessor(digits, rest);
      DigitIsSet(j, bit);
      assert rest % 2 == 1;
      j := j - bit;
      bit := bit / 2;
      digits, rest := digits - 1, rest / 2;
    }
    RevBound(digits, rest);
    RevSuccessor(digits, rest);
    DigitIsSet(j, bit);
    j := j + bit;
  }

  /** For j below 2 * bit, the test `(j & bit) != 0` is j >= bit. */
  lemma DigitIsSet(j: nat, bit: nat)
    requires bit > 0 && j < 2 * bit
    ensures (j / bit) % 2 == 1 <==> j >= bit
  {
    if j >= bit {
      assert j / bit == 1;
    } else {
      assert j / bit == 0;
    }
  }

  /** Entry p once every index below i has been visited. */
  ghost predicate Visited<T>(m: nat, a0: seq<T>, p: nat, i: nat, value: T)
    requires |a0| == Pow2(m) && p < |a0|
  {
    && Rev(m, p) < |a0|
    && value == if p < i || Rev(m, p) < i then a0[Rev(m, p)] else a0[p]
  }

  /** The exchange made at index i, in one of the two arrays. */
  lemma ExchangeVisits<T>(m: nat, a0: seq<T>, before: seq<T>, after: seq<T>, i: nat, j: nat)
    requires |a0| == Pow2(m) == |before| == |after| && i < |a0| && j == Rev(m, i) < |a0|
    requires forall p :: 0 <= p < |before| ==> Visited(m, a0, p, i, before[p])
    requires after == if i < j then before[i := before[j]][j := before[i]] else before
    ensures forall p :: 0 <= p < |after| ==> Visited(m, a0, p, i + 1, after[p])
  {
    hide Rev;
    RevInvolution(m, i);
    forall p | 0 <= p < |after|
      ensures Visited(m, a0, p, i + 1, after[p])
    {
      RevInvolution(m, p);
      assert Visited(m, a0, p, i, before[p]);
      assert Visited(m, a0, i, i, before[i]);
      assert Visited(m, a0, j, i, before[j]);
    }
  }

  /** bit_reverse: swaps each entry with its mirror image exactly once, in both arrays. */
  method BitReverse<T>(m: nat, re: array<T>, im: array<T>)
    requires re != im && re.Length == im.Length == Pow2(m)
    modifies re, im
    ensures re[..] == Permuted(m, old(re[..]))
    ensures im[..] == Permuted(m, old(im[..]))
  {
    hide Rev, Pow2;
    ghost var re0, im0 := re[..], im[..];
    var j := 0;
    ZeroReversed(m);
    for i := 1 to re.Length
      invariant j == Rev(m, i - 1)
      invariant forall p :: 0 <= p < re.Length ==> Visited(m, re0, p, i, re[..][p])
      invariant forall p :: 0 <= p < im.Length ==> Visited(m, im0, p, i, im[..][p])
    {
      ghost var re1, im1 := re[..], im[..];
      j := NextReversed(m, i, j);
      RevInvolution(m, i);
      if i < j {
        re[i], im[i], re[j], im[j] := re[j], im[j], re[i], im[i];
      }
      ExchangeVisits(m, re0, re1, re[..], i, j);
      ExchangeVisits(m, im0, im1, im[..], i, j);
    }
    forall p | 0 <= p < re.Length
      ensures re[p] == Permuted(m, re0)[p] && im[p] == Permuted(m, im0)[p]
    {
      assert Visited(m, re0, p, re.Length, re[..][p]) && Visited(m, im0, p, im.Length, im[..][p]);
    }
  }

  lemma {:induction false} ZeroReversed(m: nat)
    ensures Rev(m, 0) == 0
    ensures forall p :: 0 <= p < Pow2(m) ==> Rev(m, p) < Pow2(m) && (Rev(m, p) < 1 ==> p == 0)
  {
    if m > 0 {
      ZeroReversed(m - 1);
    }
    forall p | 0 <= p < Pow2(m)
      ensures Rev(m, p) < Pow2(m) && (Rev(m, p) < 1 ==> p == 0)
    {
      RevInvolution(m, p);
    }
  }
}
