/** The peak search and interpolation of spectrum_analyze_q15 in core/spectrum.c, over exact reals. */
module PeakPicking {
  import opened Bytes
  import opened HealthMonitor

  const BINS := 512
  const SIZE := 1024

  /** Half the scale for the constant component. */
  function Amplitude(raw: seq<real>, bin: nat): real
    requires bin < |raw|
  {
    if bin == 0 then raw[bin] * 2.0 / 1024.0 else raw[bin] * 4.0 / 1024.0
  }

  /** hypotf of each bin: never negative. */
  ghost predicate Magnitudes(raw: seq<real>) {
    |raw| == BINS && forall i :: 0 <= i < BINS ==> raw[i] >= 0.0
  }

  /** The first of the largest bins, the constant component left out; bin 1 if there is no signal. */
  ghost predicate FirstLargest(amplitude: seq<real>, peak: nat, n: nat)
    requires 2 <= n <= |amplitude|
  {
    && 1 <= peak < n
    && (forall i :: 1 <= i < n ==> amplitude[i] <= amplitude[peak])
    && (forall i :: 1 <= i < peak ==> amplitude[i] < amplitude[peak])
  }

  method FindPeak(raw: seq<real>) returns (amplitude: seq<real>, peak: nat)
    requires Magnitudes(raw)
    ensures |amplitude| == BINS && amplitude[0] == raw[0] * 2.0 / 1024.0 >= 0.0
    ensures forall i :: 1 <= i < BINS ==> amplitude[i] == raw[i] * 4.0 / 1024.0 >= 0.0
    ensures FirstLargest(amplitude, peak, BINS)
  {
    var largest := 0.0;
    peak := 1;
    amplitude := [];
    for bin := 0 to BINS
      invariant |amplitude| == bin && forall i :: 0 <= i < bin ==> amplitude[i] == Amplitude(raw, i) >= 0.0
      invariant bin <= 1 ==> largest == 0.0 && peak == 1
      invariant bin >= 2 ==> FirstLargest(amplitude, peak, bin) && largest == amplitude[peak]
    {
      amplitude := amplitude + [Amplitude(raw, bin)];
      if bin > 0 && amplitude[bin] > largest {
        largest := amplitude[bin];
        peak := bin;
      }
    }
  }

  function Abs(x: real): real {
    if x < 0.0 then -x else x
  }

  /** left - 2 * center + right */
  function Curvature(left: real, center: real, right: real): real {
    left - 2.0 * center + right
  }

  function Clamp(delta: real): real {
    if delta < -0.5 then -0.5 else if delta > 0.5 then 0.5 else delta
  }

  const FLAT := 0.000000000001

  /** The offset before it is clamped. */
  function Offset(left: real, center: real, right: real): real
    requires Curvature(left, center, right) != 0.0
  {
    0.5 * (left - right) / Curvature(left, center, right)
  }

  function Interpolated(amplitude: seq<real>, peak: nat): real
    requires peak < |amplitude| == BINS
  {
    if peak == 0 || peak + 1 >= BINS then peak as real
    else
      var left, center, right := amplitude[peak - 1], amplitude[peak], amplitude[peak + 1];
      if Abs(Curvature(left, center, right)) > FLAT then peak as real + Clamp(Offset(left, center, right))
      else peak as real
  }

  /** frequency_hz * 1000, rounded half up, where the frequency is product / 1024. */
  function Rounded(product: real): int {
    (product / 1024.0 * 1000.0 + 0.5).Floor
  }

  function Product(bin: real, rate: real): real {
    bin * rate
  }

  function Millihz(bin: real, sampleRateHz: u32): int {
    Rounded(Product(bin, sampleRateHz as real))
  }

  lemma NotPositive(x: real, b: real)
    requires b < 0.0 && x * b >= 0.0
    ensures x <= 0.0
  {
  }

  lemma QuotientBounds(a: real, b: real, limit: real)
    requires b < 0.0 && limit * b <= a <= -limit * b
    ensures -limit <= a / b <= limit
  {
    var q := a / b;
    assert q * b == a;
    NotPositive(q - limit, b);
    NotPositive(-limit - q, b);
  }

  /** With a center not below its right neighbour, the clamp acts exactly if the three bins fall from left
      to right. */
  lemma ClampActsOnFall(left: real, center: real, right: real)
    requires right <= center && Curvature(left, center, right) != 0.0
    ensures Clamp(Offset(left, center, right)) != Offset(left, center, right) <==> left > center > right
  {
    var a, b := left - center, right - center;
    if a <= 0.0 {
      QuotientBounds(0.5 * (a - b), a + b, 0.5);
    } else if a + b > 0.0 {
      OffsetAboveHalf(a, b);
    } else {
      OffsetBelowMinusHalf(a, b);
    }
  }

  lemma SignOfFactor(x: real, y: real)
    ensures y > 0.0 ==> (x > 0.0 <==> x * y > 0.0)
    ensures y < 0.0 ==> (x < 0.0 <==> x * y > 0.0)
  {
  }

  lemma OffsetAboveHalf(a: real, b: real)
    requires b <= 0.0 < a + b
    ensures 0.5 * (a - b) / (a + b) > 0.5 <==> b < 0.0
    ensures 0.5 * (a - b) / (a + b) >= 0.5
  {
    var s := a + b;
    var q := 0.5 * (a - b) / s;
    assert q * s == 0.5 * (a - b);
    assert (q - 0.5) * s == q * s - 0.5 * s == -b;
    SignOfFactor(q - 0.5, s);
    assert (0.5 - q) * s == b;
    SignOfFactor(0.5 - q, s);
  }

  lemma OffsetBelowMinusHalf(a: real, b: real)
    requires a > 0.0 && a + b < 0.0
    ensures 0.5 * (a - b) / (a + b) < -0.5
  {
    var s := a + b;
    var q := 0.5 * (a - b) / s;
    assert q * s == 0.5 * (a - b);
    assert (q + 0.5) * s == q * s + 0.5 * s == a;
    SignOfFactor(q + 0.5, s);
  }

  /** For the bin that FindPeak returns, the clamp acts exactly if that is bin 1 and the amplitudes fall
      from the constant component through it to bin 2. */
  lemma WhenClampActs(amplitude: seq<real>, peak: nat)
    requires |amplitude| == BINS && FirstLargest(amplitude, peak, BINS) && peak + 1 < BINS
    requires Curvature(amplitude[peak - 1], amplitude[peak], amplitude[peak + 1]) != 0.0
    ensures var o := Offset(amplitude[peak - 1], amplitude[peak], amplitude[peak + 1]);
            Clamp(o) != o <==> peak == 1 && amplitude[0] > amplitude[1] > amplitude[2]
  {
    hide Clamp, Offset, Curvature;
    ClampActsOnFall(amplitude[peak - 1], amplitude[peak], amplitude[peak + 1]);
  }

  /** Such a spectrum: a constant component above a peak in bin 1, and nothing else. */
  lemma ClampCanAct(amplitude: seq<real>)
    requires |amplitude| == BINS && amplitude[0] == 3.0 && amplitude[1] == 1.0
    requires forall i :: 2 <= i < BINS ==> amplitude[i] == 0.0
    ensures FirstLargest(amplitude, 1, BINS)
    ensures Offset(amplitude[0], amplitude[1], amplitude[2]) == 1.5 && Interpolated(amplitude, 1) == 1.5
  {
  }

  /** The parabola through the three amplitudes at -1, 0 and 1. */
  function Parabola(left: real, center: real, right: real, x: real): real {
    center + 0.5 * (right - left) * x + 0.5 * Curvature(left, center, right) * (x * x)
  }

  lemma ParabolaMeetsBins(left: real, center: real, right: real)
    ensures Parabola(left, center, right, -1.0) == left
    ensures Parabola(left, center, right, 0.0) == center
    ensures Parabola(left, center, right, 1.0) == right
  {
  }

  /** At a peak, the offset is where the parabola through the three bins is highest. */
  lemma OffsetIsVertex(left: real, center: real, right: real, x: real)
    requires Curvature(left, center, right) < 0.0
    ensures Parabola(left, center, right, x) <= Parabola(left, center, right, Offset(left, center, right))
    ensures Parabola(left, center, right, -1.0) == left
    ensures Parabola(left, center, right, 0.0) == center
    ensures Parabola(left, center, right, 1.0) == right
  {
    ParabolaMeetsBins(left, center, right);
    var c, d := Curvature(left, center, right), Offset(left, center, right);
    var e := x - d;
    assert c * d == 0.5 * (left - right);
    VertexIdentity(left, center, right, d, e);
    assert e * e >= 0.0;
    assert 0.5 * c * (e * e) <= 0.0;
    assert d + e == x;
  }

  lemma VertexIdentity(left: real, center: real, right: real, d: real, e: real)
    requires Curvature(left, center, right) * d == 0.5 * (left - right)
    ensures Parabola(left, center, right, d + e)
         == Parabola(left, center, right, d) + 0.5 * Curvature(left, center, right) * (e * e)
  {
    var c := Curvature(left, center, right);
    assert (d + e) * (d + e) == d * d + 2.0 * (d * e) + e * e;
    assert 0.5 * c * (2.0 * (d * e)) == c * d * e;
    assert 0.5 * c * ((d + e) * (d + e)) == 0.5 * c * (d * d) + c * d * e + 0.5 * c * (e * e);
    assert 0.5 * (right - left) * (d + e) == 0.5 * (right - left) * d + 0.5 * (right - left) * e;
    assert c * d * e == 0.5 * (left - right) * e;
  }

  /** The interpolated bin, case by case: for a bin whose curvature is above 1e-12 in magnitude, unless the
      amplitudes fall through bin 1, it is the bin plus the offset, which is where the parabola is highest if
      that is curved downwards; for a flat one and for bin 511 it is the bin itself. */
  lemma InterpolatedIsVertex(amplitude: seq<real>, peak: nat, x: real)
    requires |amplitude| == BINS && FirstLargest(amplitude, peak, BINS)
    ensures peak + 1 == BINS ==> Interpolated(amplitude, peak) == 511.0
    ensures peak + 1 < BINS ==>
              var left, center, right := amplitude[peak - 1], amplitude[peak], amplitude[peak + 1];
              var c, at := left - 2.0 * center + right, Interpolated(amplitude, peak) - peak as real;
              if -0.000000000001 <= c <= 0.000000000001 then at == 0.0
              else if peak == 1 && left > center > right then at == 0.5 || at == -0.5
              else
                && at * c == 0.5 * (left - right)
                && (c < 0.0 ==> Parabola(left, center, right, x) <= Parabola(left, center, right, at))
  {
    if peak + 1 < BINS {
      var left, center, right := amplitude[peak - 1], amplitude[peak], amplitude[peak + 1];
      if Curvature(left, center, right) != 0.0 {
        WhenClampActs(amplitude, peak);
        OffsetTimesCurvature(left, center, right);
        if Curvature(left, center, right) < 0.0 {
          OffsetIsVertex(left, center, right, x);
        }
      }
      hide Parabola, FirstLargest, Offset;
    }
  }

  lemma OffsetTimesCurvature(left: real, center: real, right: real)
    requires Curvature(left, center, right) != 0.0
    ensures Offset(left, center, right) * Curvature(left, center, right) == 0.5 * (left - right)
  {
  }

  /** The interpolated bin never leaves the half-bin around the peak, nor goes beyond bin 511. */
  lemma InterpolatedBounds(amplitude: seq<real>, peak: nat)
    requires |amplitude| == BINS && 1 <= peak < BINS
    ensures 0.5 <= Interpolated(amplitude, peak) <= 511.0
    ensures Abs(Interpolated(amplitude, peak) - peak as real) <= 0.5
  {
    hide Offset, Curvature;
  }

  lemma NonNegative(x: real, y: real)
    requires x >= 0.0 && y >= 0.0
    ensures x * y >= 0.0
  {
  }

  lemma Scaled(bin: real, rate: real)
    requires 0.0 <= bin <= 511.0 && rate >= 0.0
    ensures 0.0 <= Product(bin, rate) <= Product(511.0, rate)
  {
    NonNegative(bin, rate);
    NonNegative(511.0 - bin, rate);
    assert (511.0 - bin) * rate == 511.0 * rate - bin * rate;
  }

  /** Rounding half up against a whole limit. */
  lemma RoundedAtMost(product: real, n: int)
    ensures Rounded(product) <= n <==> product / 1024.0 * 1000.0 < n as real + 0.5
    ensures product >= 0.0 ==> Rounded(product) >= 0
  {
  }

  /** Within half a millihertz of bin * rate / 1024. */
  predicate NearestMillihz(millihz: int, bin: real, sampleRateHz: u32) {
    -0.5 <= millihz as real - bin * (sampleRateHz as real) / 1024.0 * 1000.0 <= 0.5
  }

  lemma MillihzIsNearest(bin: real, sampleRateHz: u32)
    ensures NearestMillihz(Millihz(bin, sampleRateHz), bin, sampleRateHz)
  {
    RoundedIsNearest(bin * (sampleRateHz as real));
  }

  lemma RoundedIsNearest(product: real)
    ensures -0.5 <= Rounded(product) as real - product / 1024.0 * 1000.0 <= 0.5
  {
  }

  lemma LimitAsReal(sampleRateHz: u32)
    ensures var limit, rate := sampleRateHz / 2 * 1000, sampleRateHz as real;
            limit as real == if sampleRateHz % 2 == 0 then 500.0 * rate else 500.0 * rate - 500.0
  {
    if sampleRateHz % 2 == 0 {
      assert sampleRateHz / 2 * 1000 == 500 * sampleRateHz;
    } else {
      assert sampleRateHz / 2 * 1000 == 500 * sampleRateHz - 500;
    }
  }

  /** The highest frequency there is, that of bin 511, is within the limit exactly if the rate is even
      or at least 512 Hz. */
  lemma HighestWithinLimit(sampleRateHz: u32)
    requires sampleRateHz > 0
    ensures Millihz(511.0, sampleRateHz) <= sampleRateHz / 2 * 1000 <==> sampleRateHz % 2 == 0 || sampleRateHz >= 512
  {
    var rate := sampleRateHz as real;
    LimitAsReal(sampleRateHz);
    RoundedAtMost(511.0 * rate, sampleRateHz / 2 * 1000);
    if sampleRateHz < 512 {
      assert rate <= 511.0;
    } else {
      assert rate >= 512.0;
    }
  }

  lemma RoundedOrder(a: real, b: real)
    requires 0.0 <= a <= b
    ensures 0 <= Rounded(a) <= Rounded(b)
  {
  }

  lemma LowerBinsAreLower(bin: real, sampleRateHz: u32)
    requires 0.0 <= bin <= 511.0
    ensures 0 <= Millihz(bin, sampleRateHz) <= Millihz(511.0, sampleRateHz)
  {
    hide Rounded, Product;
    var rate := sampleRateHz as real;
    Scaled(bin, rate);
    RoundedOrder(Product(bin, rate), Product(511.0, rate));
  }

  lemma LimitFits(sampleRateHz: u32)
    requires sampleRateHz / 2 * 1000 < TWO_32
    ensures NyquistMillihz(sampleRateHz) == sampleRateHz / 2 * 1000
  {
  }

  /** So the dominant frequency is at most 511/1024 of the sample rate (rounded to a millihertz), and
      the health monitor's Nyquist test cannot fire, if its limit fits 32 bits and the rate is even or at
      least 512 Hz. */
  lemma NyquistTestNeverFires(amplitude: seq<real>, peak: nat, sampleRateHz: u32)
    requires |amplitude| == BINS && 1 <= peak < BINS && sampleRateHz > 0
    requires sampleRateHz / 2 * 1000 < TWO_32
    requires sampleRateHz % 2 == 0 || sampleRateHz >= 512
    ensures 0 <= Millihz(Interpolated(amplitude, peak), sampleRateHz) <= NyquistMillihz(sampleRateHz)
    ensures !AboveNyquist(Millihz(Interpolated(amplitude, peak), sampleRateHz), sampleRateHz)
  {
    InterpolatedBounds(amplitude, peak);
    LimitFits(sampleRateHz);
    hide Interpolated, Millihz, NyquistMillihz;
    LowerBinsAreLower(Interpolated(amplitude, peak), sampleRateHz);
    HighestWithinLimit(sampleRateHz);
  }

  /** The highest frequency against the limit as the code computes it: from 8589936 Hz on the limit wraps
      and is far too low. */
  lemma HighestAgainstLimit(sampleRateHz: u32)
    requires sampleRateHz > 0
    ensures Millihz(511.0, sampleRateHz) <= NyquistMillihz(sampleRateHz)
       <==> sampleRateHz / 2 * 1000 < TWO_32 && (sampleRateHz % 2 == 0 || sampleRateHz >= 512)
  {
    HighestWithinLimit(sampleRateHz);
    var limit := sampleRateHz / 2 * 1000;
    if limit >= TWO_32 {
      WrappedLimit(limit);
      WrappedLimitIsLow(sampleRateHz);
    }
    hide Millihz;
  }

  lemma WrappedLimit(limit: nat)
    requires limit >= TWO_32
    ensures limit % TWO_32 <= limit - TWO_32
  {
  }

  /** The unwrapped limit is less than 2^32 above the highest frequency. */
  lemma WrappedLimitIsLow(sampleRateHz: u32)
    ensures Millihz(511.0, sampleRateHz) > sampleRateHz / 2 * 1000 - TWO_32
  {
    var rate := sampleRateHz as real;
    LimitAsReal(sampleRateHz);
    RoundedAtMost(511.0 * rate, sampleRateHz / 2 * 1000 - TWO_32);
    assert rate <= (TWO_32 as real);
  }

  lemma HasLastBin() returns (amplitude: seq<real>)
    ensures |amplitude| == BINS && FirstLargest(amplitude, BINS - 1, BINS)
    ensures Interpolated(amplitude, BINS - 1) == 511.0
  {
    amplitude := seq(BINS, i => if i == BINS - 1 then 1.0 else 0.0);
  }

  /** The Nyquist test cannot fire at any peak, exactly if the limit fits 32 bits and the rate is even or at
      least 512 Hz; otherwise a peak in the last bin trips it. */
  lemma NyquistTestExact(sampleRateHz: u32)
    requires sampleRateHz > 0
    ensures (forall amplitude: seq<real>, peak: nat ::
               |amplitude| == BINS && FirstLargest(amplitude, peak, BINS) ==>
                 !AboveNyquist(Millihz(Interpolated(amplitude, peak), sampleRateHz), sampleRateHz))
       <==> sampleRateHz / 2 * 1000 < TWO_32 && (sampleRateHz % 2 == 0 || sampleRateHz >= 512)
  {
    HighestAgainstLimit(sampleRateHz);
    if sampleRateHz / 2 * 1000 < TWO_32 && (sampleRateHz % 2 == 0 || sampleRateHz >= 512) {
      forall amplitude: seq<real>, peak: nat | |amplitude| == BINS && FirstLargest(amplitude, peak, BINS)
        ensures !AboveNyquist(Millihz(Interpolated(amplitude, peak), sampleRateHz), sampleRateHz)
      {
        NyquistTestNeverFires(amplitude, peak, sampleRateHz);
      }
    } else {
      var amplitude := HasLastBin();
      hide Millihz, Interpolated, NyquistMillihz;
      assert |amplitude| == BINS && FirstLargest(amplitude, BINS - 1, BINS);
    }
  }

  lemma LargestIsLoudest(raw: seq<real>, amplitude: seq<real>, peak: nat)
    requires Magnitudes(raw) && |amplitude| == BINS && FirstLargest(amplitude, peak, BINS)
    requires forall i :: 0 <= i < BINS ==> amplitude[i] == Amplitude(raw, i)
    ensures forall i :: 1 <= i < BINS ==> raw[i] <= raw[peak]
    ensures forall i :: 1 <= i < peak ==> raw[i] < raw[peak]
  {
    forall i | 1 <= i < BINS
      ensures raw[i] <= raw[peak] && (i < peak ==> raw[i] < raw[peak])
    {
      assert amplitude[i] == raw[i] * 4.0 / 1024.0 && amplitude[peak] == raw[peak] * 4.0 / 1024.0;
    }
  }

  /** The interpolation step of the code. */
  method Interpolate(amplitude: seq<real>, peak: nat) returns (bin: real)
    requires |amplitude| == BINS && 1 <= peak < BINS
    ensures bin == Interpolated(amplitude, peak)
  {
    bin := peak as real;
    if peak > 0 && peak + 1 < BINS {
      var left, center, right := amplitude[peak - 1], amplitude[peak], amplitude[peak + 1];
      var denominator := left - 2.0 * center + right;
      if Abs(denominator) > FLAT {
        var delta := 0.5 * (left - right) / denominator;
        if delta < -0.5 {
          delta := -0.5;
        }
        if delta > 0.5 {
          delta := 0.5;
        }
        bin := bin + delta;
      }
    }
  }

  /** From the transformed bins to the dominant frequency, which comes from the first of the loudest
      bins other than the constant one and passes the health monitor's test. */
  method DominantMillihz(raw: seq<real>, sampleRateHz: u32) returns (millihz: int, peak: nat)
    requires Magnitudes(raw) && sampleRateHz > 0
    ensures 1 <= peak < BINS && (forall i :: 1 <= i < BINS ==> raw[i] <= raw[peak])
    ensures forall i :: 1 <= i < peak ==> raw[i] < raw[peak]
    ensures exists amplitude: seq<real> :: Scaling(raw, amplitude)
                                           && millihz == Millihz(Interpolated(amplitude, peak), sampleRateHz)
                                           && NearestMillihz(millihz, Interpolated(amplitude, peak), sampleRateHz)
    ensures sampleRateHz / 2 * 1000 < TWO_32 && (sampleRateHz % 2 == 0 || sampleRateHz >= 512) ==>
              0 <= millihz <= NyquistMillihz(sampleRateHz)
  {
    var amplitude;
    amplitude, peak := FindPeak(raw);
    LargestIsLoudest(raw, amplitude, peak);
    assert Scaling(raw, amplitude);
    hide Interpolated, Millihz, NyquistMillihz, Magnitudes, FirstLargest, Scaling, NearestMillihz;
    var bin := Interpolate(amplitude, peak);
    millihz := Millihz(bin, sampleRateHz);
    MillihzIsNearest(bin, sampleRateHz);
    if sampleRateHz / 2 * 1000 < TWO_32 && (sampleRateHz % 2 == 0 || sampleRateHz >= 512) {
      NyquistTestNeverFires(amplitude, peak, sampleRateHz);
    }
  }

  ghost predicate Scaling(raw: seq<real>, amplitude: seq<real>) {
    |amplitude| == BINS == |raw| && forall i :: 0 <= i < BINS ==> amplitude[i] == Amplitude(raw, i)
  }
}
