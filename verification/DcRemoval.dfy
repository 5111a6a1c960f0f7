/** unpack_dual_adc of app/tasks.c: two packed ADC channels, their means removed, in place into the
    static sample buffers. */
module DcRemoval {
  import opened Bytes

  const SIZE := 1024
  const ADC_MAX := 4095

  /** packed & 0x0FFF, and (packed >> 16) & 0x0FFF. */
  function Adc(packed: u32, channel: nat): (adc: nat)
    requires channel < 2
    ensures adc <= ADC_MAX
  {
    if channel == 0 then packed % 0x1000 else packed / 0x1_0000 % 0x1000
  }

  /** Two twelve-bit values packed into a word come out again, whatever the other four bits are. */
  lemma AdcUnpacks(adc1: nat, adc2: nat, gap: nat, top: nat)
    requires adc1 <= ADC_MAX && adc2 <= ADC_MAX && gap < 16 && top < 16
    ensures var packed := adc1 + 0x1000 * gap + 0x1_0000 * adc2 + 0x1000_0000 * top;
            packed < TWO_32 && Adc(packed, 0) == adc1 && Adc(packed, 1) == adc2
  {
    var packed := adc1 + 0x1000 * gap + 0x1_0000 * adc2 + 0x1000_0000 * top;
    assert packed / 0x1_0000 == adc2 + 0x1000 * top;
  }

  function Sum(packed: seq<u32>, channel: nat): nat
    requires channel < 2
  {
    if packed == [] then 0 else Sum(packed[..|packed| - 1], channel) + Adc(packed[|packed| - 1], channel)
  }

  predicate Clips(adc: nat) {
    adc <= 4 || adc >= 4091
  }

  function Clipped(packed: seq<u32>, channel: nat): nat
    requires channel < 2
  {
    if packed == [] then 0
    else Clipped(packed[..|packed| - 1], channel) + if Clips(Adc(packed[|packed| - 1], channel)) then 1 else 0
  }

  /** The clip counter is the number of readings at most 4 or at least 4091. */
  lemma {:induction false} ClippedCounts(packed: seq<u32>, channel: nat)
    requires channel < 2
    ensures Clipped(packed, channel)
         == |set i | 0 <= i < |packed| && (Adc(packed[i], channel) <= 4 || Adc(packed[i], channel) >= 4091)|
  {
    var all := set i | 0 <= i < |packed| && (Adc(packed[i], channel) <= 4 || Adc(packed[i], channel) >= 4091);
    if packed == [] {
      assert all == {};
    } else {
      var rest, n := packed[..|packed| - 1], |packed| - 1;
      ClippedCounts(rest, channel);
      var before := set i | 0 <= i < |rest| && (Adc(rest[i], channel) <= 4 || Adc(rest[i], channel) >= 4091);
      hide Adc;
      assert all == before + if Clips(Adc(packed[n], channel)) then {n} else {};
    }
  }

  lemma {:induction false} Bounds(packed: seq<u32>, channel: nat)
    requires channel < 2
    ensures Sum(packed, channel) <= ADC_MAX * |packed| && Clipped(packed, channel) <= |packed|
  {
    if packed != [] {
      Bounds(packed[..|packed| - 1], channel);
    }
  }

  /** (sum + SIZE / 2) / SIZE */
  function Mean(packed: seq<u32>, channel: nat): nat
    requires channel < 2
  {
    (Sum(packed, channel) + SIZE / 2) / SIZE
  }

  /** (int16_t)(difference << 4) */
  function Shifted(difference: int): i16 {
    ToSigned(difference * 16 % TWO_16)
  }

  lemma ShiftWraps(difference: int)
    ensures (Shifted(difference) as int - 16 * difference) % 0x1_0000 == 0
  {
    var v := 16 * difference;
    assert v == TWO_16 * (v / TWO_16) + v % TWO_16;
    MultipleOfWord(-(v / TWO_16));
    MultipleOfWord(-(v / TWO_16) - 1);
  }

  lemma MultipleOfWord(k: int)
    ensures (0x1_0000 * k) % 0x1_0000 == 0
  {
  }

  /** The cast keeps the value exactly for differences from -2048 to 2047, and wraps by a multiple of 2^16
      for all others. */
  lemma ShiftExact(difference: int)
    ensures Shifted(difference) == 16 * difference <==> -2048 <= difference <= 2047
    ensures (Shifted(difference) as int - 16 * difference) % 0x1_0000 == 0
  {
    ShiftWraps(difference);
    if -2048 <= difference <= 2047 {
      if difference < 0 {
        assert difference * 16 % TWO_16 == difference * 16 + TWO_16;
      }
    }
  }

  function Difference(packed: seq<u32>, channel: nat, i: nat): int
    requires channel < 2 && i < |packed|
  {
    Adc(packed[i], channel) - Mean(packed, channel)
  }

  /** The differences from the mean, added up. */
  function Residual(packed: seq<u32>, channel: nat, mean: int): int
    requires channel < 2
  {
    if packed == [] then 0
    else Residual(packed[..|packed| - 1], channel, mean) + (Adc(packed[|packed| - 1], channel) - mean)
  }

  lemma {:induction false} ResidualIsRemainder(packed: seq<u32>, channel: nat, mean: int)
    requires channel < 2
    ensures Residual(packed, channel, mean) == Sum(packed, channel) - mean * |packed|
  {
    if packed != [] {
      ResidualIsRemainder(packed[..|packed| - 1], channel, mean);
      var n := |packed|;
      assert mean * n == mean * (n - 1) + mean;
    }
  }

  /** The rounded mean takes the offset out: what is left over a whole block is at most half a count per
      sample, and the mean is itself a possible conversion. */
  lemma OffsetRemoved(packed: seq<u32>, channel: nat)
    requires channel < 2 && |packed| == SIZE
    ensures -512 <= Residual(packed, channel, Mean(packed, channel)) <= 511
    ensures Mean(packed, channel) <= ADC_MAX
  {
    ResidualIsRemainder(packed, channel, Mean(packed, channel));
    Bounds(packed, channel);
  }

  /** No other whole number leaves less. */
  lemma MeanIsNearest(packed: seq<u32>, channel: nat, other: int)
    requires channel < 2 && |packed| == SIZE
    ensures Magnitude(Residual(packed, channel, Mean(packed, channel))) <= Magnitude(Residual(packed, channel, other))
  {
    ResidualIsRemainder(packed, channel, Mean(packed, channel));
    ResidualIsRemainder(packed, channel, other);
    OffsetRemoved(packed, channel);
  }

  function Magnitude(x: int): nat {
    if x < 0 then -x else x
  }

  /** A block in which one reading is far from all others does wrap: a single full-scale sample above
      an input held at zero comes out negative. */
  lemma SpikeWraps(packed: seq<u32>, spike: nat)
    requires |packed| == SIZE && spike < SIZE && packed[spike] == ADC_MAX
    requires forall i :: 0 <= i < SIZE && i != spike ==> packed[i] == 0
    ensures Mean(packed, 0) == 4 && Shifted(Difference(packed, 0, spike)) == -80
  {
    OneSpike(packed, spike);
  }

  lemma {:induction false} OneSpike(packed: seq<u32>, spike: nat)
    requires forall i :: 0 <= i < |packed| ==> packed[i] == if i == spike then ADC_MAX else 0
    ensures Sum(packed, 0) == if spike < |packed| then ADC_MAX else 0
  {
    if packed != [] {
      OneSpike(packed[..|packed| - 1], spike);
    }
  }

  /** The static buffers of the DSP task. */
  class Unpacker {
    const samples1: array<i16>
    const samples2: array<i16>
    var clipped1: u16
    var clipped2: u16

    constructor ()
      ensures fresh(samples1) && fresh(samples2) && Valid()
    {
      samples1 := new i16[SIZE](i => 0);
      samples2 := new i16[SIZE](i => 0);
      clipped1, clipped2 := 0, 0;
    }

    predicate Valid() {
      samples1.Length == samples2.Length == SIZE && samples1 != samples2
    }

    /** The first pass: sums, which fit 32 bits, and clip counts, which fit 16. */
    method Survey(packed: seq<u32>) returns (sum1: u32, sum2: u32)
      requires |packed| == SIZE
      modifies this`clipped1, this`clipped2
      ensures sum1 == Sum(packed, 0) && sum2 == Sum(packed, 1)
      ensures clipped1 == Clipped(packed, 0) && clipped2 == Clipped(packed, 1)
    {
      sum1, sum2, clipped1, clipped2 := 0, 0, 0, 0;
      for i := 0 to SIZE
        invariant sum1 == Sum(packed[..i], 0) && sum2 == Sum(packed[..i], 1)
        invariant clipped1 == Clipped(packed[..i], 0) && clipped2 == Clipped(packed[..i], 1)
      {
        SurveyStep(packed, i, 0);
        SurveyStep(packed, i, 1);
        hide Sum, Clipped, Clips;
        var adc1, adc2 := Adc(packed[i], 0), Adc(packed[i], 1);
        sum1 := sum1 + adc1;
        sum2 := sum2 + adc2;
        if Clips(adc1) {
          clipped1 := clipped1 + 1;
        }
        if Clips(adc2) {
          clipped2 := clipped2 + 1;
        }
      }
      assert packed[..SIZE] == packed;
    }

    /** Each buffer gets 16 times the difference from its channel's mean, as sixteen bits hold it, and
        the clip counters the number of readings within four of either rail. */
    method Unpack(packed: seq<u32>)
      requires Valid() && |packed| == SIZE
      modifies this`clipped1, this`clipped2, samples1, samples2
      ensures forall i :: 0 <= i < SIZE ==>
                            && samples1[i] == Shifted(Difference(packed, 0, i))
                            && samples2[i] == Shifted(Difference(packed, 1, i))
      ensures clipped1 == Clipped(packed, 0) && clipped2 == Clipped(packed, 1)
    {
      hide Sum, Clipped, Shifted, Adc;
      var sum1, sum2 := Survey(packed);
      var mean1, mean2 := (sum1 + SIZE / 2) / SIZE, (sum2 + SIZE / 2) / SIZE;
      for i := 0 to SIZE
        invariant clipped1 == Clipped(packed, 0) && clipped2 == Clipped(packed, 1)
        invariant forall j :: 0 <= j < i ==>
                                && samples1[j] == Shifted(Difference(packed, 0, j))
                                && samples2[j] == Shifted(Difference(packed, 1, j))
      {
        samples1[i] := Shifted(Adc(packed[i], 0) - mean1);
        samples2[i] := Shifted(Adc(packed[i], 1) - mean2);
      }
    }
  }

  lemma SurveyStep(packed: seq<u32>, i: nat, channel: nat)
    requires i < |packed| <= SIZE && channel < 2
    ensures Sum(packed[..i + 1], channel) == Sum(packed[..i], channel) + Adc(packed[i], channel)
    ensures Clipped(packed[..i + 1], channel)
         == Clipped(packed[..i], channel) + if Clips(Adc(packed[i], channel)) then 1 else 0
    ensures Sum(packed[..i + 1], channel) < TWO_32 && Clipped(packed[..i + 1], channel) < TWO_16
  {
    assert packed[..i + 1][..i] == packed[..i];
    Bounds(packed[..i + 1], channel);
  }

  /** Every stored sample is exact, for a whole block, exactly if no reading is more than 2048 below or
      2047 above the mean. */
  lemma SamplesExact(packed: seq<u32>, channel: nat)
    requires channel < 2
    ensures (forall i :: 0 <= i < |packed| ==>
                           Shifted(Difference(packed, channel, i)) == 16 * Difference(packed, channel, i))
       <==> (forall i :: 0 <= i < |packed| ==> -2048 <= Difference(packed, channel, i) <= 2047)
  {
    hide Shifted, Difference;
    forall i | 0 <= i < |packed|
      ensures Shifted(Difference(packed, channel, i)) == 16 * Difference(packed, channel, i)
         <==> -2048 <= Difference(packed, channel, i) <= 2047
    {
      ShiftExact(Difference(packed, channel, i));
    }
  }
}
