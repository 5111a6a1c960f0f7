/** CRC-16/CCITT-FALSE: the bit-serial register of core/telemetry.c and tools/spectrum_monitor.py,
    against polynomial division. */
module Crc {
  import opened Arithmetic
  import opened Bytes
  import opened Polynomials

  /** Bitwise exclusive or. */
  function Xor(a: nat, b: nat): nat {
    if a == 0 && b == 0 then 0
    else (if a % 2 == b % 2 then 0 else 1) + 2 * Xor(a / 2, b / 2)
  }

  lemma {:induction false} XorBound(a: nat, b: nat, n: nat)
    requires a < Pow2(n) && b < Pow2(n)
    ensures Xor(a, b) < Pow2(n)
  {
    if n > 0 {
      XorBound(a / 2, b / 2, n - 1);
    }
  }

  lemma Word()
    ensures Pow2(16) == 0x1_0000 && Pow2(8) == 0x100
  {
    assert Pow2(8) == 0x100;
    Pow2Adds(8, 8);
  }

  function Xor16(a: u16, b: u16): u16 {
    Word();
    XorBound(a, b, 16);
    Xor(a, b)
  }

  /** One shift of the register: `crc << 1`, truncated, with 0x1021 folded in when bit 15 falls out. */
  function ShiftOnce(crc: u16): u16 {
    if crc >= 0x8000 then Xor16(2 * crc - 0x1_0000, 0x1021) else 2 * crc
  }

  function Shifts(crc: u16, n: nat): u16 {
    if n == 0 then crc else ShiftOnce(Shifts(crc, n - 1))
  }

  function ByteStep(crc: u16, b: byte): u16 {
    Shifts(Xor16(crc, 0x100 * b), 8)
  }

  /** The register after the bytes of `data`, started from `start`. */
  function Register(start: u16, data: seq<byte>): u16 {
    if data == [] then start else ByteStep(Register(start, data[..|data| - 1]), data[|data| - 1])
  }

  function Crc16(data: seq<byte>): u16 {
    Register(0xFFFF, data)
  }

  method Crc16CcittFalse(data: array<byte>, length: nat) returns (crc: u16)
    requires length <= data.Length
    ensures crc == Crc16(data[..length])
  {
    crc := 0xFFFF;
    for i := 0 to length
      invariant crc == Register(0xFFFF, data[..i])
    {
      crc := Xor16(crc, 0x100 * (data[i] as int));
      ghost var before := crc;
      for bit := 0 to 8
        invariant crc == Shifts(before, bit)
      {
        crc := if crc >= 0x8000 then Xor16(2 * crc - 0x1_0000, 0x1021) else 2 * crc;
      }
      assert data[..i + 1][..i] == data[..i];
    }
  }

  /** The bits of the bytes, first byte highest, as a polynomial. */
  function MessagePoly(data: seq<byte>): Poly {
    if data == [] then {} else Add(Shift(MessagePoly(data[..|data| - 1]), 8), Digits(data[|data| - 1]))
  }

  lemma {:induction false} XorDigits(a: nat, b: nat)
    ensures Digits(Xor(a, b)) == Add(Digits(a), Digits(b))
  {
    if a == 0 && b == 0 {
    } else {
      XorDigits(a / 2, b / 2);
      XorUnfold(a, b);
      DigitsUnfold(a);
      DigitsUnfold(b);
      DigitsUnfold(Xor(a, b));
      hide Digits, TimesX, Xor;
      TimesXAdds(Digits(a / 2), Digits(b / 2));
    }
  }

  lemma XorUnfold(a: nat, b: nat)
    ensures Xor(a, b) / 2 == Xor(a / 2, b / 2)
    ensures Xor(a, b) % 2 == if a % 2 == b % 2 then 0 else 1
  {
  }

  lemma DigitsUnfold(v: nat)
    ensures Digits(v) == Add(if v % 2 == 1 then {0} else {}, TimesX(Digits(v / 2)))
  {
    if v == 0 {
      assert TimesX({}) == {};
    }
  }

  lemma {:induction false} DigitsBelow(v: nat, n: nat)
    requires v < Pow2(n)
    ensures Below(Digits(v), n)
  {
    if n > 0 {
      DigitsBelow(v / 2, n - 1);
    }
  }

  lemma {:induction false} DigitsInjective(a: nat, b: nat)
    requires Digits(a) == Digits(b)
    ensures a == b
  {
    DigitsUnfold(a);
    DigitsUnfold(b);
    assert 0 in Digits(a) <==> a % 2 == 1;
    assert 0 in Digits(b) <==> b % 2 == 1;
    if a > 0 || b > 0 {
      assert TimesX(Digits(a / 2)) == TimesX(Digits(b / 2)) by {
        assert forall e: nat :: e in TimesX(Digits(a / 2)) <==> e in Digits(a) && e > 0;
        assert forall e: nat :: e in TimesX(Digits(b / 2)) <==> e in Digits(b) && e > 0;
      }
      TimesXInjective(Digits(a / 2), Digits(b / 2));
      DigitsInjective(a / 2, b / 2);
    }
  }

  lemma HalvedProduct(low: nat, high: nat, k: nat)
    requires k > 0
    ensures Pow2(k) * high >= 0
    ensures var v := low + Pow2(k) * high; v % 2 == low % 2 && v / 2 == low / 2 + Pow2(k - 1) * high
  {
    var h := Pow2(k - 1) * high;
    assert Pow2(k) * high == 2 * h;
  }

  /** Digits of a number split at bit k. */
  lemma {:induction false} DigitsSplit(low: nat, high: nat, k: nat)
    requires low < Pow2(k)
    ensures Digits(low + Pow2(k) * high) == Add(Digits(low), Shift(Digits(high), k))
  {
    if k == 0 {
      assert Digits(low) == {};
    } else {
      var v := low + Pow2(k) * high;
      HalvedProduct(low, high, k);
      DigitsSplit(low / 2, high, k - 1);
      DigitsUnfold(v);
      DigitsUnfold(low);
      hide Digits, TimesX;
      TimesXAdds(Digits(low / 2), Shift(Digits(high), k - 1));
    }
  }

  lemma {:induction false} ShiftOne(k: nat)
    ensures Shift({0}, k) == {k}
  {
    if k > 0 {
      ShiftOne(k - 1);
      assert TimesX({k - 1}) == {k};
    }
  }

  lemma DigitsOfOne()
    ensures Digits(1) == {0}
  {
    DigitsUnfold(1);
    assert Digits(0) == {};
    assert TimesX({}) == {};
  }

  lemma TopBit(low: nat, k: nat)
    requires low < Pow2(k)
    ensures Digits(low + Pow2(k)) == Add(Digits(low), {k})
  {
    hide Digits, Shift;
    DigitsOfOne();
    DigitsSplit(low, 1, k);
    ShiftOne(k);
  }

  lemma GeneratorPowers()
    ensures Pow2(5) == 0x20 && Pow2(12) == 0x1000
  {
    Word();
    assert Pow2(4) == 16;
    Pow2Adds(8, 4);
  }

  lemma GeneratorSum()
    ensures Add(Add({0}, {5}), {12}) == {12, 5, 0}
  {
  }

  lemma GeneratorDigits()
    ensures Digits(0x1021) == {12, 5, 0}
  {
    hide *;
    GeneratorPowers();
    DigitsOfOne();
    TopBit(1, 5);
    TopBit(0x21, 12);
    GeneratorSum();
  }

  lemma GeneratorTerms()
    ensures TimesG({0}) == {16, 12, 5, 0}
  {
    hide Shift;
    ShiftOne(16);
    ShiftOne(12);
    ShiftOne(5);
  }

  lemma FoldTop(d: Poly)
    requires Below(d, 16)
    ensures Add(Add(d, {16}), Add(d, {12, 5, 0})) == {16, 12, 5, 0}
  {
    assert 16 !in d;
  }

  lemma DigitsDoubled(v: nat)
    ensures Digits(2 * v) == TimesX(Digits(v))
  {
    DigitsUnfold(2 * v);
    assert 2 * v / 2 == v;
    hide Digits, TimesX;
    assert Add({}, TimesX(Digits(v))) == TimesX(Digits(v));
  }

  /** With bit 15 set, the shift moves it to x^16, and the register folds in the rest of the generator. */
  lemma ShiftedOut(crc: u16)
    requires crc >= 0x8000
    ensures var low := Digits(2 * crc - 0x1_0000);
            && Below(low, 16) && Digits(2 * crc) == Add(low, {16})
            && Digits(ShiftOnce(crc)) == Add(low, {12, 5, 0})
  {
    Word();
    var low := 2 * crc - 0x1_0000;
    hide Digits, Pow2, Xor;
    TopBit(low, 16);
    DigitsBelow(low, 16);
    GeneratorDigits();
    XorDigits(low, 0x1021);
  }

  /** Shifting the register multiplies it by x, modulo the generator. */
  lemma ShiftIsTimesX(crc: u16)
    ensures Congruent(TimesX(Digits(crc)), Digits(ShiftOnce(crc)))
  {
    DigitsDoubled(crc);
    if crc < 0x8000 {
      hide Digits, TimesX, Congruent;
      SameIsCongruent(Digits(2 * crc));
    } else {
      hide Digits, TimesX, Congruent, ShiftOnce, TimesG, Add, Below;
      ShiftedOut(crc);
      FoldTop(Digits(2 * crc - 0x1_0000));
      GeneratorTerms();
      CongruentIs(Digits(2 * crc), Digits(ShiftOnce(crc)), {0});
    }
  }

  lemma {:induction false} ShiftsIsTimesPower(crc: u16, n: nat)
    ensures Congruent(Shift(Digits(crc), n), Digits(Shifts(crc, n)))
  {
    if n == 0 {
      SameIsCongruent(Digits(crc));
    } else {
      ShiftsIsTimesPower(crc, n - 1);
      CongruentTimesX(Shift(Digits(crc), n - 1), Digits(Shifts(crc, n - 1)));
      ShiftIsTimesX(Shifts(crc, n - 1));
      CongruentChains(Shift(Digits(crc), n), TimesX(Digits(Shifts(crc, n - 1))), Digits(Shifts(crc, n)));
    }
  }

  lemma HighDigits(b: byte)
    ensures Digits(0x100 * b) == Shift(Digits(b), 8)
  {
    Word();
    DigitsSplit(0, b, 8);
    assert Digits(0) == {};
    assert Add({}, Shift(Digits(b), 8)) == Shift(Digits(b), 8);
  }

  /** What division must leave: the message times x^16, with the start value above it. */
  function Dividend(start: u16, data: seq<byte>): Poly {
    Add(Shift(MessagePoly(data), 16), Shift(Digits(start), 8 * |data|))
  }

  lemma MessageAppend(data: seq<byte>, b: byte)
    ensures MessagePoly(data + [b]) == Add(Shift(MessagePoly(data), 8), Digits(b))
  {
    assert (data + [b])[..|data + [b]| - 1] == data;
  }

  lemma DividendGrows(start: u16, data: seq<byte>, b: byte)
    ensures Dividend(start, data + [b]) == Add(Shift(Dividend(start, data), 8), Shift(Digits(b), 16))
  {
    MessageAppend(data, b);
    hide Shift, Digits, MessagePoly, Add;
    var m, s := MessagePoly(data), Digits(start);
    ShiftAdds(Shift(m, 8), Digits(b), 16);
    ShiftShifts(m, 8, 16);
    ShiftShifts(m, 16, 8);
    ShiftShifts(s, 8 * |data|, 8);
    ShiftAdds(Shift(m, 16), Shift(s, 8 * |data|), 8);
    SwapLast(Shift(m, 24), Shift(Digits(b), 16), Shift(s, 8 * |data| + 8));
  }

  lemma SwapLast(x: Poly, y: Poly, z: Poly)
    ensures Add(Add(x, y), z) == Add(Add(x, z), y)
  {
  }

  /** The register is always congruent to the dividend. */
  lemma {:induction false} RegisterCongruent(start: u16, data: seq<byte>)
    ensures Congruent(Dividend(start, data), Digits(Register(start, data)))
  {
    if data == [] {
      EmptyDividend(start);
      SameIsCongruent(Digits(start));
    } else {
      var rest, b := data[..|data| - 1], data[|data| - 1];
      var crc := Register(start, rest);
      RegisterCongruent(start, rest);
      assert rest + [b] == data;
      assert Register(start, data) == ByteStep(crc, b);
      RegisterStep(start, rest, b, crc);
    }
  }

  lemma RegisterStep(start: u16, rest: seq<byte>, b: byte, crc: u16)
    requires Congruent(Dividend(start, rest), Digits(crc))
    ensures Congruent(Dividend(start, rest + [b]), Digits(ByteStep(crc, b)))
  {
    hide Congruent, Digits, Shift, Add, Dividend, Xor, Shifts;
    var r := Dividend(start, rest);
    var mixed := Xor16(crc, 0x100 * (b as int));
    DividendGrows(start, rest, b);
    CongruentShifts(r, Digits(crc), 8);
    CongruentAdds(Shift(r, 8), Shift(Digits(crc), 8), Shift(Digits(b), 16));
    XorDigits(crc, 0x100 * (b as int));
    HighDigits(b);
    ShiftAdds(Digits(crc), Shift(Digits(b), 8), 8);
    ShiftShifts(Digits(b), 8, 8);
    ShiftsIsTimesPower(mixed, 8);
    CongruentChains(Dividend(start, rest + [b]), Shift(Digits(mixed), 8), Digits(Shifts(mixed, 8)));
  }

  lemma EmptyDividend(start: u16)
    ensures Dividend(start, []) == Digits(start)
  {
    ZeroShift(16);
    assert Add({}, Digits(start)) == Digits(start);
  }

  /** The checksum of any message is the one 16-bit word congruent to its dividend: the remainder
      of polynomial division by the generator. */
  lemma CrcIsRemainder(data: seq<byte>, word: u16)
    ensures word == Crc16(data) <==> Congruent(Dividend(0xFFFF, data), Digits(word))
  {
    RegisterCongruent(0xFFFF, data);
    var crc := Crc16(data);
    if Congruent(Dividend(0xFFFF, data), Digits(word)) {
      hide Congruent, Digits;
      CongruentReverses(Dividend(0xFFFF, data), Digits(word));
      CongruentChains(Digits(word), Dividend(0xFFFF, data), Digits(crc));
      Word();
      DigitsBelow(word, 16);
      DigitsBelow(crc, 16);
      RemainderUnique(Digits(word), Digits(crc));
      DigitsInjective(word, crc);
    }
  }

  lemma {:induction false} MessageJoins(a: seq<byte>, b: seq<byte>)
    ensures MessagePoly(a + b) == Add(Shift(MessagePoly(a), 8 * |b|), MessagePoly(b))
  {
    if b == [] {
      assert a + b == a;
      assert Add(MessagePoly(a), {}) == MessagePoly(a);
    } else {
      var rest, last := b[..|b| - 1], b[|b| - 1];
      MessageJoins(a, rest);
      assert (a + b)[..|a + b| - 1] == a + rest;
      var m, r, d := MessagePoly(a), MessagePoly(rest), Digits(last);
      assert MessagePoly(b) == Add(Shift(r, 8), d);
      assert MessagePoly(a + b) == Add(Shift(MessagePoly(a + rest), 8), d);
      hide MessagePoly, Shift, Digits;
      ShiftAdds(Shift(m, 8 * |rest|), r, 8);
      ShiftShifts(m, 8 * |rest|, 8);
      AddAssociates(Shift(m, 8 * |b|), Shift(r, 8), d);
    }
  }

  lemma AddAssociates(x: Poly, y: Poly, z: Poly)
    ensures Add(Add(x, y), z) == Add(x, Add(y, z))
  {
  }

  /** Two messages of one length get the same checksum exactly when the generator divides their
      difference. */
  lemma UndetectedErrors(a: seq<byte>, b: seq<byte>)
    requires |a| == |b|
    ensures Crc16(a) == Crc16(b) <==> Congruent(Add(MessagePoly(a), MessagePoly(b)), {})
  {
    hide Congruent, Digits, Shift, MessagePoly;
    var p, q, top := Shift(MessagePoly(a), 16), Shift(MessagePoly(b), 16), Shift(Digits(0xFFFF), 8 * |a|);
    var error := Add(MessagePoly(a), MessagePoly(b));
    ShiftAdds(MessagePoly(a), MessagePoly(b), 16);
    CrcIsRemainder(a, Crc16(a));
    CrcIsRemainder(b, Crc16(b));
    ZeroShift(16);
    if Crc16(a) == Crc16(b) {
      CongruentReverses(Dividend(0xFFFF, b), Digits(Crc16(b)));
      CongruentChains(Dividend(0xFFFF, a), Digits(Crc16(a)), Dividend(0xFFFF, b));
      CongruentAdds(Add(p, top), Add(q, top), Add(q, top));
      assert Add(Add(p, top), Add(q, top)) == Add(p, q);
      assert Add(Add(q, top), Add(q, top)) == {};
      DivideByPower(error, 16);
    }
    if Congruent(error, {}) {
      CongruentShifts(error, {}, 16);
      CongruentAdds(Add(p, q), {}, Add(q, top));
      assert Add(Add(p, q), Add(q, top)) == Add(p, top);
      assert Add({}, Add(q, top)) == Add(q, top);
      CongruentReverses(Dividend(0xFFFF, a), Dividend(0xFFFF, b));
      CongruentChains(Dividend(0xFFFF, b), Dividend(0xFFFF, a), Digits(Crc16(a)));
      CrcIsRemainder(b, Crc16(a));
    }
  }

  /** A burst of at most 16 bits, anywhere in the message, changes the checksum. */
  lemma BurstDetected(a: seq<byte>, b: seq<byte>, burst: Poly, at: nat)
    requires |a| == |b| && burst != {} && Below(burst, 16)
    requires Add(MessagePoly(a), MessagePoly(b)) == Shift(burst, at)
    ensures Crc16(a) != Crc16(b)
  {
    hide Congruent, MessagePoly, Shift, Crc16;
    UndetectedErrors(a, b);
    if Congruent(Shift(burst, at), {}) {
      DivideByPower(burst, at);
      RemainderUnique(burst, {});
    }
  }
}
