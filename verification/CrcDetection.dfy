/** Which transmission errors the checksum of a telemetry body always catches. */
module CrcDetection {
  import opened Bytes
  import opened Polynomials
  import opened Crc

  lemma {:induction false} MessageBelow(data: seq<byte>)
    ensures Below(MessagePoly(data), 8 * |data|)
  {
    if data != [] {
      var rest, last := data[..|data| - 1], data[|data| - 1];
      MessageBelow(rest);
      Word();
      DigitsBelow(last, 8);
      forall e: nat | e in MessagePoly(data)
        ensures e < 8 * |data|
      {
        ShiftMember(MessagePoly(rest), 8, e);
      }
    }
  }

  /** Parts that do not overlap add up without cancelling. */
  lemma SplitSum(high: Poly, low: Poly, n: nat)
    requires Below(low, n)
    ensures |Add(Shift(high, n), low)| == |high| + |low|
    ensures forall e: nat :: e < n ==> (e in Add(Shift(high, n), low) <==> e in low)
    ensures forall e: nat :: e in high <==> e + n in Add(Shift(high, n), low)
  {
    forall e: nat
      ensures e < n ==> e !in Shift(high, n)
      ensures e in high <==> e + n in Shift(high, n)
    {
      ShiftMember(high, n, e);
      ShiftMember(high, n, e + n);
    }
    ShiftSize(high, n);
    hide Shift;
    DisjointSum(Shift(high, n), low);
  }

  lemma DisjointSum(p: Poly, q: Poly)
    requires p !! q
    ensures Add(p, q) == p + q && |Add(p, q)| == |p| + |q|
  {
  }

  lemma SplitInjective(high: Poly, low: Poly, high': Poly, low': Poly, n: nat)
    requires Below(low, n) && Below(low', n)
    requires Add(Shift(high, n), low) == Add(Shift(high', n), low')
    ensures high == high' && low == low'
  {
    hide Shift, Add;
    SplitSum(high, low, n);
    SplitSum(high', low', n);
  }

  /** The polynomial of a message of known length determines the message. */
  lemma {:induction false} MessageInjective(a: seq<byte>, b: seq<byte>)
    requires |a| == |b| && MessagePoly(a) == MessagePoly(b)
    ensures a == b
  {
    if a != [] {
      var ra, rb, la, lb := a[..|a| - 1], b[..|b| - 1], a[|a| - 1], b[|b| - 1];
      Word();
      DigitsBelow(la, 8);
      DigitsBelow(lb, 8);
      SplitInjective(MessagePoly(ra), Digits(la), MessagePoly(rb), Digits(lb), 8);
      DigitsInjective(la, lb);
      MessageInjective(ra, rb);
      assert a == ra + [la] && b == rb + [lb];
    }
  }

  /** A change confined to one byte or to two neighbouring bytes always changes the checksum. */
  lemma NeighbouringBytes(before: seq<byte>, x: seq<byte>, y: seq<byte>, after: seq<byte>)
    requires |x| == |y| <= 2 && x != y
    ensures Crc16(before + x + after) != Crc16(before + y + after)
  {
    hide MessagePoly, Shift, Crc16, Add;
    var mx, my, n := MessagePoly(x), MessagePoly(y), 8 * |after|;
    var head := Shift(MessagePoly(before), 8 * |x|);
    MessageJoins(before, x);
    MessageJoins(before, y);
    MessageJoins(before + x, after);
    MessageJoins(before + y, after);
    CommonPartsCancel(head, mx, my, MessagePoly(after), n);
    MessageBelow(x);
    MessageBelow(y);
    SumOfDifferent(mx, my);
    if mx == my {
      MessageInjective(x, y);
    }
    BurstDetected(before + x + after, before + y + after, Add(mx, my), n);
  }

  lemma SumOfDifferent(p: Poly, q: Poly)
    ensures Add(p, q) == {} ==> p == q
    ensures Below(p, 16) && Below(q, 16) ==> Below(Add(p, q), 16)
  {
    assert forall e :: e in p && e !in q ==> e in Add(p, q);
    assert forall e :: e in q && e !in p ==> e in Add(p, q);
  }

  lemma CommonPartsCancel(head: Poly, mx: Poly, my: Poly, tail: Poly, n: nat)
    ensures Add(Add(Shift(Add(head, mx), n), tail), Add(Shift(Add(head, my), n), tail)) == Shift(Add(mx, my), n)
  {
    ShiftAdds(Add(head, mx), Add(head, my), n);
    hide Shift;
    assert Add(Add(head, mx), Add(head, my)) == Add(mx, my);
    var p, q := Shift(Add(head, mx), n), Shift(Add(head, my), n);
    assert Add(Add(p, tail), Add(q, tail)) == Add(p, q);
  }

  /** How many bits differ between two byte strings of one length. */
  function BitDistance(a: seq<byte>, b: seq<byte>): nat
    requires |a| == |b|
  {
    if a == [] then 0
    else BitDistance(a[..|a| - 1], b[..|b| - 1]) + |Add(Digits(a[|a| - 1]), Digits(b[|b| - 1]))|
  }

  lemma {:induction false} DistanceIsErrorWeight(a: seq<byte>, b: seq<byte>)
    requires |a| == |b|
    ensures |Add(MessagePoly(a), MessagePoly(b))| == BitDistance(a, b)
  {
    if a != [] {
      var ra, rb, la, lb := a[..|a| - 1], b[..|b| - 1], a[|a| - 1], b[|b| - 1];
      DistanceIsErrorWeight(ra, rb);
      PairedSplit(MessagePoly(ra), la, MessagePoly(rb), lb);
    }
  }

  lemma PairedSplit(p: Poly, la: byte, q: Poly, lb: byte)
    ensures |Add(Add(Shift(p, 8), Digits(la)), Add(Shift(q, 8), Digits(lb)))|
         == |Add(p, q)| + |Add(Digits(la), Digits(lb))|
  {
    Word();
    DigitsBelow(la, 8);
    DigitsBelow(lb, 8);
    ShiftAdds(p, q, 8);
    hide Shift, Digits;
    var d, e := Digits(la), Digits(lb);
    SumBelow(d, e, 8);
    SplitSum(Add(p, q), Add(d, e), 8);
    Interchange(Shift(p, 8), d, Shift(q, 8), e);
  }

  lemma Interchange(x: Poly, d: Poly, y: Poly, e: Poly)
    ensures Add(Add(x, d), Add(y, e)) == Add(Add(x, y), Add(d, e))
  {
  }

  lemma SumBelow(p: Poly, q: Poly, n: nat)
    requires Below(p, n) && Below(q, n)
    ensures Below(Add(p, q), n)
  {
  }

  /** The test decode_body makes before anything else. */
  predicate ChecksumOk(body: seq<byte>) {
    |body| == 236 && Crc16(body[..234]) == GetU16(body, 234)
  }

  lemma TrailerDigits(low: byte, high: byte)
    ensures Digits(low as int + 0x100 * (high as int)) == Add(Shift(Digits(high), 8), Digits(low))
  {
    Word();
    DigitsSplit(low, high, 8);
    assert Add(Digits(low), Shift(Digits(high), 8)) == Add(Shift(Digits(high), 8), Digits(low));
  }

  /** Two bodies that both pass the checksum differ in an even number of bits: every odd number of
      bit flips, in the covered data or in the checksum field, is rejected. */
  lemma OddFlipsRejected(a: seq<byte>, b: seq<byte>)
    requires ChecksumOk(a) && ChecksumOk(b)
    ensures BitDistance(a, b) % 2 == 0
  {
    hide Congruent, MessagePoly, Digits, Shift, Crc16, Dividend;
    var da, db := a[..234], b[..234];
    var ca, cb := GetU16(a, 234), GetU16(b, 234);
    TrailerDistance(a, b);
    DistanceIsErrorWeight(da, db);
    CrcIsRemainder(da, ca);
    CrcIsRemainder(db, cb);
    ErrorIsEven(da, ca, db, cb);
  }

  lemma TrailerDistance(a: seq<byte>, b: seq<byte>)
    requires |a| == |b| == 236
    ensures BitDistance(a, b)
         == BitDistance(a[..234], b[..234]) + |Add(Digits(GetU16(a, 234)), Digits(GetU16(b, 234)))|
  {
    hide Digits, Add, Shift;
    TrailerDigits(a[234], a[235]);
    TrailerDigits(b[234], b[235]);
    PairedSplit(Digits(a[235]), a[234], Digits(b[235]), b[234]);
    assert a[..235][..234] == a[..234] && b[..235][..234] == b[..234];
    assert BitDistance(a, b) == BitDistance(a[..235], b[..235]) + |Add(Digits(a[235]), Digits(b[235]))|;
  }

  lemma ErrorIsEven(da: seq<byte>, ca: u16, db: seq<byte>, cb: u16)
    requires |da| == |db|
    requires Congruent(Dividend(0xFFFF, da), Digits(ca)) && Congruent(Dividend(0xFFFF, db), Digits(cb))
    ensures (|Add(MessagePoly(da), MessagePoly(db))| + |Add(Digits(ca), Digits(cb))|) % 2 == 0
  {
    hide MessagePoly, Digits, Shift, TimesG, Add;
    var p, q := MessagePoly(da), MessagePoly(db);
    Word();
    DigitsBelow(ca, 16);
    DigitsBelow(cb, 16);
    SumBelow(Digits(ca), Digits(cb), 16);
    SplitSum(Add(p, q), Add(Digits(ca), Digits(cb)), 16);
    ShiftAdds(p, q, 16);
    var j: Poly :| Add(Dividend(0xFFFF, da), Digits(ca)) == TimesG(j);
    var k: Poly :| Add(Dividend(0xFFFF, db), Digits(cb)) == TimesG(k);
    TimesGAdds(j, k);
    MultiplesAreEven(Add(j, k));
    StartsCancel(Shift(p, 16), Shift(q, 16), Shift(Digits(0xFFFF), 8 * |da|), Digits(ca), Digits(cb));
  }

  lemma StartsCancel(p: Poly, q: Poly, top: Poly, c: Poly, d: Poly)
    ensures Add(Add(Add(p, top), c), Add(Add(q, top), d)) == Add(Add(p, q), Add(c, d))
  {
  }
}
