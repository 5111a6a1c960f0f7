/** Polynomials over the two-element field, as the finite set of exponents with coefficient one. */
module Polynomials {

  type Poly = set<nat>

  function Add(p: Poly, q: Poly): Poly {
    (p - q) + (q - p)
  }

  function TimesX(p: Poly): (r: Poly)
    ensures forall e: nat :: e in r <==> e > 0 && e - 1 in p
  {
    var r := set e | e in p :: e + 1;
    assert forall e: nat :: e in p ==> e + 1 in r;
    r
  }

  /** p * x^k */
  function Shift(p: Poly, k: nat): Poly {
    if k == 0 then p else TimesX(Shift(p, k - 1))
  }

  /** The polynomial whose coefficients are the binary digits of v. */
  function Digits(v: nat): Poly {
    if v == 0 then {} else Add(if v % 2 == 1 then {0} else {}, TimesX(Digits(v / 2)))
  }

  /** The generator x^16 + x^12 + x^5 + 1, times q. */
  function TimesG(q: Poly): Poly {
    Add(Add(Shift(q, 16), Shift(q, 12)), Add(Shift(q, 5), q))
  }

  ghost predicate Below(p: Poly, degree: nat) {
    forall e :: e in p ==> e < degree
  }

  /** p and q leave the same remainder on division by the generator. */
  ghost predicate Congruent(p: Poly, q: Poly) {
    exists k: Poly :: Add(p, q) == TimesG(k)
  }

  lemma TimesXAdds(p: Poly, q: Poly)
    ensures TimesX(Add(p, q)) == Add(TimesX(p), TimesX(q))
  {
  }

  lemma {:induction false} ShiftAdds(p: Poly, q: Poly, k: nat)
    ensures Shift(Add(p, q), k) == Add(Shift(p, k), Shift(q, k))
  {
    if k > 0 {
      ShiftAdds(p, q, k - 1);
      TimesXAdds(Shift(p, k - 1), Shift(q, k - 1));
    }
  }

  lemma {:induction false} ShiftShifts(p: Poly, j: nat, k: nat)
    ensures Shift(Shift(p, j), k) == Shift(p, j + k)
  {
    if k > 0 {
      ShiftShifts(p, j, k - 1);
    }
  }

  lemma {:induction false} ShiftMember(p: Poly, k: nat, e: nat)
    ensures e in Shift(p, k) <==> e >= k && e - k in p
  {
    if k > 0 && e > 0 {
      ShiftMember(p, k - 1, e - 1);
    }
  }

  lemma TimesGAdds(p: Poly, q: Poly)
    ensures TimesG(Add(p, q)) == Add(TimesG(p), TimesG(q))
  {
    hide Shift;
    ShiftAdds(p, q, 16);
    ShiftAdds(p, q, 12);
    ShiftAdds(p, q, 5);
  }

  lemma TimesGShifts(p: Poly)
    ensures TimesG(TimesX(p)) == TimesX(TimesG(p))
  {
    ShiftShifts(p, 1, 16);
    ShiftShifts(p, 1, 12);
    ShiftShifts(p, 1, 5);
    assert Shift(p, 1) == TimesX(p);
    hide Shift, TimesX;
    assert Shift(p, 17) == TimesX(Shift(p, 16)) && Shift(p, 13) == TimesX(Shift(p, 12))
           && Shift(p, 6) == TimesX(Shift(p, 5));
    TimesXAdds(Shift(p, 16), Shift(p, 12));
    TimesXAdds(Shift(p, 5), p);
    TimesXAdds(Add(Shift(p, 16), Shift(p, 12)), Add(Shift(p, 5), p));
  }

  lemma CongruentIs(p: Poly, q: Poly, k: Poly)
    requires Add(p, q) == TimesG(k)
    ensures Congruent(p, q)
  {
  }

  lemma SameIsCongruent(p: Poly)
    ensures Congruent(p, p)
  {
    ZeroMultiple();
    CongruentIs(p, p, {});
  }

  lemma {:induction false} ZeroShift(n: nat)
    ensures Shift({}, n) == {}
  {
    if n > 0 {
      ZeroShift(n - 1);
      assert TimesX({}) == {};
    }
  }

  lemma ZeroMultiple()
    ensures TimesG({}) == {}
  {
    hide Shift;
    ZeroShift(16);
    ZeroShift(12);
    ZeroShift(5);
  }

  lemma CongruentChains(p: Poly, q: Poly, r: Poly)
    requires Congruent(p, q) && Congruent(q, r)
    ensures Congruent(p, r)
  {
    hide TimesG;
    var j: Poly :| Add(p, q) == TimesG(j);
    var k: Poly :| Add(q, r) == TimesG(k);
    TimesGAdds(j, k);
    assert Add(Add(p, q), Add(q, r)) == Add(p, r);
    CongruentIs(p, r, Add(j, k));
  }

  lemma CongruentReverses(p: Poly, q: Poly)
    requires Congruent(p, q)
    ensures Congruent(q, p)
  {
    assert Add(p, q) == Add(q, p);
  }

  lemma CongruentAdds(p: Poly, q: Poly, r: Poly)
    requires Congruent(p, q)
    ensures Congruent(Add(p, r), Add(q, r))
  {
    assert Add(Add(p, r), Add(q, r)) == Add(p, q);
  }

  lemma CongruentTimesX(p: Poly, q: Poly)
    requires Congruent(p, q)
    ensures Congruent(TimesX(p), TimesX(q))
  {
    hide TimesG;
    var k: Poly :| Add(p, q) == TimesG(k);
    TimesXAdds(p, q);
    TimesGShifts(k);
    CongruentIs(TimesX(p), TimesX(q), TimesX(k));
  }

  lemma {:induction false} CongruentShifts(p: Poly, q: Poly, n: nat)
    requires Congruent(p, q)
    ensures Congruent(Shift(p, n), Shift(q, n))
  {
    if n > 0 {
      CongruentShifts(p, q, n - 1);
      CongruentTimesX(Shift(p, n - 1), Shift(q, n - 1));
    }
  }

  lemma {:induction false} Largest(p: Poly) returns (m: nat)
    requires p != {}
    ensures m in p && Below(p, m + 1)
  {
    var e :| e in p;
    if p == {e} {
      m := e;
    } else {
      var rest := p - {e};
      m := Largest(rest);
      assert forall x :: x in p ==> x == e || x in rest;
      if e > m {
        m := e;
      }
    }
  }

  lemma LeadingTerm(k: Poly, m: nat)
    requires m in k && Below(k, m + 1)
    ensures m + 16 in TimesG(k)
  {
    ShiftMember(k, 16, m + 16);
    ShiftMember(k, 12, m + 16);
    ShiftMember(k, 5, m + 16);
  }

  /** A nonzero multiple of the generator has degree at least 16. */
  lemma MultipleDegree(k: Poly)
    requires Below(TimesG(k), 16)
    ensures k == {}
  {
    if k != {} {
      var m := Largest(k);
      LeadingTerm(k, m);
    }
  }

  /** Remainders are unique. */
  lemma RemainderUnique(p: Poly, q: Poly)
    requires Below(p, 16) && Below(q, 16) && Congruent(p, q)
    ensures p == q
  {
    hide TimesG;
    var k: Poly :| Add(p, q) == TimesG(k);
    MultipleDegree(k);
    ZeroMultiple();
    assert forall e :: e in p <==> e in q by {
      assert Add(p, q) == {};
    }
  }

  lemma ConstantTerm(k: Poly)
    ensures 0 in TimesG(k) <==> 0 in k
  {
    ShiftMember(k, 16, 0);
    ShiftMember(k, 12, 0);
    ShiftMember(k, 5, 0);
  }

  lemma WithoutConstant(k: Poly) returns (j: Poly)
    requires 0 !in k
    ensures TimesX(j) == k
  {
    j := set e | e in k :: e - 1;
    forall e: nat
      ensures e in TimesX(j) <==> e in k
    {
      if e in k {
        assert e - 1 in j;
      }
    }
  }

  /** The generator has constant term one, so x can be divided out of its multiples. */
  lemma DivideByX(p: Poly)
    requires Congruent(TimesX(p), {})
    ensures Congruent(p, {})
  {
    hide TimesG;
    var k: Poly :| Add(TimesX(p), {}) == TimesG(k);
    assert TimesX(p) == TimesG(k);
    ConstantTerm(k);
    var j := WithoutConstant(k);
    TimesGShifts(j);
    TimesXInjective(p, TimesG(j));
    assert Add(p, {}) == p;
    CongruentIs(p, {}, j);
  }

  lemma TimesXInjective(p: Poly, q: Poly)
    requires TimesX(p) == TimesX(q)
    ensures p == q
  {
    forall e: nat
      ensures e in p <==> e in q
    {
      assert e + 1 in TimesX(p) <==> e in p;
      assert e + 1 in TimesX(q) <==> e in q;
    }
  }

  lemma {:induction false} DivideByPower(p: Poly, n: nat)
    requires Congruent(Shift(p, n), {})
    ensures Congruent(p, {})
  {
    if n > 0 {
      DivideByX(Shift(p, n - 1));
      DivideByPower(p, n - 1);
    }
  }

  lemma {:induction false} TimesXSize(p: Poly)
    ensures |TimesX(p)| == |p|
  {
    if p != {} {
      var e :| e in p;
      TimesXSize(p - {e});
      assert TimesX(p) == TimesX(p - {e}) + {e + 1};
    } else {
      assert TimesX(p) == {};
    }
  }

  lemma {:induction false} ShiftSize(p: Poly, n: nat)
    ensures |Shift(p, n)| == |p|
  {
    if n > 0 {
      ShiftSize(p, n - 1);
      TimesXSize(Shift(p, n - 1));
    }
  }

  lemma AddSize(p: Poly, q: Poly)
    ensures |Add(p, q)| + 2 * |p * q| == |p| + |q|
  {
    assert p == (p - q) + (p * q);
    assert q == (q - p) + (p * q);
  }

  /** The generator has an even number of terms, and so has every multiple of it. */
  lemma MultiplesAreEven(k: Poly)
    ensures |TimesG(k)| % 2 == 0
  {
    hide Shift, Add;
    ShiftSize(k, 16);
    ShiftSize(k, 12);
    ShiftSize(k, 5);
    AddSize(Shift(k, 16), Shift(k, 12));
    AddSize(Shift(k, 5), k);
    AddSize(Add(Shift(k, 16), Shift(k, 12)), Add(Shift(k, 5), k));
  }
}
