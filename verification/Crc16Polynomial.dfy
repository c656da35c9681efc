/**
 The checksum as arithmetic: the remainder of the message, read as a polynomial over the two-element field, divided by
 x^16 + x^12 + x^5 + 1. A polynomial is given by the exponents that occur in it.
 */
module Crc16Polynomial {
  import opened Crc16

  /** The exponents of the divisor. */
  const GENERATOR: seq<nat> := [16, 12, 5, 0]

  /** Whether x^n occurs in the product of the polynomial with the exponents `q` and the one with the exponents `g`. */
  predicate ProductTerm(q: set<nat>, g: seq<nat>, n: nat) {
    if g == [] then false else (g[0] <= n && n - g[0] in q) != ProductTerm(q, g[1..], n)
  }

  /** Whether x^n occurs in the message followed by sixteen zero bits, the first sixteen bits of that complemented. */
  predicate MessageTerm(bits: seq<bool>, n: nat) {
    (16 <= n < 16 + |bits| && bits[|bits| - 1 - (n - 16)]) != (|bits| <= n < |bits| + 16)
  }

  /** Bit `n` of a register, counted from the right. */
  predicate BitAt(v: bv16, n: nat) {
    if n == 0 then IsOdd(v) else BitAt(Half(v), n - 1)
  }

  predicate RegisterTerm(v: bv16, n: nat) {
    n < 16 && BitAt(v, n)
  }

  /** The message is `q` times the divisor, plus a rest of degree below sixteen. */
  ghost predicate DividesTo(bits: seq<bool>, q: set<nat>, rest: bv16) {
    forall n: nat :: MessageTerm(bits, n) == (ProductTerm(q, GENERATOR, n) != RegisterTerm(rest, n))
  }

  ghost predicate IsRemainder(bits: seq<bool>, rest: bv16) {
    exists q: set<nat> :: DividesTo(bits, q, rest)
  }

  lemma GeneratorTerms(q: set<nat>, n: nat)
    ensures ProductTerm(q, GENERATOR, n) ==
            ((16 <= n && n - 16 in q) != ((12 <= n && n - 12 in q) != ((5 <= n && n - 5 in q) != (n in q))))
  {
    assert GENERATOR[1..] == [12, 5, 0] && [12, 5, 0][1..] == [5, 0] && [5, 0][1..] == [0];
    assert ProductTerm(q, [0], n) == (n in q);
    assert ProductTerm(q, [5, 0], n) == ((5 <= n && n - 5 in q) != ProductTerm(q, [0], n));
    assert ProductTerm(q, [12, 5, 0], n) == ((12 <= n && n - 12 in q) != ProductTerm(q, [5, 0], n));
  }

  // ----- the bits of a register -----

  lemma OneDown(v: bv16, n: nat)
    ensures BitAt(v, 0) == IsOdd(v) && BitAt(v, n + 1) == BitAt(Half(v), n)
  {
    hide IsOdd, Half;
  }

  lemma Halves(v: bv16)
    ensures IsOdd(v) == (v & 1 != 0) && IsOdd(Half(v)) == (v & 2 != 0) && IsOdd(Half(Half(v))) == (v & 4 != 0)
    ensures IsOdd(Half(Half(Half(v)))) == (v & 8 != 0) && Half(Half(Half(Half(v)))) == v >> 4
  {
  }

  lemma LowBits(v: bv16)
    ensures BitAt(v, 0) == (v & 1 != 0) && BitAt(v, 1) == (v & 2 != 0)
    ensures BitAt(v, 2) == (v & 4 != 0) && BitAt(v, 3) == (v & 8 != 0)
  {
    Halves(v);
    hide BitAt, IsOdd, Half;
    OneDown(v, 0);
    OneDown(v, 1);
    OneDown(v, 2);
    OneDown(Half(v), 0);
    OneDown(Half(v), 1);
    OneDown(Half(Half(v)), 0);
    OneDown(Half(Half(Half(v))), 0);
  }

  lemma FourDown(v: bv16, n: nat)
    ensures BitAt(v, n + 4) == BitAt(v >> 4, n)
  {
    Halves(v);
    hide BitAt, IsOdd, Half;
    OneDown(v, n + 3);
    OneDown(Half(v), n + 2);
    OneDown(Half(Half(v)), n + 1);
    OneDown(Half(Half(Half(v))), n);
  }

  /** Four bits of the register at a time. */
  lemma ByNibbles(v: bv16, n: nat)
    requires n < 16
    ensures BitAt(v, n) == if n < 4 then BitAt(v, n) else if n < 8 then BitAt(v >> 4, n - 4)
                           else if n < 12 then BitAt(v >> 8, n - 8) else BitAt(v >> 12, n - 12)
  {
    hide BitAt;
    assert (v >> 4) >> 4 == v >> 8 && (v >> 8) >> 4 == v >> 12;
    if n >= 4 { FourDown(v, n - 4); }
    if n >= 8 { FourDown(v >> 4, n - 8); }
    if n >= 12 { FourDown(v >> 8, n - 12); }
  }

  lemma ConstantBits(n: nat)
    requires n < 16
    ensures BitAt(0x1021, n) == (n == 12 || n == 5 || n == 0)
    ensures BitAt(0x8000, n) == (n == 15) && BitAt(0x7FFF, n) == (n != 15)
    ensures BitAt(0xFFFF, n) && !BitAt(0, n)
  {
    hide BitAt;
    ByNibbles(0x1021, n);
    ByNibbles(0x8000, n);
    ByNibbles(0x7FFF, n);
    ByNibbles(0xFFFF, n);
    ByNibbles(0, n);
    LowBits(0);
    LowBits(1);
    LowBits(2);
    LowBits(7);
    LowBits(8);
    LowBits(0xF);
    LowBits(0x10);
    LowBits(0x7F);
    LowBits(0x80);
    LowBits(0xFF);
    LowBits(0x102);
    LowBits(0x7FF);
    LowBits(0x800);
    LowBits(0xFFF);
    LowBits(0x1021);
    LowBits(0x7FFF);
    LowBits(0x8000);
    LowBits(0xFFFF);
  }

  lemma {:induction false} BitsOfXor(a: bv16, b: bv16, n: nat)
    ensures BitAt(Xor(a, b), n) == (BitAt(a, n) != BitAt(b, n))
    decreases n
  {
    XorHalves(a, b);
    hide Xor, Half, IsOdd;
    if n > 0 { BitsOfXor(Half(a), Half(b), n - 1); }
  }

  lemma XorHalves(a: bv16, b: bv16)
    ensures Half(Xor(a, b)) == Xor(Half(a), Half(b)) && IsOdd(Xor(a, b)) == (IsOdd(a) != IsOdd(b))
  {
  }

  lemma {:induction false} BitsOfAnd(a: bv16, b: bv16, n: nat)
    ensures BitAt(And(a, b), n) == (BitAt(a, n) && BitAt(b, n))
    decreases n
  {
    AndHalves(a, b);
    hide And, Half, IsOdd;
    if n > 0 { BitsOfAnd(Half(a), Half(b), n - 1); }
  }

  lemma AndHalves(a: bv16, b: bv16)
    ensures Half(And(a, b)) == And(Half(a), Half(b)) && IsOdd(And(a, b)) == (IsOdd(a) && IsOdd(b))
  {
  }

  /** Shifted left, every bit but the highest moves up. */
  lemma BitsOfShift(v: bv16, n: nat)
    requires n < 16
    ensures BitAt(v << 1, n) == (n > 0 && BitAt(v, n - 1))
  {
    assert !IsOdd(v << 1) && Half(v << 1) == And(v, 0x7FFF);
    hide IsOdd, Half, And;
    if n > 0 {
      assert BitAt(v << 1, n) == BitAt(Half(v << 1), n - 1);
      BitsOfAnd(v, 0x7FFF, n - 1);
      ConstantBits(n - 1);
    }
  }

  lemma TopBit(v: bv16)
    ensures BitAt(v, 15) == (v & 0x8000 != 0)
  {
    BitsOfAnd(v, 0x8000, 15);
    ConstantBits(15);
    assert And(v, 0x8000) == 0 || And(v, 0x8000) == 0x8000;
    hide BitAt;
  }

  /** One step shifts the register up and, if a bit falls out at the top, adds the rest of the divisor. */
  lemma BitsOfStep(v: bv16, n: nat)
    requires n < 16
    ensures BitAt(BitStep(v), n) == ((n > 0 && BitAt(v, n - 1)) != (BitAt(v, 15) && (n == 12 || n == 5 || n == 0)))
  {
    hide BitAt;
    TopBit(v);
    BitsOfShift(v, n);
    BitsOfXor(v << 1, 0x1021, n);
    ConstantBits(n);
  }

  lemma {:induction false} SameNumber(v: bv16, w: bv16, k: nat)
    requires forall n: nat :: n < k ==> BitAt(v, n) == BitAt(w, n)
    ensures Number(v, k) == Number(w, k)
    decreases k
  {
    hide Half, IsOdd;
    if k > 0 {
      assert BitAt(v, 0) == BitAt(w, 0);
      forall n: nat | n < k - 1 ensures BitAt(Half(v), n) == BitAt(Half(w), n) {
        assert BitAt(v, n + 1) == BitAt(w, n + 1);
      }
      SameNumber(Half(v), Half(w), k - 1);
    }
  }

  lemma OnesOf16()
    ensures Ones(16) == 0xFFFF
  {
    OnesOf15();
    assert Ones(16) == Push(Ones(15), true);
  }

  lemma SameBits(v: bv16, w: bv16)
    requires forall n: nat :: n < 16 ==> BitAt(v, n) == BitAt(w, n)
    ensures v == w
  {
    hide BitAt, Number;
    SameNumber(v, w, 16);
    BitsOfNumber(v, 16);
    BitsOfNumber(w, 16);
    OnesOf16();
  }

  // ----- the remainder -----

  /** The quotient after one more message bit. */
  function NextQuotient(q: set<nat>, fell: bool): set<nat> {
    (set k | k in q :: k + 1) + if fell then {0} else {}
  }

  lemma NextQuotientTerm(q: set<nat>, fell: bool, n: nat)
    ensures n in NextQuotient(q, fell) <==> (n > 0 && n - 1 in q) || (n == 0 && fell)
  {
  }

  lemma NextProduct(q: set<nat>, fell: bool, n: nat)
    ensures ProductTerm(NextQuotient(q, fell), GENERATOR, n) ==
            ((n > 0 && ProductTerm(q, GENERATOR, n - 1)) != (fell && (n == 16 || n == 12 || n == 5 || n == 0)))
  {
    hide ProductTerm, NextQuotient;
    var q' := NextQuotient(q, fell);
    GeneratorTerms(q', n);
    if n > 0 { GeneratorTerms(q, n - 1); }
    NextQuotientTerm(q, fell, n);
    if n >= 5 { NextQuotientTerm(q, fell, n - 5); }
    if n >= 12 { NextQuotientTerm(q, fell, n - 12); }
    if n >= 16 { NextQuotientTerm(q, fell, n - 16); }
  }

  /** One more message bit moves all terms up by one and enters at x^16. */
  lemma NextMessage(bits: seq<bool>, on: bool, n: nat)
    ensures MessageTerm(bits + [on], n) == ((n > 0 && MessageTerm(bits, n - 1)) != (n == 16 && on))
  {
  }

  lemma FeedBits(v: bv16, on: bool, n: nat)
    requires n < 16
    ensures var fell := BitAt(v, 15) != on;
            BitAt(FeedBit(v, on), n) == ((n > 0 && BitAt(v, n - 1)) != (fell && (n == 12 || n == 5 || n == 0)))
  {
    hide BitAt, BitStep, Xor;
    var w: bv16 := if on then 0x8000 else 0;
    BitsOfStep(Xor(v, w), n);
    BitsOfXor(v, w, 15);
    ConstantBits(15);
    if n > 0 {
      BitsOfXor(v, w, n - 1);
      ConstantBits(n - 1);
    }
  }

  lemma FeedingDivides(bits: seq<bool>, on: bool, q: set<nat>, v: bv16)
    requires DividesTo(bits, q, v)
    ensures DividesTo(bits + [on], NextQuotient(q, BitAt(v, 15) != on), FeedBit(v, on))
  {
    hide BitAt, FeedBit, NextQuotient, ProductTerm, MessageTerm;
    var fell := BitAt(v, 15) != on;
    forall n: nat ensures MessageTerm(bits + [on], n) ==
                          (ProductTerm(NextQuotient(q, fell), GENERATOR, n) != RegisterTerm(FeedBit(v, on), n))
    {
      NextMessage(bits, on, n);
      NextProduct(q, fell, n);
      if n < 16 { FeedBits(v, on, n); }
      if n > 0 { assert MessageTerm(bits, n - 1) == (ProductTerm(q, GENERATOR, n - 1) != RegisterTerm(v, n - 1)); }
    }
  }

  lemma NothingDivides()
    ensures DividesTo([], {}, INITIAL)
  {
    forall n: nat ensures MessageTerm([], n) == (ProductTerm({}, GENERATOR, n) != RegisterTerm(INITIAL, n)) {
      GeneratorTerms({}, n);
      if n < 16 { ConstantBits(n); }
    }
  }

  lemma {:induction false} RegisterIsRemainder(bits: seq<bool>)
    ensures IsRemainder(bits, CrcBits(INITIAL, bits))
  {
    hide DividesTo, FeedBit, BitAt;
    if bits == [] {
      NothingDivides();
    } else {
      var init, on := bits[..|bits| - 1], bits[|bits| - 1];
      RegisterIsRemainder(init);
      var v := CrcBits(INITIAL, init);
      var q: set<nat> :| DividesTo(init, q, v);
      FeedingDivides(init, on, q, v);
      assert bits == init + [on];
    }
  }

  // ----- there is no other -----

  function Difference(p: set<nat>, q: set<nat>): set<nat> {
    (p - q) + (q - p)
  }

  lemma ProductOfDifference(p: set<nat>, q: set<nat>, n: nat)
    ensures ProductTerm(Difference(p, q), GENERATOR, n) ==
            (ProductTerm(p, GENERATOR, n) != ProductTerm(q, GENERATOR, n))
  {
    GeneratorTerms(p, n);
    GeneratorTerms(q, n);
    GeneratorTerms(Difference(p, q), n);
    hide ProductTerm;
  }

  lemma {:induction false} HighestTerm(q: set<nat>) returns (top: nat)
    requires q != {}
    ensures top in q
    ensures forall k :: k in q ==> k <= top
  {
    var k :| k in q;
    if q == {k} {
      top := k;
    } else {
      var rest := HighestTerm(q - {k});
      top := if rest < k then k else rest;
      assert forall j :: j in q ==> j == k || j in q - {k};
    }
  }

  /** A multiple of the divisor has a term of degree sixteen or more, unless it is nothing. */
  lemma MultiplesAreHigh(q: set<nat>)
    requires forall n: nat :: n >= 16 ==> !ProductTerm(q, GENERATOR, n)
    ensures q == {}
  {
    hide ProductTerm;
    if q != {} {
      var top := HighestTerm(q);
      GeneratorTerms(q, top + 16);
    }
  }

  lemma RemainderIsUnique(bits: seq<bool>, v: bv16, w: bv16)
    requires IsRemainder(bits, v) && IsRemainder(bits, w)
    ensures v == w
  {
    hide ProductTerm, MessageTerm, BitAt, Difference;
    var p: set<nat> :| DividesTo(bits, p, v);
    var q: set<nat> :| DividesTo(bits, q, w);
    var d := Difference(p, q);
    forall n: nat ensures ProductTerm(d, GENERATOR, n) == (RegisterTerm(v, n) != RegisterTerm(w, n)) {
      ProductOfDifference(p, q, n);
      assert MessageTerm(bits, n) == (ProductTerm(p, GENERATOR, n) != RegisterTerm(v, n));
      assert MessageTerm(bits, n) == (ProductTerm(q, GENERATOR, n) != RegisterTerm(w, n));
    }
    MultiplesAreHigh(d);
    forall n: nat | n < 16 ensures BitAt(v, n) == BitAt(w, n) {
      GeneratorTerms(d, n);
      assert RegisterTerm(v, n) == BitAt(v, n) && RegisterTerm(w, n) == BitAt(w, n);
    }
    SameBits(v, w);
  }

  /**
   The checksum of a message is the one remainder of its bits, the first sixteen complemented and sixteen zeros behind
   them, divided by x^16 + x^12 + x^5 + 1.
   */
  lemma CrcIsTheRemainder(bytes: seq<byte>, rest: bv16)
    ensures Crc(INITIAL, bytes) == rest <==> IsRemainder(AllBits(bytes), rest)
  {
    hide Crc, CrcBits, AllBits, IsRemainder;
    CrcIsOfBits(INITIAL, bytes);
    RegisterIsRemainder(AllBits(bytes));
    if IsRemainder(AllBits(bytes), rest) { RemainderIsUnique(AllBits(bytes), rest, Crc(INITIAL, bytes)); }
  }

  // ----- the check value -----

  function EightSteps(c: bv16): bv16 {
    BitStep(BitStep(BitStep(BitStep(BitStep(BitStep(BitStep(BitStep(c))))))))
  }

  lemma StepsAreEight(c: bv16)
    ensures Steps(c, 8) == EightSteps(c)
  {
    hide BitStep, Steps;
    StepsNone(c);
    forall n: nat | n < 8 { StepsNext(c, n); }
  }

  lemma DigitBits()
    ensures Bits(49) == 49 && Bits(50) == 50 && Bits(51) == 51 && Bits(52) == 52 && Bits(53) == 53
    ensures Bits(54) == 54 && Bits(55) == 55 && Bits(56) == 56 && Bits(57) == 57
  {
    assert Bits(1) == 1 && Bits(3) == 3 && Bits(6) == 6 && Bits(12) == 12 && Bits(13) == 13 && Bits(14) == 14;
    assert Bits(24) == 24 && Bits(25) == 25 && Bits(26) == 26 && Bits(27) == 27 && Bits(28) == 28;
  }

  lemma ByteTo(bytes: seq<byte>, c: bv16, b: byte, w: bv16, r: bv16)
    requires Crc(INITIAL, bytes) == c && Bits(b) == w && EightSteps(Xor(c, Above(w))) == r
    ensures Crc(INITIAL, bytes + [b]) == r
  {
    hide EightSteps, Bits, Xor, Above;
    StepsAreEight(Xor(c, Above(w)));
    assert (bytes + [b])[..|bytes|] == bytes;
  }

  /** The check value of the standard's catalogue: the nine characters "123456789" give 0x29B1. */
  lemma CheckValue()
    ensures Crc(INITIAL, [49, 50, 51, 52, 53, 54, 55, 56, 57]) == 0x29B1
  {
    hide Crc, Bits;
    DigitBits();
    EmptyCrc();
    ByteTo([], 0xFFFF, 49, 49, 0xC782);
    assert [] + [49] == [49];
    ByteTo([49], 0xC782, 50, 50, 0x3DBA);
    assert [49] + [50] == [49, 50];
    ByteTo([49, 50], 0x3DBA, 51, 51, 0x5BCE);
    assert [49, 50] + [51] == [49, 50, 51];
    ByteTo([49, 50, 51], 0x5BCE, 52, 52, 0x5349);
    assert [49, 50, 51] + [52] == [49, 50, 51, 52];
    ByteTo([49, 50, 51, 52], 0x5349, 53, 53, 0x4560);
    assert [49, 50, 51, 52] + [53] == [49, 50, 51, 52, 53];
    ByteTo([49, 50, 51, 52, 53], 0x4560, 54, 54, 0x2EF4);
    assert [49, 50, 51, 52, 53] + [54] == [49, 50, 51, 52, 53, 54];
    ByteTo([49, 50, 51, 52, 53, 54], 0x2EF4, 55, 55, 0x7718);
    assert [49, 50, 51, 52, 53, 54] + [55] == [49, 50, 51, 52, 53, 54, 55];
    ByteTo([49, 50, 51, 52, 53, 54, 55], 0x7718, 56, 56, 0xA12B);
    assert [49, 50, 51, 52, 53, 54, 55] + [56] == [49, 50, 51, 52, 53, 54, 55, 56];
    ByteTo([49, 50, 51, 52, 53, 54, 55, 56], 0xA12B, 57, 57, 0x29B1);
    assert [49, 50, 51, 52, 53, 54, 55, 56] + [57] == [49, 50, 51, 52, 53, 54, 55, 56, 57];
  }

  lemma EmptyCrc()
    ensures Crc(INITIAL, []) == INITIAL
  {
  }
}
