/**
 The frame checksum: CRC-16 with polynomial 0x1021 and initial value 0xFFFF, one bit at a time.

 Bytes are numbers below 256; the checksum register is a 16-bit vector. The register step is a linear
 bijection, which is what makes every error burst of up to sixteen bits visible, wherever it begins.
 */
module Crc16 {

  type byte = n: nat | n < 256

  const INITIAL: bv16 := 0xFFFF

  // ----- operations on 16-bit registers -----

  function Xor(a: bv16, b: bv16): bv16 {
    a ^ b
  }

  function And(a: bv16, b: bv16): bv16 {
    a & b
  }

  /** Shift one bit in from the right. */
  function Push(v: bv16, on: bool): bv16 {
    if on then (v << 1) | 1 else v << 1
  }

  function Half(v: bv16): bv16 {
    v >> 1
  }

  predicate IsOdd(v: bv16) {
    v & 1 != 0
  }

  lemma XorZero(a: bv16, b: bv16)
    ensures Xor(a, b) == 0 <==> a == b
  {
  }

  lemma XorSwap(a: bv16, b: bv16)
    ensures Xor(a, b) == Xor(b, a)
  {
  }

  lemma XorCancel(c: bv16, a: bv16, b: bv16)
    requires Xor(c, a) == Xor(c, b)
    ensures a == b
  {
  }

  // ----- numbers and bits -----

  function Power2(w: nat): (p: nat)
    ensures p > 0
  {
    if w == 0 then 1 else 2 * Power2(w - 1)
  }

  /** The low 16 bits of a number. */
  function Bits(n: nat): bv16 {
    if n == 0 then 0 else Push(Bits(n / 2), n % 2 == 1)
  }

  /** The number that the low `w` bits of a register spell. */
  function Number(v: bv16, w: nat): (n: nat)
    ensures n < Power2(w)
  {
    if w == 0 then 0 else 2 * Number(Half(v), w - 1) + if IsOdd(v) then 1 else 0
  }

  function Ones(w: nat): bv16 {
    if w == 0 then 0 else Push(Ones(w - 1), true)
  }

  /** The register uses no bit beyond the mask. */
  predicate Within(v: bv16, m: bv16) {
    And(v, m) == v
  }

  lemma AndPush(h: bv16, m: bv16, on: bool)
    ensures And(Push(h, on), Push(m, true)) == Push(And(h, m), on)
  {
  }

  lemma PushWithin(v: bv16, m: bv16, on: bool)
    requires Within(v, m)
    ensures Within(Push(v, on), Push(m, true))
  {
    hide Push, And;
    AndPush(v, m, on);
  }

  lemma ZeroWithin(m: bv16)
    ensures Within(0, m)
  {
  }

  lemma OnesOf7And8()
    ensures Ones(7) == 0x7F && Ones(8) == 0xFF && Power2(8) == 256 && Power2(7) == 128
  {
    assert Ones(0) == 0 && Ones(1) == 1;
    assert Ones(2) == 3 && Ones(3) == 7;
    assert Ones(4) == 0xF && Ones(5) == 0x1F;
    assert Ones(6) == 0x3F && Ones(7) == 0x7F;
    assert Power2(1) == 2 && Power2(3) == 8 && Power2(5) == 32;
  }

  /** A number below a power of two uses only that many bits. */
  lemma {:induction false} BitsFit(n: nat, w: nat)
    requires n < Power2(w)
    ensures Within(Bits(n), Ones(w))
  {
    hide Within, Push;
    if n == 0 {
      ZeroWithin(Ones(w));
    } else {
      BitsFit(n / 2, w - 1);
      PushWithin(Bits(n / 2), Ones(w - 1), n % 2 == 1);
    }
  }

  lemma HalfAndPush(v: bv16)
    ensures Push(Half(v), IsOdd(v)) == v
  {
  }

  lemma SplitLow(v: bv16, m: bv16)
    ensures And(v, Push(m, true)) == Push(And(Half(v), m), IsOdd(v))
  {
    hide Push, And, Half, IsOdd;
    HalfAndPush(v);
    AndPush(Half(v), m, IsOdd(v));
  }

  lemma AndZero(v: bv16)
    ensures And(v, 0) == 0
  {
  }

  lemma BitsPush(n: nat, on: bool)
    ensures Bits(2 * n + if on then 1 else 0) == Push(Bits(n), on)
  {
    var m := 2 * n + if on then 1 else 0;
    assert m / 2 == n && (m % 2 == 1) == on;
    assert Push(0, false) == 0;
    hide Push;
  }

  /** Reading the low bits as a number and writing them back loses nothing. */
  lemma {:induction false} BitsOfNumber(v: bv16, w: nat)
    ensures Bits(Number(v, w)) == And(v, Ones(w))
    decreases w
  {
    hide Push, And, Half, IsOdd;
    if w == 0 {
      AndZero(v);
    } else {
      BitsOfNumber(Half(v), w - 1);
      SplitLow(v, Ones(w - 1));
      BitsPush(Number(Half(v), w - 1), IsOdd(v));
    }
  }

  lemma PushParts(a: bv16, b: bv16, p: bool, q: bool)
    requires Within(a, 0x7F) && Within(b, 0x7F) && Push(a, p) == Push(b, q)
    ensures a == b && p == q
  {
  }

  lemma {:induction false} Power2Grows(a: nat, b: nat)
    requires a <= b
    ensures Power2(a) <= Power2(b)
  {
    if a < b { Power2Grows(a, b - 1); }
  }

  lemma {:induction false} BitsAreInjective(a: nat, b: nat, w: nat)
    requires a < Power2(w) && b < Power2(w) && w <= 8 && Bits(a) == Bits(b)
    ensures a == b
  {
    hide Within, Push;
    if w > 0 {
      OnesOf7And8();
      Power2Grows(w - 1, 7);
      BitsFit(a / 2, 7);
      BitsFit(b / 2, 7);
      BitsPush(a / 2, a % 2 == 1);
      BitsPush(b / 2, b % 2 == 1);
      PushParts(Bits(a / 2), Bits(b / 2), a % 2 == 1, b % 2 == 1);
      BitsAreInjective(a / 2, b / 2, w - 1);
    }
  }

  // ----- two bytes as one register -----

  function Above(v: bv16): bv16 {
    v << 8
  }

  function Below(v: bv16): bv16 {
    v >> 8
  }

  function Or(a: bv16, b: bv16): bv16 {
    a | b
  }

  /** Two bytes, high one first, as a 16-bit register. */
  function Word(hi: byte, lo: byte): bv16 {
    Or(Above(Bits(hi)), Bits(lo))
  }

  function HighByte(v: bv16): byte {
    OnesOf7And8();
    Number(Below(v), 8)
  }

  function LowByte(v: bv16): byte {
    OnesOf7And8();
    Number(v, 8)
  }

  lemma JoinBytes(v: bv16)
    ensures Or(Above(And(Below(v), 0xFF)), And(v, 0xFF)) == v
  {
  }

  /** Appending a register as two bytes and reading it back gives the register. */
  lemma WordRoundTrip(v: bv16)
    ensures Word(HighByte(v), LowByte(v)) == v
  {
    hide Or, Above, And, Below, Number, Bits, Ones;
    OnesOf7And8();
    BitsOfNumber(Below(v), 8);
    BitsOfNumber(v, 8);
    JoinBytes(v);
  }

  lemma WordParts(a: bv16, b: bv16, a': bv16, b': bv16)
    requires Within(a, 0xFF) && Within(b, 0xFF) && Within(a', 0xFF) && Within(b', 0xFF)
    requires Or(Above(a), b) == Or(Above(a'), b')
    ensures a == a' && b == b'
  {
  }

  /** Different byte pairs make different words. */
  lemma WordIsInjective(a: byte, b: byte, a': byte, b': byte)
    requires Word(a, b) == Word(a', b')
    ensures a == a' && b == b'
  {
    hide Or, Above, Within, Bits, Ones;
    OnesOf7And8();
    BitsFit(a, 8); BitsFit(b, 8); BitsFit(a', 8); BitsFit(b', 8);
    WordParts(Bits(a), Bits(b), Bits(a'), Bits(b'));
    BitsAreInjective(a, a', 8);
    BitsAreInjective(b, b', 8);
  }

  // ----- the checksum register -----

  function BitStep(crc: bv16): bv16 {
    if crc & 0x8000 != 0 then (crc << 1) ^ 0x1021 else crc << 1
  }

  function Steps(crc: bv16, n: nat): bv16 {
    if n == 0 then crc else BitStep(Steps(crc, n - 1))
  }

  function ByteStep(crc: bv16, b: byte): bv16 {
    Steps(Xor(crc, Above(Bits(b))), 8)
  }

  /** The register after a sequence of bytes. */
  function Crc(crc: bv16, bytes: seq<byte>): bv16 {
    if bytes == [] then crc else ByteStep(Crc(crc, bytes[..|bytes| - 1]), bytes[|bytes| - 1])
  }

  lemma TopOfXor(a: bv16, b: bv16)
    ensures (a ^ b) & 0x8000 == (a & 0x8000) ^ (b & 0x8000)
    ensures a & 0x8000 == 0 || a & 0x8000 == 0x8000
  {
  }

  lemma ShiftOfXor(a: bv16, b: bv16)
    ensures (a ^ b) << 1 == (a << 1) ^ (b << 1)
  {
  }

  lemma FoldOnce(x: bv16, y: bv16, p: bv16)
    ensures (x ^ y) ^ p == (x ^ p) ^ y && (x ^ y) ^ p == x ^ (y ^ p) && x ^ y == (x ^ p) ^ (y ^ p)
  {
  }

  lemma BitStepIsLinear(a: bv16, b: bv16)
    ensures BitStep(Xor(a, b)) == Xor(BitStep(a), BitStep(b))
  {
    TopOfXor(a, b);
    TopOfXor(b, a);
    ShiftOfXor(a, b);
    FoldOnce(a << 1, b << 1, 0x1021);
  }

  lemma BitStepKernel(a: bv16)
    requires BitStep(a) == 0
    ensures a == 0
  {
  }

  lemma BitStepOfZero()
    ensures BitStep(0) == 0
  {
  }

  /** The bit step is a bijection of the register: it loses no difference. */
  lemma BitStepIsInjective(a: bv16, b: bv16)
    requires BitStep(a) == BitStep(b)
    ensures a == b
  {
    hide BitStep, Xor;
    BitStepIsLinear(a, b);
    XorZero(BitStep(a), BitStep(b));
    BitStepKernel(Xor(a, b));
    XorZero(a, b);
  }

  lemma {:induction false} StepsAreInjective(a: bv16, b: bv16, n: nat)
    requires Steps(a, n) == Steps(b, n)
    ensures a == b
  {
    hide BitStep;
    if n > 0 {
      BitStepIsInjective(Steps(a, n - 1), Steps(b, n - 1));
      StepsAreInjective(a, b, n - 1);
    }
  }

  lemma {:induction false} StepsAreLinear(a: bv16, b: bv16, n: nat)
    ensures Steps(Xor(a, b), n) == Xor(Steps(a, n), Steps(b, n))
  {
    hide BitStep, Xor;
    if n > 0 {
      StepsAreLinear(a, b, n - 1);
      BitStepIsLinear(Steps(a, n - 1), Steps(b, n - 1));
    }
  }

  lemma {:induction false} StepsCompose(a: bv16, m: nat, n: nat)
    ensures Steps(Steps(a, m), n) == Steps(a, m + n)
  {
    hide BitStep;
    if n > 0 { StepsCompose(a, m, n - 1); }
  }

  lemma {:induction false} StepsOfZero(n: nat)
    ensures Steps(0, n) == 0
  {
    hide BitStep;
    BitStepOfZero();
    if n > 0 { StepsOfZero(n - 1); }
  }

  lemma ShiftsClear(v: bv16)
    requires Within(v, 0xFF)
    ensures BitStep(v) == v << 1 && BitStep(v << 1) == v << 2 && BitStep(v << 2) == v << 3 && BitStep(v << 3) == v << 4
    ensures BitStep(v << 4) == v << 5 && BitStep(v << 5) == v << 6 && BitStep(v << 6) == v << 7
    ensures BitStep(v << 7) == Above(v)
  {
  }

  /** A register whose high byte is clear is only shifted by eight steps. */
  lemma LowByteShifts(v: bv16)
    requires Within(v, 0xFF)
    ensures Steps(v, 8) == Above(v)
  {
    ShiftsClear(v);
    hide BitStep, Above, Within;
    assert Steps(v, 1) == v << 1 && Steps(v, 2) == v << 2;
    assert Steps(v, 3) == v << 3 && Steps(v, 4) == v << 4;
    assert Steps(v, 5) == v << 5 && Steps(v, 6) == v << 6;
    assert Steps(v, 7) == v << 7;
  }

  lemma XorParts(c: bv16, hi: bv16, lo: bv16)
    requires Within(lo, 0xFF)
    ensures Xor(Xor(c, Above(hi)), lo) == Xor(c, Or(Above(hi), lo))
  {
  }

  /** Two bytes pass through the register as one 16-bit word. */
  lemma TwoBytes(c: bv16, a: byte, b: byte)
    ensures ByteStep(ByteStep(c, a), b) == Steps(Xor(c, Word(a, b)), 16)
  {
    hide Steps, Bits, Ones, Power2, Xor, Above, Or, Within;
    OnesOf7And8();
    BitsFit(b, 8);
    var x := Xor(c, Above(Bits(a)));
    LowByteShifts(Bits(b));
    StepsAreLinear(x, Bits(b), 8);
    XorParts(c, Bits(a), Bits(b));
    StepsCompose(Xor(x, Bits(b)), 8, 8);
  }

  lemma {:induction false} CrcConcat(c: bv16, a: seq<byte>, b: seq<byte>)
    ensures Crc(c, a + b) == Crc(Crc(c, a), b)
  {
    hide ByteStep;
    if b == [] {
      assert a + b == a;
    } else {
      assert (a + b)[..|a + b| - 1] == a + b[..|b| - 1];
      CrcConcat(c, a, b[..|b| - 1]);
    }
  }

  lemma CrcOfTwo(c: bv16, a: byte, b: byte)
    ensures Crc(c, [a, b]) == Steps(Xor(c, Word(a, b)), 16)
  {
    hide ByteStep, Steps, Xor, Word;
    assert [a, b][..1] == [a] && [a][..0] == [];
    assert Crc(c, [a]) == ByteStep(c, a);
    TwoBytes(c, a, b);
  }

  /** A checksum read behind the bytes it covers matches exactly when the register ends at zero. */
  lemma MatchesExactlyWhenZero(bytes: seq<byte>, hi: byte, lo: byte)
    ensures Word(hi, lo) == Crc(INITIAL, bytes) <==> Crc(INITIAL, bytes + [hi, lo]) == 0
  {
    hide ByteStep, Steps, Xor, Word, Crc;
    var c := Crc(INITIAL, bytes);
    CrcConcat(INITIAL, bytes, [hi, lo]);
    CrcOfTwo(c, hi, lo);
    XorZero(c, Word(hi, lo));
    StepsOfZero(16);
    if Crc(c, [hi, lo]) == 0 { StepsAreInjective(Xor(c, Word(hi, lo)), 0, 16); }
  }

  lemma ByteStepIsInjective(c: bv16, d: bv16, b: byte)
    requires ByteStep(c, b) == ByteStep(d, b)
    ensures c == d
  {
    hide Steps, Xor, Above, Bits;
    var w := Above(Bits(b));
    StepsAreInjective(Xor(c, w), Xor(d, w), 8);
    XorSwap(c, w);
    XorSwap(d, w);
    XorCancel(w, c, d);
  }

  /** Different registers stay different whatever bytes follow. */
  lemma {:induction false} DifferenceSurvives(c: bv16, d: bv16, bytes: seq<byte>)
    requires c != d
    ensures Crc(c, bytes) != Crc(d, bytes)
  {
    hide ByteStep;
    if bytes != [] {
      var init, b := bytes[..|bytes| - 1], bytes[|bytes| - 1];
      DifferenceSurvives(c, d, init);
      if ByteStep(Crc(c, init), b) == ByteStep(Crc(d, init), b) {
        ByteStepIsInjective(Crc(c, init), Crc(d, init), b);
      }
    }
  }

  /** The sequences agree everywhere but in the two adjacent places from `i`. */
  ghost predicate DifferOnlyAt(x: seq<byte>, y: seq<byte>, i: nat) {
    && |x| == |y| && i + 1 < |x|
    && forall k :: 0 <= k < |x| && k != i && k != i + 1 ==> x[k] == y[k]
  }

  lemma DifferentPairs(d: bv16, a: byte, b: byte, a': byte, b': byte)
    requires a != a' || b != b'
    ensures Crc(d, [a, b]) != Crc(d, [a', b'])
  {
    hide Steps, Word, Crc, Xor;
    CrcOfTwo(d, a, b);
    CrcOfTwo(d, a', b');
    if Crc(d, [a, b]) == Crc(d, [a', b']) {
      StepsAreInjective(Xor(d, Word(a, b)), Xor(d, Word(a', b')), 16);
      XorCancel(d, Word(a, b), Word(a', b'));
      WordIsInjective(a, b, a', b');
    }
  }

  lemma CrcAround(c: bv16, x: seq<byte>, i: nat)
    requires i + 1 < |x|
    ensures Crc(c, x) == Crc(Crc(Crc(c, x[..i]), [x[i], x[i + 1]]), x[i + 2..])
  {
    hide Crc;
    assert x == x[..i] + [x[i], x[i + 1]] + x[i + 2..];
    CrcConcat(c, x[..i] + [x[i], x[i + 1]], x[i + 2..]);
    CrcConcat(c, x[..i], [x[i], x[i + 1]]);
  }

  /** An error burst inside two adjacent bytes always changes the register. */
  lemma BurstIsVisible(c: bv16, x: seq<byte>, y: seq<byte>, i: nat)
    requires DifferOnlyAt(x, y, i) && x != y
    ensures Crc(c, x) != Crc(c, y)
  {
    hide Crc;
    assert x[..i] == y[..i] && x[i + 2..] == y[i + 2..];
    CrcAround(c, x, i);
    CrcAround(c, y, i);
    var d := Crc(c, x[..i]);
    DifferentPairs(d, x[i], x[i + 1], y[i], y[i + 1]);
    DifferenceSurvives(Crc(d, [x[i], x[i + 1]]), Crc(d, [y[i], y[i + 1]]), x[i + 2..]);
  }

  // ----- bit by bit -----

  /** One message bit: it enters at the top of the register. */
  function FeedBit(c: bv16, on: bool): bv16 {
    BitStep(Xor(c, if on then 0x8000 else 0))
  }

  function CrcBits(c: bv16, bits: seq<bool>): bv16 {
    if bits == [] then c else FeedBit(CrcBits(c, bits[..|bits| - 1]), bits[|bits| - 1])
  }

  /** The bits of a number, most significant first. */
  function Digits(n: nat, w: nat): (bits: seq<bool>)
    ensures |bits| == w
  {
    if w == 0 then [] else Digits(n / 2, w - 1) + [n % 2 == 1]
  }

  /** The bits of a message in the order in which the register takes them. */
  function AllBits(bytes: seq<byte>): (bits: seq<bool>)
    ensures |bits| == 8 * |bytes|
  {
    if bytes == [] then [] else AllBits(bytes[..|bytes| - 1]) + Digits(bytes[|bytes| - 1], 8)
  }

  /** Up to sixteen bits as a register, the last one lowest. */
  function Low(bits: seq<bool>): bv16 {
    if bits == [] then 0 else Push(Low(bits[..|bits| - 1]), bits[|bits| - 1])
  }

  lemma {:induction false} BitsConcat(c: bv16, a: seq<bool>, b: seq<bool>)
    ensures CrcBits(c, a + b) == CrcBits(CrcBits(c, a), b)
  {
    hide FeedBit;
    if b == [] {
      assert a + b == a;
    } else {
      assert (a + b)[..|a + b| - 1] == a + b[..|b| - 1];
      BitsConcat(c, a, b[..|b| - 1]);
    }
  }

  lemma FeedBitIsInjective(c: bv16, d: bv16, on: bool)
    requires FeedBit(c, on) == FeedBit(d, on)
    ensures c == d
  {
    hide BitStep, Xor;
    var w: bv16 := if on then 0x8000 else 0;
    BitStepIsInjective(Xor(c, w), Xor(d, w));
    XorSwap(c, w);
    XorSwap(d, w);
    XorCancel(w, c, d);
  }

  /** Different registers stay different whatever bits follow. */
  lemma {:induction false} DifferenceSurvivesBits(c: bv16, d: bv16, bits: seq<bool>)
    requires c != d
    ensures CrcBits(c, bits) != CrcBits(d, bits)
  {
    hide FeedBit;
    if bits != [] {
      var init, on := bits[..|bits| - 1], bits[|bits| - 1];
      DifferenceSurvivesBits(c, d, init);
      if FeedBit(CrcBits(c, init), on) == FeedBit(CrcBits(d, init), on) {
        FeedBitIsInjective(CrcBits(c, init), CrcBits(d, init), on);
      }
    }
  }

  const UNIT: bv16 := 1

  lemma PowersOfTwo()
    ensures BitStep(0x0001) == 0x0002 && BitStep(0x0002) == 0x0004 && BitStep(0x0004) == 0x0008
    ensures BitStep(0x0008) == 0x0010
    ensures BitStep(0x0010) == 0x0020 && BitStep(0x0020) == 0x0040 && BitStep(0x0040) == 0x0080
    ensures BitStep(0x0080) == 0x0100
    ensures BitStep(0x0100) == 0x0200 && BitStep(0x0200) == 0x0400 && BitStep(0x0400) == 0x0800
    ensures BitStep(0x0800) == 0x1000
    ensures BitStep(0x1000) == 0x2000 && BitStep(0x2000) == 0x4000 && BitStep(0x4000) == 0x8000
  {
  }

  /** A single low bit has reached the top after fifteen steps. */
  lemma UnitRises()
    ensures Steps(UNIT, 15) == 0x8000 && Steps(UNIT, 16) == BitStep(0x8000)
  {
    PowersOfTwo();
    hide BitStep;
    assert Steps(UNIT, 1) == 0x0002 && Steps(UNIT, 2) == 0x0004;
    assert Steps(UNIT, 3) == 0x0008 && Steps(UNIT, 4) == 0x0010;
    assert Steps(UNIT, 5) == 0x0020 && Steps(UNIT, 6) == 0x0040;
    assert Steps(UNIT, 7) == 0x0080 && Steps(UNIT, 8) == 0x0100;
    assert Steps(UNIT, 9) == 0x0200 && Steps(UNIT, 10) == 0x0400;
    assert Steps(UNIT, 11) == 0x0800 && Steps(UNIT, 12) == 0x1000;
    assert Steps(UNIT, 13) == 0x2000 && Steps(UNIT, 14) == 0x4000;
  }

  lemma PushIsStep(v: bv16, on: bool)
    requires Within(v, 0x7FFF)
    ensures Push(v, on) == Xor(BitStep(v), if on then UNIT else 0)
  {
  }

  lemma XorNothing(a: bv16)
    ensures Xor(a, 0) == a && Xor(0, a) == a
  {
  }

  lemma XorRegroup(a: bv16, b: bv16, d: bv16)
    ensures Xor(Xor(a, b), d) == Xor(a, Xor(b, d))
  {
  }

  lemma ShiftedIn(v: bv16, on: bool)
    requires Within(v, 0x7FFF)
    ensures Steps(Push(v, on), 16) == BitStep(Xor(Steps(v, 16), if on then 0x8000 else 0))
  {
    hide Xor, Push, BitStep, Within, Steps;
    var low: bv16 := if on then UNIT else 0;
    PushIsStep(v, on);
    StepsAreLinear(BitStep(v), low, 16);
    StepsShift(v);
    UnitRises();
    StepsOfZero(16);
    BitStepOfZero();
    BitStepIsLinear(Steps(v, 16), if on then 0x8000 else 0);
  }

  lemma StepsShift(v: bv16)
    ensures Steps(BitStep(v), 16) == BitStep(Steps(v, 16))
  {
    hide BitStep;
    StepsCompose(v, 1, 16);
    assert Steps(v, 1) == BitStep(Steps(v, 0)) == BitStep(v);
    assert Steps(v, 17) == BitStep(Steps(v, 16));
  }

  lemma {:induction false} LowFits(bits: seq<bool>)
    ensures Within(Low(bits), Ones(|bits|))
  {
    hide Within, Push;
    if bits == [] {
      ZeroWithin(Ones(0));
    } else {
      LowFits(bits[..|bits| - 1]);
      PushWithin(Low(bits[..|bits| - 1]), Ones(|bits| - 1), bits[|bits| - 1]);
    }
  }

  /** Few ones are among more ones. */
  lemma {:induction false} OnesNest(v: bv16, m: nat, n: nat)
    requires m <= n && Within(v, Ones(m))
    ensures Within(v, Ones(n))
    decreases n - m
  {
    hide Within, Push;
    if m < n {
      OnesStep(v, m);
      OnesNest(v, m + 1, n);
    }
  }

  lemma {:induction false} OnesStep(v: bv16, m: nat)
    requires Within(v, Ones(m))
    ensures Within(v, Ones(m + 1))
    decreases m
  {
    hide Push, Within;
    if m == 0 {
      NothingWithin(v);
    } else {
      HalfWithin(v, Ones(m - 1));
      OnesStep(Half(v), m - 1);
      WholeWithin(v, Ones(m));
    }
  }

  lemma NothingWithin(v: bv16)
    requires Within(v, Ones(0))
    ensures Within(v, Ones(1))
  {
    assert Ones(0) == 0 && Ones(1) == 1;
  }

  lemma HalfWithin(v: bv16, m: bv16)
    requires Within(v, Push(m, true))
    ensures Within(Half(v), m)
  {
  }

  lemma WholeWithin(v: bv16, m: bv16)
    requires Within(Half(v), m)
    ensures Within(v, Push(m, true))
  {
  }

  lemma OnesOf15()
    ensures Ones(15) == 0x7FFF
  {
    OnesOf7And8();
    assert Ones(9) == 0x1FF && Ones(10) == 0x3FF;
    assert Ones(11) == 0x7FF && Ones(12) == 0xFFF;
    assert Ones(13) == 0x1FFF && Ones(14) == 0x3FFF;
  }

  lemma ShortFits(bits: seq<bool>)
    requires |bits| < 16
    ensures Within(Low(bits), 0x7FFF)
  {
    hide Within, Low, Ones;
    LowFits(bits);
    OnesNest(Low(bits), |bits|, 15);
    OnesOf15();
  }

  /** Up to sixteen bits act on the register as one word. */
  lemma {:induction false} BitsAsWord(c: bv16, bits: seq<bool>)
    requires |bits| <= 16
    ensures CrcBits(c, bits) == Xor(Steps(c, |bits|), Steps(Low(bits), 16))
  {
    hide BitStep, Xor, Push, Within;
    if bits == [] {
      StepsOfZero(16);
      XorNothing(c);
    } else {
      var init, on := bits[..|bits| - 1], bits[|bits| - 1];
      var n := |init|;
      var top: bv16 := if on then 0x8000 else 0;
      BitsAsWord(c, init);
      ShortFits(init);
      hide Low;
      ShiftedIn(Low(init), on);
      XorRegroup(Steps(c, n), Steps(Low(init), 16), top);
      BitStepIsLinear(Steps(c, n), Xor(Steps(Low(init), 16), top));
    }
  }

  lemma PushParts15(a: bv16, b: bv16, p: bool, q: bool)
    requires Within(a, 0x7FFF) && Within(b, 0x7FFF) && Push(a, p) == Push(b, q)
    ensures a == b && p == q
  {
  }

  lemma {:induction false} LowIsInjective(a: seq<bool>, b: seq<bool>)
    requires |a| == |b| <= 16 && Low(a) == Low(b)
    ensures a == b
  {
    hide Within, Push;
    if a != [] {
      var u, v := a[..|a| - 1], b[..|b| - 1];
      ShortFits(u);
      ShortFits(v);
      PushParts15(Low(u), Low(v), a[|a| - 1], b[|b| - 1]);
      LowIsInjective(u, v);
      assert a == u + [a[|a| - 1]] && b == v + [b[|b| - 1]];
    }
  }

  /** Different stretches of at most sixteen bits leave the register different. */
  lemma DifferentStretches(c: bv16, a: seq<bool>, b: seq<bool>)
    requires |a| == |b| <= 16 && a != b
    ensures CrcBits(c, a) != CrcBits(c, b)
  {
    hide CrcBits, Steps, Low, Xor;
    BitsAsWord(c, a);
    BitsAsWord(c, b);
    if CrcBits(c, a) == CrcBits(c, b) {
      XorCancel(Steps(c, |a|), Steps(Low(a), 16), Steps(Low(b), 16));
      StepsAreInjective(Low(a), Low(b), 16);
      LowIsInjective(a, b);
    }
  }

  // ----- bytes are eight bits -----

  lemma {:induction false} LowOfDigits(n: nat, w: nat)
    requires n < Power2(w)
    ensures Low(Digits(n, w)) == Bits(n)
  {
    hide Push;
    if w > 0 {
      var bits := Digits(n, w);
      assert bits[..w - 1] == Digits(n / 2, w - 1) && bits[w - 1] == (n % 2 == 1);
      LowOfDigits(n / 2, w - 1);
      BitsPush(n / 2, n % 2 == 1);
    }
  }

  lemma ByteIsEightBits(c: bv16, b: byte)
    ensures ByteStep(c, b) == CrcBits(c, Digits(b, 8))
  {
    hide Steps, Bits, Low, CrcBits, Digits, Xor, Above, Within, Power2, Ones;
    OnesOf7And8();
    BitsAsWord(c, Digits(b, 8));
    LowOfDigits(b, 8);
    BitsFit(b, 8);
    LowByteShifts(Bits(b));
    StepsCompose(Bits(b), 8, 8);
    StepsAreLinear(c, Above(Bits(b)), 8);
  }

  /** The checksum of bytes is that of their bits. */
  lemma {:induction false} CrcIsOfBits(c: bv16, bytes: seq<byte>)
    ensures Crc(c, bytes) == CrcBits(c, AllBits(bytes))
  {
    hide ByteStep, Digits, CrcBits;
    if bytes == [] {
      NoBits(c);
    } else {
      var init, b := bytes[..|bytes| - 1], bytes[|bytes| - 1];
      CrcIsOfBits(c, init);
      BitsConcat(c, AllBits(init), Digits(b, 8));
      ByteIsEightBits(CrcBits(c, AllBits(init)), b);
    }
  }

  lemma NoBits(c: bv16)
    ensures CrcBits(c, []) == c
  {
  }

  lemma {:induction false} DigitsAreInjective(a: nat, b: nat, w: nat)
    requires a < Power2(w) && b < Power2(w) && Digits(a, w) == Digits(b, w)
    ensures a == b
  {
    if w > 0 {
      var x, y := Digits(a, w), Digits(b, w);
      assert x[..w - 1] == Digits(a / 2, w - 1) && y[..w - 1] == Digits(b / 2, w - 1);
      assert x[w - 1] == (a % 2 == 1) && y[w - 1] == (b % 2 == 1);
      DigitsAreInjective(a / 2, b / 2, w - 1);
    }
  }

  lemma {:induction false} AllBitsAreInjective(x: seq<byte>, y: seq<byte>)
    requires |x| == |y| && AllBits(x) == AllBits(y)
    ensures x == y
  {
    hide Digits, Power2;
    if x != [] {
      var u, v := x[..|x| - 1], y[..|y| - 1];
      var bits, bits' := AllBits(x), AllBits(y);
      assert bits[..8 * |u|] == AllBits(u) && bits'[..8 * |v|] == AllBits(v);
      assert bits[8 * |u|..] == Digits(x[|x| - 1], 8) && bits'[8 * |v|..] == Digits(y[|y| - 1], 8);
      AllBitsAreInjective(u, v);
      OnesOf7And8();
      DigitsAreInjective(x[|x| - 1], y[|y| - 1], 8);
      assert x == u + [x[|x| - 1]] && y == v + [y[|y| - 1]];
    }
  }

  lemma {:induction false} AllBitsConcat(x: seq<byte>, y: seq<byte>)
    ensures AllBits(x + y) == AllBits(x) + AllBits(y)
  {
    hide Digits;
    if y == [] {
      assert x + y == x;
    } else {
      assert (x + y)[..|x + y| - 1] == x + y[..|y| - 1];
      AllBitsConcat(x, y[..|y| - 1]);
    }
  }

  /** The bit sequences agree everywhere but in the stretch of `n` bits from `p`. */
  ghost predicate DifferOnlyWithin(x: seq<bool>, y: seq<bool>, p: nat, n: nat) {
    && |x| == |y| && p + n <= |x|
    && forall k :: 0 <= k < |x| && !(p <= k < p + n) ==> x[k] == y[k]
  }

  lemma StretchDrops(u: seq<bool>, a: seq<bool>, b: seq<bool>, p: nat, n: nat)
    requires |a| == |b| && DifferOnlyWithin(u + a, u + b, p, n)
    ensures exists q: nat, m: nat :: m <= n && DifferOnlyWithin(a, b, q, m)
  {
    forall k | 0 <= k < |a| && !(p <= |u| + k < p + n) ensures a[k] == b[k] {
      assert (u + a)[|u| + k] == a[k] && (u + b)[|u| + k] == b[k];
    }
    if |u| <= p {
      assert DifferOnlyWithin(a, b, p - |u|, n);
    } else {
      assert DifferOnlyWithin(a, b, 0, if |u| < p + n then p + n - |u| else 0);
    }
  }

  /** Dropping equal bytes from the front moves the stretch forward. */
  lemma StretchBehind(x: seq<byte>, y: seq<byte>, front: nat, p: nat, n: nat)
    requires front <= |x| == |y| && x[..front] == y[..front] && DifferOnlyWithin(AllBits(x), AllBits(y), p, n)
    ensures exists q: nat, m: nat :: m <= n && DifferOnlyWithin(AllBits(x[front..]), AllBits(y[front..]), q, m)
  {
    hide AllBits, DifferOnlyWithin;
    assert x == x[..front] + x[front..] && y == y[..front] + y[front..];
    AllBitsConcat(x[..front], x[front..]);
    AllBitsConcat(y[..front], y[front..]);
    StretchDrops(AllBits(x[..front]), AllBits(x[front..]), AllBits(y[front..]), p, n);
  }

  lemma BitsAround(c: bv16, x: seq<bool>, p: nat, n: nat)
    requires p + n <= |x|
    ensures CrcBits(c, x) == CrcBits(CrcBits(CrcBits(c, x[..p]), x[p..p + n]), x[p + n..])
  {
    hide CrcBits;
    assert x == x[..p] + x[p..p + n] + x[p + n..];
    BitsConcat(c, x[..p] + x[p..p + n], x[p + n..]);
    BitsConcat(c, x[..p], x[p..p + n]);
  }

  /** Every error burst of up to sixteen bits, at whatever bit it begins, changes the register. */
  lemma BitBurstIsVisible(c: bv16, x: seq<byte>, y: seq<byte>, p: nat, n: nat)
    requires |x| == |y| && x != y && n <= 16 && DifferOnlyWithin(AllBits(x), AllBits(y), p, n)
    ensures Crc(c, x) != Crc(c, y)
  {
    hide Crc, CrcBits, AllBits;
    CrcIsOfBits(c, x);
    CrcIsOfBits(c, y);
    var a, b := AllBits(x), AllBits(y);
    if a == b { AllBitsAreInjective(x, y); }
    assert a[..p] == b[..p] && a[p + n..] == b[p + n..];
    assert a == a[..p] + a[p..p + n] + a[p + n..] && b == b[..p] + b[p..p + n] + b[p + n..];
    BitsAround(c, a, p, n);
    BitsAround(c, b, p, n);
    var d := CrcBits(c, a[..p]);
    DifferentStretches(d, a[p..p + n], b[p..p + n]);
    DifferenceSurvivesBits(CrcBits(d, a[p..p + n]), CrcBits(d, b[p..p + n]), a[p + n..]);
  }

  // ----- the computation -----

  lemma CrcSnoc(c: bv16, bytes: seq<byte>, i: nat)
    requires i < |bytes|
    ensures Crc(c, bytes[..i + 1]) == ByteStep(Crc(c, bytes[..i]), bytes[i])
  {
    hide ByteStep;
    assert bytes[..i + 1][..i] == bytes[..i];
  }

  lemma StepsNone(crc: bv16)
    ensures Steps(crc, 0) == crc
  {
  }

  lemma StepsNext(crc: bv16, n: nat)
    ensures Steps(crc, n + 1) == BitStep(Steps(crc, n))
  {
    hide BitStep;
  }

  method AddBit(crc: bv16) returns (r: bv16)
    ensures r == BitStep(crc)
  {
    if crc & 0x8000 != 0 {
      r := (crc << 1) ^ 0x1021;
    } else {
      r := crc << 1;
    }
  }

  /** One byte, bit by bit. */
  method AddByte(crc: bv16, b: byte) returns (r: bv16)
    ensures r == ByteStep(crc, b)
  {
    hide Xor, Above, Bits, Steps, BitStep;
    var start := Xor(crc, Above(Bits(b)));
    r := start;
    StepsNone(start);
    for bit := 0 to 8
      invariant r == Steps(start, bit)
    {
      StepsNext(start, bit);
      r := AddBit(r);
    }
  }

  /** The checksum as the driver computes it. */
  method Compute(bytes: seq<byte>) returns (crc: bv16)
    ensures crc == Crc(INITIAL, bytes)
  {
    hide ByteStep;
    crc := INITIAL;
    for i := 0 to |bytes|
      invariant crc == Crc(INITIAL, bytes[..i])
    {
      CrcSnoc(INITIAL, bytes, i);
      crc := AddByte(crc, bytes[i]);
    }
    assert bytes[..|bytes|] == bytes;
  }
}
