/** The bytes on the wire, written out: where each field stands, and which buffers the driver takes for a frame. */
module LoRaWire {

  import opened Option
  import opened Crc16
  import opened Crc16Polynomial
  import opened LoRaFraming

  function Number16(high: nat, low: nat): nat {
    0x100 * high + low
  }

  function Number32(a: nat, b: nat, c: nat, d: nat): nat {
    0x100_0000 * a + 0x1_0000 * b + 0x100 * c + d
  }

  /** Every printed byte: marker, version 1, kind, sequence and length with the high byte first, payload, checksum. */
  lemma WireLayout(frame: Frame)
    requires |frame.payload| <= 512
    ensures var n := |frame.payload|;
            && Encoded(frame).Some? && |Encoded(frame).value| == 12 + n
            && var w := Encoded(frame).value;
               && w[0] == 0xAA && w[1] == 0x55 && w[2] == 1 && w[3] == frame.kind
               && frame.sequence == Number32(w[4], w[5], w[6], w[7])
               && n == Number16(w[8], w[9]) && w[10..10 + n] == frame.payload
               && IsRemainder(AllBits(w[2..10 + n]), Word(w[10 + n], w[11 + n]))
  {
    hide Crc, Word, HighByte, LowByte, IsRemainder, AllBits;
    var w, n := Wire(VERSION, frame), |frame.payload|;
    var body := Body(VERSION, frame);
    assert w[2..10 + n] == body && w[10..10 + n] == body[8..] == frame.payload;
    assert w[4] == body[2] == U32(frame.sequence)[0] && w[5] == body[3] == U32(frame.sequence)[1];
    assert w[6] == body[4] == U32(frame.sequence)[2] && w[7] == body[5] == U32(frame.sequence)[3];
    assert w[8] == body[6] == U16(n)[0] && w[9] == body[7] == U16(n)[1];
    WordRoundTrip(Crc(INITIAL, body));
    CrcIsTheRemainder(body, Crc(INITIAL, body));
  }

  /** A longer payload is not printed at all. */
  lemma EncodedExactlyWhen(frame: Frame)
    ensures Encoded(frame).Some? <==> |frame.payload| <= 512
  {
  }

  /** The bytes at a marker are a whole frame of a known version, of at most 512 payload bytes, with its checksum. */
  ghost predicate IsFrame(s: seq<byte>) {
    && |s| >= 12 && s[0] == 0xAA && s[1] == 0x55 && (s[2] == 1 || s[2] == 2)
    && var n := Number16(s[8], s[9]);
       n <= 512 && 12 + n <= |s| && IsRemainder(AllBits(s[2..10 + n]), Word(s[10 + n], s[11 + n]))
  }

  /** They may still become one: what is there so far fits, and more is to come. */
  predicate MayBecomeFrame(s: seq<byte>) {
    && |s| >= 2 && s[0] == 0xAA && s[1] == 0x55
    && (|s| >= 10 ==> (s[2] == 1 || s[2] == 2) && Number16(s[8], s[9]) <= 512 && |s| < 12 + Number16(s[8], s[9]))
  }

  lemma JudgedExactlyWhen(s: seq<byte>)
    requires |s| >= 2 && s[0] == 0xAA && s[1] == 0x55
    ensures StartsFrame(s)
    ensures Judge(s).Accept? <==> IsFrame(s)
    ensures Judge(s) == Wait <==> MayBecomeFrame(s)
    ensures IsFrame(s) ==>
              var n := Number16(s[8], s[9]);
              && Judge(s) == Accept(12 + n)
              && FrameAt(s, 12 + n) == Frame(s[2], s[3], Number32(s[4], s[5], s[6], s[7]), s[10..10 + n])
  {
    hide Crc, Word, IsRemainder, AllBits;
    if |s| >= 12 {
      var n := ReadU16(s, 8);
      if 12 + n <= |s| { CrcIsTheRemainder(s[2..10 + n], Word(s[10 + n], s[11 + n])); }
    }
  }

  // ----- one frame, byte by byte -----

  lemma SmallBits()
    ensures Bits(0) == 0 && Bits(1) == 1 && Bits(2) == 2 && Bits(3) == 3 && Bits(4) == 4 && Bits(7) == 7
  {
  }

  const SAMPLE := Frame(2, 1, 0x01020304, [7])

  lemma SampleChecksum()
    ensures Crc(INITIAL, [1, 1, 1, 2, 3, 4, 0, 1, 7]) == 0xE056
  {
    hide Crc, Bits;
    SmallBits();
    EmptyCrc();
    ByteTo([], 0xFFFF, 1, 1, 0xF1D1);
    assert [] + [1] == [1];
    ByteTo([1], 0xF1D1, 1, 1, 0x3E1F);
    assert [1] + [1] == [1, 1];
    ByteTo([1, 1], 0x3E1F, 1, 1, 0xD8BC);
    assert [1, 1] + [1] == [1, 1, 1];
    ByteTo([1, 1, 1], 0xD8BC, 2, 2, 0xD637);
    assert [1, 1, 1] + [2] == [1, 1, 1, 2];
    ByteTo([1, 1, 1, 2], 0xD637, 3, 3, 0xACD8);
    assert [1, 1, 1, 2] + [3] == [1, 1, 1, 2, 3];
    ByteTo([1, 1, 1, 2, 3], 0xACD8, 4, 4, 0xECE2);
    assert [1, 1, 1, 2, 3] + [4] == [1, 1, 1, 2, 3, 4];
    ByteTo([1, 1, 1, 2, 3, 4], 0xECE2, 0, 0, 0xDEA2);
    assert [1, 1, 1, 2, 3, 4] + [0] == [1, 1, 1, 2, 3, 4, 0];
    ByteTo([1, 1, 1, 2, 3, 4, 0], 0xDEA2, 1, 1, 0x9892);
    assert [1, 1, 1, 2, 3, 4, 0] + [1] == [1, 1, 1, 2, 3, 4, 0, 1];
    ByteTo([1, 1, 1, 2, 3, 4, 0, 1], 0x9892, 7, 7, 0xE056);
    assert [1, 1, 1, 2, 3, 4, 0, 1] + [7] == [1, 1, 1, 2, 3, 4, 0, 1, 7];
  }

  lemma SampleBytes()
    ensures HighByte(0xE056) == 0xE0 && LowByte(0xE056) == 0x56
  {
    assert Number(0x00, 0) == 0;
    assert Number(0x01, 1) == 1;
    assert Number(0x03, 2) == 3;
    assert Number(0x07, 3) == 7;
    assert Number(0x0E, 4) == 14;
    assert Number(0x1C, 5) == 28;
    assert Number(0x38, 6) == 56;
    assert Number(0x70, 7) == 112;
    assert Number(0xE0, 8) == 224;
    assert Number(0x00, 0) == 0;
    assert Number(0x00, 1) == 0;
    assert Number(0x01, 2) == 1;
    assert Number(0x02, 3) == 2;
    assert Number(0x05, 4) == 5;
    assert Number(0x0A, 5) == 10;
    assert Number(0x15, 6) == 21;
    assert Number(0x2B, 7) == 43;
    assert Number(0x56, 8) == 86;
  }

  /** The frame of kind 1, sequence 0x01020304 and the one payload byte 7. */
  lemma SampleIsPrinted()
    ensures Encoded(SAMPLE) ==
            Some([0xAA, 0x55, 1, 1, 1, 2, 3, 4, 0, 1, 7, 0xE0, 0x56])
  {
    hide Crc, HighByte, LowByte;
    assert U16(0x0102) == [1, 2] && U16(0x0304) == [3, 4] && U16(1) == [0, 1];
    assert U32(0x01020304) == [1, 2, 3, 4];
    assert Body(1, SAMPLE) == [1, 1, 1, 2, 3, 4, 0, 1, 7];
    SampleChecksum();
    SampleBytes();
    var body: seq<byte> := [1, 1, 1, 2, 3, 4, 0, 1, 7];
    assert Crc(INITIAL, body) == 0xE056;
    var whole: seq<byte> := [0xAA, 0x55, 1, 1, 1, 2, 3, 4, 0, 1, 7, 0xE0, 0x56];
    assert Wire(1, SAMPLE) == [SOF0, SOF1] + body + [0xE0, 0x56] == whole;
  }
}
