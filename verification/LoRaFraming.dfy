/**
 The framing layer over the LoRa byte stream: an incremental parser that resynchronises after noise,
 its printer, and the driver that keeps the unparsed bytes between two reads.
 */
module LoRaFraming {

  import opened Option
  import opened Crc16

  const SOF0: byte := 0xAA
  const SOF1: byte := 0x55
  const VERSION: byte := 1
  const VERSION_LEGACY: byte := 1
  const VERSION_NODE_AWARE: byte := 2
  const MAX_PAYLOAD: nat := 512

  type u32 = n: nat | n < 0x1_0000_0000

  datatype Frame = Frame(version: byte, kind: byte, sequence: u32, payload: seq<byte>)

  // ----- big-endian numbers -----

  function ReadU16(s: seq<byte>, i: nat): (n: nat)
    requires i + 2 <= |s|
    ensures n < 0x1_0000
  {
    var high: nat := s[i];
    256 * high + s[i + 1]
  }

  function ReadU32(s: seq<byte>, i: nat): (n: u32)
    requires i + 4 <= |s|
  {
    var high, low := ReadU16(s, i), ReadU16(s, i + 2);
    0x1_0000 * high + low
  }

  function U16(n: nat): (s: seq<byte>)
    requires n < 0x1_0000
    ensures |s| == 2 && ReadU16(s, 0) == n
  {
    [n / 256, n % 256]
  }

  function U32(n: u32): (s: seq<byte>)
    ensures |s| == 4 && ReadU32(s, 0) == n
  {
    var high, low := n / 0x1_0000, n % 0x1_0000;
    U16(high) + U16(low)
  }

  /** Both readers are injective, so printing what was read gives the same bytes. */
  lemma ReprintU16(s: seq<byte>)
    requires |s| == 2
    ensures U16(ReadU16(s, 0)) == s
  {
  }

  lemma ReprintU32(s: seq<byte>)
    requires |s| == 4
    ensures U32(ReadU32(s, 0)) == s
  {
    hide U16;
    var n := ReadU32(s, 0);
    assert ReadU16(s[..2], 0) == ReadU16(s, 0) && ReadU16(s[2..], 0) == ReadU16(s, 2);
    ReprintU16(s[..2]);
    ReprintU16(s[2..]);
    assert n / 0x1_0000 == ReadU16(s, 0) && n % 0x1_0000 == ReadU16(s, 2);
  }

  // ----- the printer -----

  /** The bytes of a frame on the wire under a given version byte. */
  function Wire(version: byte, frame: Frame): (w: seq<byte>)
    requires |frame.payload| <= MAX_PAYLOAD
    ensures |w| == 12 + |frame.payload|
  {
    var body := Body(version, frame);
    var crc := Crc(INITIAL, body);
    [SOF0, SOF1] + body + [HighByte(crc), LowByte(crc)]
  }

  /** The part of the frame that its checksum covers. */
  function Body(version: byte, frame: Frame): (w: seq<byte>)
    requires |frame.payload| <= MAX_PAYLOAD
    ensures |w| == 8 + |frame.payload|
  {
    [version, frame.kind] + U32(frame.sequence) + U16(|frame.payload|) + frame.payload
  }

  /** `encode`: the driver prints its own version, whatever version the frame carries. */
  function Encoded(frame: Frame): (w: Option<seq<byte>>) {
    if |frame.payload| > MAX_PAYLOAD then None else Some(Wire(VERSION, frame))
  }

  // ----- the parser -----

  predicate StartsFrame(b: seq<byte>) {
    |b| >= 2 && b[0] == SOF0 && b[1] == SOF1
  }

  predicate MarkerFree(b: seq<byte>) {
    forall i :: 0 <= i < |b| ==> !StartsFrame(b[i..])
  }

  /** Drop everything before the first start marker; a trailing first half of a marker is kept. */
  function Resync(b: seq<byte>): (s: seq<byte>)
    ensures |s| <= |b|
    ensures s == [] || s == [SOF0] || StartsFrame(s)
  {
    if StartsFrame(b) || b == [SOF0] then b
    else if |b| <= 1 then []
    else Resync(b[1..])
  }

  datatype Verdict = Wait | Reject | Accept(size: nat)

  /** What the driver decides about the bytes at a start marker. */
  function Judge(s: seq<byte>): (v: Verdict)
    requires StartsFrame(s)
    ensures v.Accept? ==> 12 <= v.size <= |s|
  {
    if |s| < 10 then Wait
    else if s[2] != VERSION_LEGACY && s[2] != VERSION_NODE_AWARE then Reject
    else
      var n := ReadU16(s, 8);
      if n > MAX_PAYLOAD then Reject
      else if |s| < 12 + n then Wait
      else if Word(s[10 + n], s[11 + n]) != Crc(INITIAL, s[2..10 + n]) then Reject
      else Accept(12 + n)
  }

  /** The frame read from accepted bytes. */
  function FrameAt(s: seq<byte>, size: nat): (f: Frame)
    requires 12 <= size <= |s|
  {
    Frame(s[2], s[3], ReadU32(s, 4), s[10..size - 2])
  }

  datatype Parsed = Parsed(frames: seq<Frame>, rest: seq<byte>, rejected: nat)

  function Then(p: Parsed, q: Parsed): Parsed {
    Parsed(p.frames + q.frames, q.rest, p.rejected + q.rejected)
  }

  /** One call of `consume` on a buffer that already holds the new bytes. */
  function Parse(b: seq<byte>): (p: Parsed)
    decreases |b|
  {
    var s := Resync(b);
    if !StartsFrame(s) then Parsed([], s, 0)
    else
      match Judge(s)
      case Wait => Parsed([], s, 0)
      case Reject => Then(Parsed([], [], 1), Parse(s[1..]))
      case Accept(size) => Then(Parsed([FrameAt(s, size)], [], 0), Parse(s[size..]))
  }

  // ----- chunking is invisible -----

  lemma {:induction false} ResyncTwice(a: seq<byte>, b: seq<byte>)
    ensures Resync(Resync(a) + b) == Resync(a + b)
  {
    if StartsFrame(a) || a == [SOF0] {
    } else if |a| <= 1 {
      assert Resync(a) + b == b;
      if |a| == 1 { assert (a + b)[1..] == b; }
    } else {
      assert (a + b)[1..] == a[1..] + b;
      ResyncTwice(a[1..], b);
    }
  }

  lemma ParseResynced(b: seq<byte>)
    ensures Parse(Resync(b)) == Parse(b)
  {
    ResyncTwice(b, []);
    assert b + [] == b && Resync(b) + [] == Resync(b);
  }

  /** A decision once taken is not changed by later bytes. */
  lemma JudgeIsStable(s: seq<byte>, x: seq<byte>)
    requires StartsFrame(s)
    requires Judge(s) != Wait
    ensures StartsFrame(s + x) && Judge(s + x) == Judge(s)
    ensures Judge(s).Accept? ==> FrameAt(s + x, Judge(s).size) == FrameAt(s, Judge(s).size)
  {
    hide Crc, Word;
    var n := ReadU16(s, 8);
    if |s| >= 12 + n {
      assert (s + x)[2..10 + n] == s[2..10 + n];
      assert (s + x)[10..10 + n] == s[10..10 + n];
    }
  }

  lemma ThenIsAssociative(p: Parsed, q: Parsed, r: Parsed)
    ensures Then(Then(p, q), r) == Then(p, Then(q, r))
  {
    assert p.frames + q.frames + r.frames == p.frames + (q.frames + r.frames);
  }

  lemma ThenNothing(q: Parsed, s: seq<byte>)
    ensures Then(Parsed([], s, 0), q) == q && Then(q, Parsed([], s, 0)) == q.(rest := s)
  {
  }

  /** Reading a stream in two pieces is reading it in one. */
  lemma {:induction false} TwoChunks(a: seq<byte>, b: seq<byte>)
    ensures Parse(a + b) == Then(Parse(a), Parse(Parse(a).rest + b))
    decreases |a|
  {
    hide Resync, Judge, FrameAt, Then;
    var s := Resync(a);
    ResyncTwice(a, b);
    ParseResynced(a + b);
    ParseResynced(s + b);
    assert Parse(a + b) == Parse(s + b);
    if !StartsFrame(s) || Judge(s) == Wait {
      ThenNothing(Parse(s + b), s);
    } else {
      JudgeIsStable(s, b);
      StartedStays(s + b);
      var size := if Judge(s) == Reject then 1 else Judge(s).size;
      assert (s + b)[size..] == s[size..] + b;
      TwoChunks(s[size..], b);
      var here := if Judge(s) == Reject then Parsed([], [], 1) else Parsed([FrameAt(s, size)], [], 0);
      ThenRest(here, Parse(s[size..]));
      ThenIsAssociative(here, Parse(s[size..]), Parse(Parse(s[size..]).rest + b));
    }
  }

  lemma StartedStays(s: seq<byte>)
    requires StartsFrame(s)
    ensures Resync(s) == s
  {
  }

  lemma ThenRest(p: Parsed, q: Parsed)
    ensures Then(p, q).rest == q.rest
  {
  }

  function Flatten(chunks: seq<seq<byte>>): seq<byte> {
    if chunks == [] then [] else chunks[0] + Flatten(chunks[1..])
  }

  /** A run of `consume` calls, one per chunk, from a given buffer. */
  function Feed(buffer: seq<byte>, chunks: seq<seq<byte>>): Parsed
    decreases |chunks|
  {
    if chunks == [] then Parsed([], buffer, 0)
    else
      var p := Parse(buffer + chunks[0]);
      Then(p, Feed(p.rest, chunks[1..]))
  }

  /** The buffers a call can leave behind. */
  predicate Settled(b: seq<byte>) {
    || b == [] || b == [SOF0]
    || (StartsFrame(b) && Judge(b) == Wait)
  }

  lemma SettledParsesToItself(b: seq<byte>)
    ensures Settled(b) <==> Parse(b) == Parsed([], b, 0)
  {
    hide Judge;
    RestIsSettled(b);
  }

  lemma {:induction false} RestIsSettled(b: seq<byte>)
    ensures Settled(Parse(b).rest)
    decreases |b|
  {
    hide Judge, FrameAt;
    var s := Resync(b);
    if StartsFrame(s) && Judge(s) != Wait {
      RestIsSettled(s[if Judge(s) == Reject then 1 else Judge(s).size..]);
    }
  }

  /** Whatever arrives, the driver keeps less than one frame, and only bytes that may begin one. */
  lemma BufferIsBounded(b: seq<byte>)
    ensures var rest := Parse(b).rest;
            && |rest| <= 523
            && (rest == [] || rest == [SOF0] || StartsFrame(rest))
  {
    RestIsSettled(b);
  }

  /** For every way of cutting the stream, the frames, the buffer and the count are those of one call. */
  lemma {:induction false} ChunkingIsInvisible(buffer: seq<byte>, chunks: seq<seq<byte>>)
    requires Settled(buffer)
    ensures Feed(buffer, chunks) == Parse(buffer + Flatten(chunks))
    decreases |chunks|
  {
    if chunks == [] {
      SettledParsesToItself(buffer);
      assert buffer + [] == buffer;
    } else {
      hide Then, Parse, Settled;
      var p := Parse(buffer + chunks[0]);
      RestIsSettled(buffer + chunks[0]);
      ChunkingIsInvisible(p.rest, chunks[1..]);
      TwoChunks(buffer + chunks[0], Flatten(chunks[1..]));
      FlattenOne(buffer, chunks);
    }
  }

  lemma FlattenOne(buffer: seq<byte>, chunks: seq<seq<byte>>)
    requires chunks != []
    ensures buffer + chunks[0] + Flatten(chunks[1..]) == buffer + Flatten(chunks)
  {
    var more := Flatten(chunks[1..]);
    assert buffer + chunks[0] + more == buffer + (chunks[0] + more);
  }

  // ----- the parser undoes the printer -----

  /** The driver accepts every frame it prints, whatever follows. */
  lemma PrintedIsAccepted(version: byte, frame: Frame, x: seq<byte>)
    requires |frame.payload| <= MAX_PAYLOAD
    requires version == VERSION_LEGACY || version == VERSION_NODE_AWARE
    ensures var w := Wire(version, frame);
            && StartsFrame(w + x)
            && Judge(w + x) == Accept(|w|)
            && FrameAt(w + x, |w|) == frame.(version := version)
  {
    hide Crc, Word, HighByte, LowByte, U16, U32;
    var body := Body(version, frame);
    var w := Wire(version, frame);
    var n := |frame.payload|;
    var s := w + x;
    WordRoundTrip(Crc(INITIAL, body));
    assert s[2..10 + n] == body;
    assert s[4..8] == U32(frame.sequence) && s[8..10] == U16(n);
    assert s[4] == s[4..8][0] && s[5] == s[4..8][1] && s[6] == s[4..8][2] && s[7] == s[4..8][3];
    assert s[8] == s[8..10][0] && s[9] == s[8..10][1];
    assert s[10..10 + n] == frame.payload;
  }

  /** Accepted bytes are exactly the wire form of the frame that is emitted for them. */
  lemma EmittedIsPrinted(s: seq<byte>)
    requires StartsFrame(s) && Judge(s).Accept?
    ensures var size := Judge(s).size;
            && |FrameAt(s, size).payload| <= MAX_PAYLOAD
            && s[..size] == Wire(s[2], FrameAt(s, size))
  {
    hide Crc, Word, HighByte, LowByte, U16, U32;
    var n := ReadU16(s, 8);
    var frame := FrameAt(s, 12 + n);
    var crc := Crc(INITIAL, s[2..10 + n]);
    ReprintU32(s[4..8]);
    ReprintU16(s[8..10]);
    assert s[2..10 + n] == [s[2], s[3]] + s[4..8] + s[8..10] + s[10..10 + n];
    assert s[2..10 + n] == Body(s[2], frame);
    WordRoundTrip(crc);
    WordIsInjective(HighByte(crc), LowByte(crc), s[10 + n], s[11 + n]);
    assert s[..12 + n] == [s[0], s[1]] + s[2..10 + n] + [s[10 + n], s[11 + n]];
  }

  predicate Printable(frames: seq<Frame>) {
    forall i :: 0 <= i < |frames| ==> |frames[i].payload| <= MAX_PAYLOAD
  }

  /** The concatenated wire forms of a list of frames. */
  function Stream(frames: seq<Frame>): seq<byte>
    requires Printable(frames)
  {
    if frames == [] then [] else Wire(VERSION, frames[0]) + Stream(frames[1..])
  }

  function Stamped(frames: seq<Frame>): (r: seq<Frame>) {
    seq(|frames|, i requires 0 <= i < |frames| => frames[i].(version := VERSION))
  }

  lemma {:induction false} SkipGarbage(garbage: seq<byte>, x: seq<byte>)
    requires MarkerFree(garbage)
    requires x == [] || x[0] != SOF1
    ensures Resync(garbage + x) == if x == [] then Resync(garbage) else Resync(x)
    ensures x == [] ==> !StartsFrame(Resync(garbage))
  {
    if garbage == [] {
      assert garbage + x == x;
    } else {
      assert !StartsFrame(garbage[0..]);
      assert garbage[0..] == garbage;
      assert (garbage + x)[1..] == garbage[1..] + x;
      assert MarkerFree(garbage[1..]) by {
        forall i | 0 <= i < |garbage| - 1 ensures !StartsFrame(garbage[1..][i..]) {
          assert garbage[1..][i..] == garbage[i + 1..];
        }
      }
      SkipGarbage(garbage[1..], x);
      assert x == [] ==> garbage + x == garbage;
    }
  }

  lemma OneFrameParses(frame: Frame, more: seq<byte>)
    requires |frame.payload| <= MAX_PAYLOAD
    ensures Parse(Wire(VERSION, frame) + more) == Then(Parsed([frame.(version := VERSION)], [], 0), Parse(more))
  {
    hide Judge, FrameAt, Wire, Then, StartsFrame;
    var w := Wire(VERSION, frame);
    PrintedIsAccepted(VERSION, frame, more);
    StartedStays(w + more);
    assert (w + more)[|w|..] == more;
  }

  lemma {:induction false} StreamParses(frames: seq<Frame>, x: seq<byte>)
    requires Printable(frames)
    ensures Parse(Stream(frames) + x) == Then(Parsed(Stamped(frames), [], 0), Parse(x))
  {
    hide Parse, Wire, Then, Stream, StartsFrame, Stamped;
    if frames == [] {
      StreamNone(frames, x);
      ThenNothing(Parse(x), []);
    } else {
      StreamOne(frames, x);
      OneFrameParses(frames[0], Stream(frames[1..]) + x);
      StreamParses(frames[1..], x);
      StampedOne(frames);
      var first := [frames[0].(version := VERSION)];
      ThenIsAssociative(Parsed(first, [], 0), Parsed(Stamped(frames[1..]), [], 0), Parse(x));
      JoinFrames(first, Stamped(frames[1..]));
    }
  }

  lemma StreamNone(frames: seq<Frame>, x: seq<byte>)
    requires frames == []
    ensures Stream(frames) + x == x && Stamped(frames) == []
  {
  }

  lemma StampedOne(frames: seq<Frame>)
    requires frames != []
    ensures Stamped(frames) == [frames[0].(version := VERSION)] + Stamped(frames[1..])
  {
  }

  lemma StreamOne(frames: seq<Frame>, x: seq<byte>)
    requires Printable(frames) && frames != []
    ensures Stream(frames) + x == Wire(VERSION, frames[0]) + (Stream(frames[1..]) + x)
  {
    hide Wire;
    var w, more := Wire(VERSION, frames[0]), Stream(frames[1..]);
    assert w + more + x == w + (more + x);
  }

  lemma JoinFrames(f: seq<Frame>, g: seq<Frame>)
    ensures Then(Parsed(f, [], 0), Parsed(g, [], 0)) == Parsed(f + g, [], 0)
  {
  }

  /** What marker-free noise leaves when nothing follows it: at most a possible first half of a marker. */
  function Leftover(garbage: seq<byte>): seq<byte> {
    if garbage != [] && garbage[|garbage| - 1] == SOF0 then [SOF0] else []
  }

  /** Garbage without a marker followed by printed frames yields exactly those frames. */
  lemma ParserUndoesPrinter(garbage: seq<byte>, frames: seq<Frame>)
    requires MarkerFree(garbage)
    requires Printable(frames)
    ensures Parse(garbage + Stream(frames)) ==
            Parsed(Stamped(frames), if frames == [] then Leftover(garbage) else [], 0)
  {
    hide Judge, Wire, Parse, FrameAt, Stream, Resync, MarkerFree, Then;
    var x := Stream(frames);
    if frames == [] {
      OnlyGarbage(garbage);
      StreamStarts(frames);
      assert garbage + x == garbage;
      assert Stamped(frames) == [];
    } else {
      StreamParses(frames, []);
      assert x + [] == x;
      EmptyParses();
      JoinFrames(Stamped(frames), []);
      assert Stamped(frames) + [] == Stamped(frames);
      StreamStarts(frames);
      SkipGarbage(garbage, x);
      ParseResynced(garbage + x);
      ParseResynced(x);
    }
  }

  lemma StreamStarts(frames: seq<Frame>)
    requires Printable(frames)
    ensures frames == [] ==> Stream(frames) == []
    ensures frames != [] ==> Stream(frames) != [] && Stream(frames)[0] == SOF0
  {
    if frames != [] {
      var w := Wire(VERSION, frames[0]);
      assert w[0] == SOF0;
    }
  }

  lemma EmptyParses()
    ensures Parse([]) == Parsed([], [], 0)
  {
  }

  /** Noise without a marker disappears; only a possible first half of a marker is kept. */
  lemma {:induction false} OnlyGarbage(garbage: seq<byte>)
    requires MarkerFree(garbage)
    ensures Parse(garbage) == Parsed([], Leftover(garbage), 0)
  {
    if |garbage| > 1 {
      assert garbage[0..] == garbage;
      assert MarkerFree(garbage[1..]) by {
        forall i | 0 <= i < |garbage| - 1 ensures !StartsFrame(garbage[1..][i..]) {
          assert garbage[1..][i..] == garbage[i + 1..];
        }
      }
      OnlyGarbage(garbage[1..]);
      ParseResynced(garbage);
      ParseResynced(garbage[1..]);
    }
  }

  // ----- nothing is invented -----

  /** The pieces occur in `b` in this order, without overlap, and the last one ends it. */
  ghost predicate Occurs(pieces: seq<seq<byte>>, b: seq<byte>) {
    if pieces == [] then b == []
    else exists i | 0 <= i <= |b| ::
        var tail := b[i..];
        && pieces[0] <= tail
        && (if |pieces| == 1 then pieces[0] == tail else Occurs(pieces[1..], tail[|pieces[0]|..]))
  }

  function Wires(frames: seq<Frame>): (r: seq<seq<byte>>)
    requires Printable(frames)
    ensures |r| == |frames|
  {
    if frames == [] then [] else [Wire(frames[0].version, frames[0])] + Wires(frames[1..])
  }

  lemma {:induction false} ResyncIsSuffix(b: seq<byte>) returns (i: nat)
    ensures i <= |b| && b[i..] == Resync(b)
  {
    if StartsFrame(b) || b == [SOF0] {
      i := 0;
    } else if |b| <= 1 {
      i := |b|;
    } else {
      i := ResyncIsSuffix(b[1..]);
      assert b[1..][i..] == b[i + 1..];
      i := i + 1;
    }
  }

  lemma OccursLater(pieces: seq<seq<byte>>, b: seq<byte>, i: nat)
    requires pieces != [] && i <= |b| && Occurs(pieces, b[i..])
    ensures Occurs(pieces, b)
  {
    var c := b[i..];
    var j :| 0 <= j <= |c| && pieces[0] <= c[j..] &&
             (if |pieces| == 1 then pieces[0] == c[j..] else Occurs(pieces[1..], c[j..][|pieces[0]|..]));
    assert c[j..] == b[i + j..];
  }

  lemma OccursFirst(piece: seq<byte>, more: seq<seq<byte>>, b: seq<byte>)
    requires more != [] && piece <= b && Occurs(more, b[|piece|..])
    ensures Occurs([piece] + more, b)
  {
    var pieces := [piece] + more;
    assert pieces[1..] == more && b[0..] == b;
    assert piece <= b[0..];
  }

  /** The emitted frames, printed again, and then the kept buffer lie in the stream in this order. */
  lemma {:induction false} FramesOccurInOrder(b: seq<byte>)
    ensures Printable(Parse(b).frames)
    ensures Occurs(Wires(Parse(b).frames) + [Parse(b).rest], b)
    decreases |b|
  {
    hide Judge, FrameAt, Wire, Occurs, Resync;
    var p := Parse(b);
    var s := Resync(b);
    var i := ResyncIsSuffix(b);
    if !StartsFrame(s) || Judge(s) == Wait {
      assert Wires(p.frames) + [p.rest] == [s];
      OccursOnce(s);
    } else if Judge(s) == Reject {
      FramesOccurInOrder(s[1..]);
      assert p.frames == Parse(s[1..]).frames;
      OccursLater(Wires(p.frames) + [p.rest], s, 1);
    } else {
      var size := Judge(s).size;
      var q := Parse(s[size..]);
      FramesOccurInOrder(s[size..]);
      EmittedIsPrinted(s);
      var f := FrameAt(s, size);
      ReadsVersion(s, size);
      assert p.frames == [f] + q.frames && p.frames[1..] == q.frames;
      assert Wires(p.frames) == [Wire(f.version, f)] + Wires(q.frames);
      var more := Wires(q.frames) + [q.rest];
      assert Wires(p.frames) + [p.rest] == [Wire(f.version, f)] + more;
      OccursFirst(Wire(f.version, f), more, s);
    }
    OccursLater(Wires(p.frames) + [p.rest], b, i);
  }

  lemma ReadsVersion(s: seq<byte>, size: nat)
    requires 12 <= size <= |s|
    ensures FrameAt(s, size).version == s[2]
  {
  }

  lemma OccursOnce(s: seq<byte>)
    ensures Occurs([s], s)
  {
    assert s[0..] == s;
  }

  // ----- error bursts -----

  /** An accepted frame's checksum register, run over the checksum too, ends at zero; and conversely. */
  lemma AcceptedExactlyWhenZero(s: seq<byte>)
    requires StartsFrame(s) && |s| >= 12 && |s| == 12 + ReadU16(s, 8) <= 12 + MAX_PAYLOAD
    requires s[2] == VERSION_LEGACY || s[2] == VERSION_NODE_AWARE
    ensures Judge(s) == Accept(|s|) <==> Crc(INITIAL, s[2..]) == 0
    ensures Judge(s) != Accept(|s|) ==> Judge(s) == Reject
  {
    hide Crc, Word;
    var n := ReadU16(s, 8);
    assert s[2..] == s[2..10 + n] + [s[10 + n], s[11 + n]];
    MatchesExactlyWhenZero(s[2..10 + n], s[10 + n], s[11 + n]);
  }

  /**
   A frame that was altered only inside two adjacent bytes, outside its marker and length, is rejected
   at its own marker, whatever bytes follow.
   */
  lemma BurstIsRejected(w: seq<byte>, y: seq<byte>, i: nat, x: seq<byte>)
    requires StartsFrame(w) && Judge(w) == Accept(|w|)
    requires DifferOnlyAt(w, y, i) && y != w
    requires y[0] == w[0] && y[1] == w[1] && y[8] == w[8] && y[9] == w[9]
    ensures StartsFrame(y + x) && Judge(y + x) == Reject
    ensures Parse(y + x) == Then(Parsed([], [], 1), Parse((y + x)[1..]))
  {
    assert Judge(y) == Reject by {
      hide Crc, Word;
      if y[2] == VERSION_LEGACY || y[2] == VERSION_NODE_AWARE {
        AcceptedExactlyWhenZero(w);
        AcceptedExactlyWhenZero(y);
        BodiesDiffer(w, y, i);
        BurstIsVisible(INITIAL, w[2..], y[2..], if i < 2 then 0 else i - 2);
      }
    }
    JudgeIsStable(y, x);
    StartedStays(y + x);
  }

  lemma BodiesDiffer(w: seq<byte>, y: seq<byte>, i: nat)
    requires |w| >= 12 && DifferOnlyAt(w, y, i) && y != w
    requires y[0] == w[0] && y[1] == w[1]
    ensures DifferOnlyAt(w[2..], y[2..], if i < 2 then 0 else i - 2) && w[2..] != y[2..]
  {
    assert w == [w[0], w[1]] + w[2..] && y == [y[0], y[1]] + y[2..];
  }

  lemma BodiesDifferInBits(w: seq<byte>, y: seq<byte>, p: nat, n: nat)
    requires |y| == |w| && |w| >= 2 && y != w && n <= 16 && y[0] == w[0] && y[1] == w[1]
    requires DifferOnlyWithin(AllBits(w), AllBits(y), p, n)
    ensures Crc(INITIAL, w[2..]) != Crc(INITIAL, y[2..])
  {
    hide Crc, AllBits, DifferOnlyWithin;
    assert w[..2] == y[..2];
    assert w == w[..2] + w[2..] && y == y[..2] + y[2..];
    StretchBehind(w, y, 2, p, n);
    var q: nat, m: nat :| m <= n && DifferOnlyWithin(AllBits(w[2..]), AllBits(y[2..]), q, m);
    BitBurstIsVisible(INITIAL, w[2..], y[2..], q, m);
  }

  /** The same for a burst of up to sixteen bits that may begin inside a byte and so touch three of them. */
  lemma BitBurstIsRejected(w: seq<byte>, y: seq<byte>, p: nat, n: nat, x: seq<byte>)
    requires StartsFrame(w) && Judge(w) == Accept(|w|)
    requires |y| == |w| && y != w && n <= 16 && DifferOnlyWithin(AllBits(w), AllBits(y), p, n)
    requires y[0] == w[0] && y[1] == w[1] && y[8] == w[8] && y[9] == w[9]
    ensures StartsFrame(y + x) && Judge(y + x) == Reject
    ensures Parse(y + x) == Then(Parsed([], [], 1), Parse((y + x)[1..]))
  {
    assert Judge(y) == Reject by {
      hide Crc, Word, AllBits, DifferOnlyWithin;
      if y[2] == VERSION_LEGACY || y[2] == VERSION_NODE_AWARE {
        AcceptedExactlyWhenZero(w);
        AcceptedExactlyWhenZero(y);
        BodiesDifferInBits(w, y, p, n);
      }
    }
    hide AllBits, DifferOnlyWithin;
    JudgeIsStable(y, x);
    StartedStays(y + x);
  }

  /** The same for a frame as the driver itself prints it. */
  lemma PrintedBurstIsRejected(frame: Frame, y: seq<byte>, i: nat, x: seq<byte>)
    requires |frame.payload| <= MAX_PAYLOAD
    requires var w := Wire(VERSION, frame);
             DifferOnlyAt(w, y, i) && y != w && forall k <- [0, 1, 8, 9] :: y[k] == w[k]
    ensures StartsFrame(y + x) && Judge(y + x) == Reject
  {
    hide Judge, Wire;
    var w := Wire(VERSION, frame);
    PrintedIsAccepted(VERSION, frame, []);
    assert w + [] == w;
    var places := [0, 1, 8, 9];
    assert places[0] == 0 && places[1] == 1 && places[2] == 8 && places[3] == 9;
    BurstIsRejected(w, y, i, x);
  }

  // ----- the driver -----

  /** `std::search` for the start marker. */
  method Search(b: seq<byte>) returns (at: nat)
    ensures at <= |b|
    ensures at < |b| ==> StartsFrame(b[at..])
    ensures forall i :: 0 <= i < at ==> !StartsFrame(b[i..])
  {
    at := 0;
    while at < |b| && !(at + 1 < |b| && b[at] == SOF0 && b[at + 1] == SOF1)
      invariant at <= |b|
      invariant forall i :: 0 <= i < at ==> !StartsFrame(b[i..])
    {
      at := at + 1;
    }
  }

  lemma {:induction false} ResyncAt(b: seq<byte>, at: nat)
    requires at < |b| && StartsFrame(b[at..])
    requires forall i :: 0 <= i < at ==> !StartsFrame(b[i..])
    ensures Resync(b) == b[at..]
  {
    if at == 0 {
      assert b[0..] == b;
    } else {
      assert b[0..] == b;
      assert b[1..][at - 1..] == b[at..];
      forall i | 0 <= i < at - 1 ensures !StartsFrame(b[1..][i..]) {
        assert b[1..][i..] == b[i + 1..];
      }
      ResyncAt(b[1..], at - 1);
    }
  }

  lemma ResyncNone(b: seq<byte>)
    requires forall i :: 0 <= i < |b| ==> !StartsFrame(b[i..])
    ensures Resync(b) == if b != [] && b[|b| - 1] == SOF0 then [SOF0] else []
  {
    hide Judge;
    OnlyGarbage(b);
    SkipGarbage(b, []);
    assert b + [] == b;
  }

  class LoRaDriver {
    var buffer: seq<byte>
    var rejectedFrames: nat

    constructor ()
      ensures buffer == [] && rejectedFrames == 0
    {
      buffer, rejectedFrames := [], 0;
    }

    /** The frames in the bytes received so far that earlier calls have not returned. */
    method Consume(bytes: seq<byte>) returns (frames: seq<Frame>)
      modifies this
      ensures var p := Parse(old(buffer) + bytes);
              frames == p.frames && buffer == p.rest && rejectedFrames == old(rejectedFrames) + p.rejected
    {
      hide Then, Judge, FrameAt, Resync;
      buffer := buffer + bytes;
      ghost var all := buffer;
      frames := [];
      ghost var before := rejectedFrames;
      ThenNothing(Parse(buffer), []);
      while true
        invariant rejectedFrames >= before
        invariant Parse(all) == Then(Parsed(frames, [], rejectedFrames - before), Parse(buffer))
        decreases |buffer|
      {
        ghost var done := Parsed(frames, [], rejectedFrames - before);
        ghost var was := buffer;
        var at := Search(buffer);
        if at == |buffer| {
          ResyncNone(buffer);
          if buffer != [] && buffer[|buffer| - 1] == SOF0 {
            buffer := buffer[|buffer| - 1..];
          } else {
            buffer := [];
          }
          assert Parse(was) == Parsed([], buffer, 0);
          ThenStops(done, buffer);
          break;
        }
        ResyncAt(buffer, at);
        buffer := buffer[at..];
        var verdict := Check(buffer);
        match verdict
        case Wait =>
          assert Parse(was) == Parsed([], buffer, 0);
          ThenStops(done, buffer);
          break;
        case Reject =>
          ThenIsAssociative(done, Parsed([], [], 1), Parse(buffer[1..]));
          ThenRejects(done);
          rejectedFrames := rejectedFrames + 1;
          buffer := buffer[1..];
        case Accept(size) =>
          var frame := Frame(buffer[2], buffer[3], ReadU32(buffer, 4), buffer[10..size - 2]);
          FrameIsRead(buffer, size);
          ThenIsAssociative(done, Parsed([frame], [], 0), Parse(buffer[size..]));
          ThenEmits(done, frame);
          frames := frames + [frame];
          buffer := buffer[size..];
      }
    }

    static method Encode(frame: Frame) returns (encoded: Option<seq<byte>>)
      ensures encoded == Encoded(frame)
    {
      hide Crc, HighByte, LowByte;
      if |frame.payload| > MAX_PAYLOAD {
        return None;
      }
      var bytes := [SOF0];
      bytes := bytes + [SOF1];
      bytes := bytes + [VERSION];
      bytes := bytes + [frame.kind];
      bytes := bytes + U32(frame.sequence);
      bytes := bytes + U16(|frame.payload|);
      bytes := bytes + frame.payload;
      assert bytes == [SOF0, SOF1] + Body(VERSION, frame);
      assert bytes[2..] == Body(VERSION, frame);
      var crc := Compute(bytes[2..]);
      bytes := bytes + [HighByte(crc), LowByte(crc)];
      encoded := Some(bytes);
    }
  }

  /** The checks on a buffer that starts with the marker. */
  method Check(buffer: seq<byte>) returns (v: Verdict)
    requires StartsFrame(buffer)
    ensures v == Judge(buffer)
  {
    hide Crc, Word;
    if |buffer| < 10 { return Wait; }
    var version := buffer[2];
    if version != VERSION_LEGACY && version != VERSION_NODE_AWARE { return Reject; }
    var payloadSize := ReadU16(buffer, 8);
    if payloadSize > MAX_PAYLOAD { return Reject; }
    var frameSize := 12 + payloadSize;
    if |buffer| < frameSize { return Wait; }
    var expected := Word(buffer[10 + payloadSize], buffer[11 + payloadSize]);
    var actual := Compute(buffer[2..10 + payloadSize]);
    if expected != actual { return Reject; }
    v := Accept(frameSize);
  }

  lemma FrameIsRead(s: seq<byte>, size: nat)
    requires 12 <= size <= |s|
    ensures FrameAt(s, size) == Frame(s[2], s[3], ReadU32(s, 4), s[10..size - 2])
  {
  }

  lemma ThenStops(p: Parsed, s: seq<byte>)
    ensures Then(p, Parsed([], s, 0)) == Parsed(p.frames, s, p.rejected)
  {
  }

  lemma ThenRejects(p: Parsed)
    ensures Then(p, Parsed([], [], 1)) == Parsed(p.frames, [], p.rejected + 1)
  {
  }

  lemma ThenEmits(p: Parsed, f: Frame)
    ensures Then(p, Parsed([f], [], 0)) == Parsed(p.frames + [f], [], p.rejected)
  {
  }
}
