/** Frames on the wire, and the plain parse of a stream of them. */
module Frames {
  import opened Octets

  const FRAME_END: byte := 0xCE

  type u16 = x: int | 0 <= x < U16 witness 0

  /** The class and the method id of a method. */
  type Sig = (u16, u16)

  datatype Frame = Frame(kind: byte, channel: u16, payload: seq<byte>)

  /** Type, channel, size, payload, frame end. */
  function FrameOctets(f: Frame): (s: seq<byte>)
    ensures |s| == 8 + |f.payload|
  {
    [f.kind] + BigEndian(f.channel, 2) + BigEndian(|f.payload|, 4) + f.payload + [FRAME_END]
  }

  datatype Parse =
    | Incomplete
    | Whole(frame: Frame, rest: seq<byte>)
    | BadEnd(rest: seq<byte>)

  function FrameHeader(header: seq<byte>): (h: (byte, u16, nat))
    requires |header| == 7
    ensures h.2 < U32
  {
    Pow256Values();
    (header[0], Number(header[1..3]), Number(header[3..7]))
  }

  /** The first frame of a stream. */
  function ParseFrame(s: seq<byte>): (p: Parse)
    ensures !p.Incomplete? ==> |p.rest| + 8 <= |s|
  {
    if |s| < 7 then Incomplete
    else
      var (kind, channel, size) := FrameHeader(s[..7]);
      if |s| < 8 + size then Incomplete
      else if s[7 + size] == FRAME_END then Whole(Frame(kind, channel, s[7..7 + size]), s[8 + size..])
      else BadEnd(s[8 + size..])
  }

  lemma ParsePieces(header: seq<byte>, payload: seq<byte>, end: seq<byte>, rest: seq<byte>)
    requires |header| == 7 && |payload| == FrameHeader(header).2 && |end| == 1
    ensures ParseFrame(header + (payload + (end + rest)))
         == if end == [FRAME_END] then Whole(Frame(FrameHeader(header).0, FrameHeader(header).1, payload), rest)
            else BadEnd(rest)
  {
    hide Number;
    var s, n := header + (payload + (end + rest)), |payload|;
    assert s[..7] == header && s[7..7 + n] == payload && s[7 + n] == end[0] && s[8 + n..] == rest;
  }

  lemma Associate(a: seq<byte>, b: seq<byte>, c: seq<byte>, d: seq<byte>)
    ensures (a + b + c) + d == a + (b + (c + d))
  {
  }

  lemma HeaderPieces(kind: byte, channel: seq<byte>, size: seq<byte>)
    requires |channel| == 2 && |size| == 4
    ensures var header := [kind] + channel + size; header[0] == kind && header[1..3] == channel && header[3..7] == size
  {
  }

  /** A frame is read back, with whatever follows it left alone. */
  lemma ParseFrameOctets(f: Frame, rest: seq<byte>)
    requires |f.payload| < U32
    ensures ParseFrame(FrameOctets(f) + rest) == Whole(f, rest)
  {
    var channel, size := BigEndian(f.channel, 2), BigEndian(|f.payload|, 4);
    Pow256Values();
    NumberOfBigEndian(f.channel, 2);
    NumberOfBigEndian(|f.payload|, 4);
    HeaderPieces(f.kind, channel, size);
    hide BigEndian, Number, Pow256, ParseFrame;
    var header := [f.kind] + channel + size;
    ParsePieces(header, f.payload, [FRAME_END], rest);
    assert FrameOctets(f) == header + f.payload + [FRAME_END];
    hide FrameOctets;
    Associate(header, f.payload, [FRAME_END], rest);
  }

  /** Type, channel, size, payload, and 206. */
  lemma FrameLayout(f: Frame)
    requires |f.payload| < U32
    ensures var s, n := FrameOctets(f), |f.payload|;
      && s[0] == f.kind && Number(s[1..3]) == f.channel && Number(s[3..7]) == n
      && s[7..7 + n] == f.payload && s[7 + n] == 206
  {
    var s, n := FrameOctets(f), |f.payload|;
    Pow256Values();
    NumberOfBigEndian(f.channel, 2);
    NumberOfBigEndian(n, 4);
    assert s[1..3] == BigEndian(f.channel, 2) && s[3..7] == BigEndian(n, 4);
    hide BigEndian, Number, Pow256;
  }

  /** A frame has come when the size in its header and one octet more have; it is good if that octet is 206. */
  lemma ParseExactly(s: seq<byte>)
    ensures ParseFrame(s).Incomplete? <==> |s| < 7 || |s| < 8 + Number(s[3..7])
    ensures !ParseFrame(s).Incomplete? ==>
      var n := Number(s[3..7]);
      if s[7 + n] == 206 then
        var p := ParseFrame(s);
        p.Whole? && p.rest == s[8 + n..]
        && p.frame.kind == s[0] && p.frame.channel == Number(s[1..3]) && p.frame.payload == s[7..7 + n]
      else ParseFrame(s) == BadEnd(s[8 + n..])
  {
    if |s| >= 7 {
      assert s[..7][1..3] == s[1..3] && s[..7][3..7] == s[3..7];
    }
    hide Number;
  }

  lemma ParseShort(s: seq<byte>)
    requires |s| < 7 || |s| < 8 + FrameHeader(s[..7]).2
    ensures ParseFrame(s) == Incomplete
  {
  }

  /** What a reader of the stream is given: frames, or the complaint about a wrong frame end. */
  datatype Arrival = Good(frame: Frame) | Bad

  function Arrivals(s: seq<byte>): seq<Arrival>
    decreases |s|
  {
    match ParseFrame(s)
    case Incomplete => []
    case Whole(f, rest) => [Good(f)] + Arrivals(rest)
    case BadEnd(rest) => [Bad] + Arrivals(rest)
  }

  /** What is left of a stream behind its first `count` frames, good or bad. */
  function Remaining(s: seq<byte>, count: nat): (rest: seq<byte>)
    requires count <= |Arrivals(s)|
    ensures |rest| <= |s| && rest == s[|s| - |rest|..]
    ensures Arrivals(rest) == Arrivals(s)[count..]
    decreases count
  {
    if count == 0 then s
    else
      var rest := ParseFrame(s).rest;
      ParseRest(s);
      Remaining(rest, count - 1)
  }

  lemma ParseRest(s: seq<byte>)
    requires !ParseFrame(s).Incomplete?
    ensures var rest := ParseFrame(s).rest;
      |rest| < |s| && rest == s[|s| - |rest|..] && |Arrivals(s)| > 0 && Arrivals(rest) == Arrivals(s)[1..]
  {
  }

  lemma NextArrival(s: seq<byte>, count: nat)
    requires !ParseFrame(s).Incomplete? && count <= |Arrivals(ParseFrame(s).rest)|
    ensures var p := ParseFrame(s);
      && Arrivals(s) == [if p.Whole? then Good(p.frame) else Bad] + Arrivals(p.rest)
      && Remaining(s, count + 1) == Remaining(p.rest, count)
  {
  }

  /** Frames one after the other. */
  function Wire(frames: seq<Frame>): seq<byte> {
    if frames == [] then [] else FrameOctets(frames[0]) + Wire(frames[1..])
  }

  function AllGood(frames: seq<Frame>): seq<Arrival> {
    if frames == [] then [] else [Good(frames[0])] + AllGood(frames[1..])
  }

  predicate Sized(frames: seq<Frame>) {
    forall f :: f in frames ==> |f.payload| < U32
  }

  /** Written frames are read back one by one, with the octets behind them left alone. */
  lemma {:induction false} WireArrives(frames: seq<Frame>, rest: seq<byte>)
    requires Sized(frames)
    ensures Arrivals(Wire(frames) + rest) == AllGood(frames) + Arrivals(rest)
  {
    hide FrameOctets, ParseFrame;
    if frames == [] {
      assert [] + rest == rest;
    } else {
      var tail := Wire(frames[1..]) + rest;
      assert Wire(frames) + rest == FrameOctets(frames[0]) + tail;
      assert frames[0] in frames;
      ParseFrameOctets(frames[0], tail);
      WireArrives(frames[1..], rest);
    }
  }

  lemma {:induction false} WireAppend(a: seq<Frame>, b: seq<Frame>)
    ensures Wire(a + b) == Wire(a) + Wire(b)
    ensures AllGood(a + b) == AllGood(a) + AllGood(b)
  {
    if a == [] {
      assert a + b == b;
    } else {
      assert (a + b)[1..] == a[1..] + b;
      WireAppend(a[1..], b);
    }
  }
}
