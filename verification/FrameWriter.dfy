/** Writing a method, and the message it may carry, as frames: in one go from a reused buffer, or frame by frame. */
module FrameWriter {
  import opened Octets
  import opened Frames
  import opened Properties
  import opened FrameHandler

  const FRAME_OVERHEAD := 40

  /** A call of `write_frame`. */
  datatype Call = Call(kind: byte, channel: u16, sig: Sig, args: seq<byte>, content: Option<Content>)

  // ---------------------------------------------------------------- the frames of a call

  function MethodFrame(call: Call): Frame {
    Frame(call.kind, call.channel,
      if call.kind == 1 then BigEndian(call.sig.0, 2) + BigEndian(call.sig.1, 2) + call.args else [])
  }

  function HeaderFrame(call: Call, properties: seq<byte>, size: nat): Frame {
    Frame(2, call.channel, BigEndian(call.sig.0, 2) + BigEndian(0, 2) + BigEndian(size, 8) + properties)
  }

  /** The body in pieces of `chunk` octets; Python's `range` is empty for a negative step. */
  function BodyFrames(channel: u16, body: seq<byte>, chunk: int): seq<Frame>
    decreases |body|
  {
    if body == [] || chunk <= 0 then []
    else if |body| <= chunk then [Frame(3, channel, body)]
    else [Frame(3, channel, body[..chunk])] + BodyFrames(channel, body[chunk..], chunk)
  }

  /** Without a body, the slow path writes no header either. */
  function SlowFrames(call: Call, properties: seq<byte>, body: seq<byte>, chunk: int): seq<Frame> {
    [MethodFrame(call)] +
    if body == [] then [] else [HeaderFrame(call, properties, |body|)] + BodyFrames(call.channel, body, chunk)
  }

  function FastFrames(call: Call, properties: seq<byte>, body: seq<byte>): seq<Frame> {
    [MethodFrame(call), HeaderFrame(call, properties, |body|)] +
    if body == [] then [] else [Frame(3, call.channel, body)]
  }

  /** The length the fast path is chosen by. */
  function FrameLength(call: Call, properties: seq<byte>, body: seq<byte>): nat {
    |call.args| + |properties| + |body| + FRAME_OVERHEAD
  }

  /** The message is longer than that and goes out frame by frame. */
  predicate Slow(call: Call, frameMax: nat) {
    && call.content.Some? && EncodeProperties(call.content.value.props).Ok?
    && FrameLength(call, EncodeProperties(call.content.value.props).value, call.content.value.body) > frameMax - 8
  }

  /** The frames a call is written as, when its properties can be serialized. */
  function CallFrames(call: Call, frameMax: nat): Result<seq<Frame>> {
    if call.content.None? then Ok([MethodFrame(call)])
    else
      var properties :- EncodeProperties(call.content.value.props);
      var body := call.content.value.body;
      Ok(if Slow(call, frameMax) then SlowFrames(call, properties, body, frameMax - 8)
         else FastFrames(call, properties, body))
  }

  // ---------------------------------------------------------------- what is proved of them

  /** Where the message fits, the single write of the fast path is the writes of the slow path put together. */
  lemma FastRefinesSlow(call: Call, properties: seq<byte>, body: seq<byte>, chunk: int)
    requires body != [] && |call.args| + |properties| + |body| + 40 <= chunk
    ensures FastFrames(call, properties, body) == SlowFrames(call, properties, body, chunk)
  {
    hide MethodFrame, HeaderFrame;
  }

  lemma {:induction false} WireLength(frames: seq<Frame>, f: Frame)
    ensures |Wire(frames + [f])| == |Wire(frames)| + 8 + |f.payload|
  {
    hide FrameOctets;
    if frames == [] {
      assert [f][1..] == [];
    } else {
      assert (frames + [f])[1..] == frames[1..] + [f];
      WireLength(frames[1..], f);
    }
  }

  /** The fast path fills at most the length it was chosen by, and exactly that for a method with a body. */
  lemma FastLength(call: Call, properties: seq<byte>, body: seq<byte>)
    ensures |Wire(FastFrames(call, properties, body))| <= |call.args| + |properties| + |body| + 40
    ensures |Wire(FastFrames(call, properties, body))| == |call.args| + |properties| + |body| + 40
       <==> call.kind == 1 && body != []
  {
    var first, header, last := MethodFrame(call), HeaderFrame(call, properties, |body|), Frame(3, call.channel, body);
    WireLength([], first);
    WireLength([first], header);
    assert [first] + [header] == [first, header];
    WireLength([first, header], last);
    assert FastFrames(call, properties, body) == if body == [] then [first, header] else [first, header] + [last];
  }

  /** `k` is `n / d`, rounded up. */
  predicate Ceiling(k: nat, n: nat, d: nat) {
    n <= k * d && (k > 0 ==> (k - 1) * d < n)
  }

  lemma CeilingStep(k: nat, n: nat, d: nat)
    requires d > 0 && n > 0 && Ceiling(k, n, d)
    ensures Ceiling(k + 1, n + d, d)
  {
    assert (k + 1) * d == k * d + d && k * d == (k - 1) * d + d;
  }

  predicate IsPiece(f: Frame, channel: u16, chunk: nat) {
    f.kind == 3 && f.channel == channel && 1 <= |f.payload| <= chunk
  }

  lemma Piece(channel: u16, payload: seq<byte>, chunk: nat)
    requires 1 <= |payload| <= chunk
    ensures IsPiece(Frame(3, channel, payload), channel, chunk)
  {
  }

  /** The slow path cuts the body into |body| / chunk, rounded up, pieces of 1..chunk octets each, which joined
      give the body. */
  lemma {:induction false} BodySplit(channel: u16, body: seq<byte>, chunk: nat)
    requires chunk > 0
    ensures var frames := BodyFrames(channel, body, chunk);
      && Ceiling(|frames|, |body|, chunk)
      && (forall f :: f in frames ==> IsPiece(f, channel, chunk))
      && Join(Payloads(frames)) == body
      && |Wire(frames)| == |body| + 8 * |frames|
    decreases |body|
  {
    assert Payloads([]) == [] && Join([]) == [] && Wire([]) == [];
    hide FrameOctets, Ceiling, Join, Payloads, Wire, IsPiece;
    if body == [] {
      assert Ceiling(0, 0, chunk) by { CeilingSmall(0, chunk); }
    } else if |body| <= chunk {
      OneMoreFrame(Frame(3, channel, body), []);
      Piece(channel, body, chunk);
      assert [Frame(3, channel, body)] + [] == [Frame(3, channel, body)];
      assert body + Join(Payloads([])) == body;
      CeilingSmall(|body|, chunk);
    } else {
      BodySplit(channel, body[chunk..], chunk);
      CeilingStep(|BodyFrames(channel, body[chunk..], chunk)|, |body| - chunk, chunk);
      Piece(channel, body[..chunk], chunk);
      OneMoreFrame(Frame(3, channel, body[..chunk]), BodyFrames(channel, body[chunk..], chunk));
      assert body == body[..chunk] + body[chunk..];
    }
  }

  lemma CeilingSmall(n: nat, d: nat)
    requires n <= d && d > 0
    ensures Ceiling(if n == 0 then 0 else 1, n, d)
  {
  }

  lemma OneMoreFrame(f: Frame, rest: seq<Frame>)
    ensures Join(Payloads([f] + rest)) == f.payload + Join(Payloads(rest))
    ensures |Wire([f] + rest)| == 8 + |f.payload| + |Wire(rest)|
  {
    hide FrameOctets;
    PayloadsCons(f, rest);
    assert ([f] + rest)[1..] == rest;
    assert ([f.payload] + Payloads(rest))[1..] == Payloads(rest);
  }

  lemma {:induction false} PayloadsCons(f: Frame, rest: seq<Frame>)
    ensures Payloads([f] + rest) == [f.payload] + Payloads(rest)
  {
    if rest == [] {
      assert [f] + rest == [f] && [f][..0] == [];
    } else {
      var n := |rest|;
      assert ([f] + rest)[..n] == [f] + rest[..n - 1];
      PayloadsCons(f, rest[..n - 1]);
    }
  }

  /** The length of the slow path on the wire: the contents and eight octets a frame. */
  lemma SlowLength(call: Call, properties: seq<byte>, body: seq<byte>, chunk: nat)
    requires chunk > 0 && call.kind == 1 && body != []
    ensures |Wire(SlowFrames(call, properties, body, chunk))|
         == 32 + |call.args| + |properties| + |body| + 8 * |BodyFrames(call.channel, body, chunk)|
  {
    hide FrameOctets, Wire, BodyFrames;
    var first, header := MethodFrame(call), HeaderFrame(call, properties, |body|);
    var rest := BodyFrames(call.channel, body, chunk);
    BodySplit(call.channel, body, chunk);
    OneMoreFrame(header, rest);
    OneMoreFrame(first, [header] + rest);
    assert SlowFrames(call, properties, body, chunk) == [first] + ([header] + rest);
  }

  predicate AllWithin(frames: seq<Frame>, size: nat) {
    forall f :: f in frames ==> 8 + |f.payload| <= size
  }

  /** The frames of a message are within the negotiated size exactly if its method and, where there is one, its content
      header are, for only the body is ever split. */
  lemma WithinFrameMax(call: Call, frameMax: nat)
    requires call.kind == 1 && call.content.Some? && CallFrames(call, frameMax).Ok?
    ensures var content := call.content.value;
      AllWithin(CallFrames(call, frameMax).value, frameMax)
      <==> (12 + |call.args| <= frameMax
            && (content.body == [] || 20 + |EncodeProperties(content.props).value| <= frameMax))
  {
    var properties, body := EncodeProperties(call.content.value.props).value, call.content.value.body;
    hide EncodeProperties, SlowFrames, FastFrames;
    if Slow(call, frameMax) {
      SlowWithin(call, properties, body, frameMax);
    } else {
      FastWithin(call, properties, body, frameMax);
    }
  }

  lemma SlowWithin(call: Call, properties: seq<byte>, body: seq<byte>, size: nat)
    requires call.kind == 1
    ensures AllWithin(SlowFrames(call, properties, body, size - 8), size)
      <==> (12 + |call.args| <= size && (body == [] || 20 + |properties| <= size))
  {
    var first, header := MethodFrame(call), HeaderFrame(call, properties, |body|);
    var rest := BodyFrames(call.channel, body, size - 8);
    assert |first.payload| == 4 + |call.args| && |header.payload| == 12 + |properties|;
    hide MethodFrame, HeaderFrame, BodyFrames, IsPiece, Ceiling, BigEndian, Wire, Join, Payloads;
    var frames := SlowFrames(call, properties, body, size - 8);
    assert first in frames;
    if body != [] {
      assert frames == [first] + ([header] + rest);
      assert forall f :: f in frames <==> f == first || f == header || f in rest;
    }
    if body != [] && size > 8 {
      BodySplit(call.channel, body, size - 8);
      forall f | f in rest ensures 8 + |f.payload| <= size {
        PieceLength(f, call.channel, size - 8);
      }
    }
  }

  lemma PieceLength(f: Frame, channel: u16, chunk: nat)
    requires IsPiece(f, channel, chunk)
    ensures |f.payload| <= chunk
  {
  }

  lemma FastWithin(call: Call, properties: seq<byte>, body: seq<byte>, size: nat)
    requires call.kind == 1 && |call.args| + |properties| + |body| + 40 <= size - 8
    ensures AllWithin(FastFrames(call, properties, body), size) && 12 + |call.args| <= size && 20 + |properties| <= size
  {
    hide BigEndian;
  }

  // ---------------------------------------------------------------- the objects

  /** The parts of the connection and its transport that the writer uses: what is written goes out as separate
      writes. */
  class Link {
    var frameMax: nat
    var bytesSent: nat
    var written: seq<seq<byte>>

    constructor (frameMax: nat)
      ensures this.frameMax == frameMax && bytesSent == 0 && written == []
    {
      this.frameMax, bytesSent, written := frameMax, 0, [];
    }

    method Write(s: seq<byte>)
      modifies this`written
      ensures written == old(written) + [s]
    {
      written := written + [s];
    }

    /** `_on_tune`: the peer may raise or lower the frame size, or leave it. */
    method OnTune(frameMax: nat)
      modifies this`frameMax
      ensures this.frameMax == if frameMax == 0 then old(this.frameMax) else frameMax
    {
      if frameMax != 0 {
        this.frameMax := frameMax;
      }
    }
  }

  /** The writes up to the first frame whose size does not fit its field. */
  function Packed(frames: seq<Frame>): (Result<()>, seq<seq<byte>>) {
    if frames == [] then (Ok(()), [])
    else if |frames[0].payload| >= U32 then (Err(OutOfRange), [])
    else
      var (r, rest) := Packed(frames[1..]);
      (r, [FrameOctets(frames[0])] + rest)
  }

  lemma {:induction false} PackedAll(frames: seq<Frame>)
    ensures var (r, writes) := Packed(frames);
      (r.Ok? <==> Sized(frames)) && (r.Ok? ==> Join(writes) == Wire(frames))
  {
    hide FrameOctets;
    if frames != [] {
      PackedAll(frames[1..]);
      assert forall f :: f in frames <==> f == frames[0] || f in frames[1..];
      var (r, rest) := Packed(frames[1..]);
      assert ([FrameOctets(frames[0])] + rest)[1..] == rest;
    }
  }

  function Behind(before: seq<seq<byte>>, p: (Result<()>, seq<seq<byte>>)): (Result<()>, seq<seq<byte>>) {
    (p.0, before + p.1)
  }

  /** What a call writes, and whether it succeeds, with a buffer of `capacity` octets on the fast path. */
  function WriteResult(call: Call, frameMax: nat, capacity: nat): (Result<()>, seq<seq<byte>>) {
    match CallFrames(call, frameMax)
    case Err(e) => (Err(e), [])
    case Ok(frames) =>
      if Slow(call, frameMax) then
        var (r, writes) := Packed(frames);
        (if r.Ok? && frameMax == 8 && call.content.value.body != [] then Err(ZeroStep) else r, writes)
      else if Sized(frames) && |Wire(frames)| <= capacity then (Ok(()), [Wire(frames)])
      else (Err(OutOfRange), [])
  }

  /** With a buffer of at least the size of a frame, a message on the fast path never overflows it. */
  lemma NoOverflow(call: Call, frameMax: nat, capacity: nat)
    requires call.content.Some? && !Slow(call, frameMax) && CallFrames(call, frameMax).Ok? && frameMax - 8 <= capacity
    ensures var frames := CallFrames(call, frameMax).value;
      |Wire(frames)| <= frameMax - 8 && (WriteResult(call, frameMax, capacity).0.Ok? <==> Sized(frames))
  {
    FastLength(call, EncodeProperties(call.content.value.props).value, call.content.value.body);
  }

  /** A call takes the fast path, which is the only one to look at the buffer, if it has no content, or if its
      properties can be serialized and its parts and 40 octets leave eight of a frame. */
  predicate Fast(call: Call, frameMax: nat) {
    call.content.Some? ==>
      var properties := EncodeProperties(call.content.value.props);
      properties.Ok? && |call.args| + |properties.value| + |call.content.value.body| + 40 <= frameMax - 8
  }

  /** Such a message is written with its content header, and with its body if it has one; and, if the sizes of the
      frames fit their fields, in one write. */
  lemma OneWrite(call: Call, frameMax: nat, capacity: nat)
    requires call.content.Some? && EncodeProperties(call.content.value.props).Ok? && frameMax - 8 <= capacity
    requires var properties, body := EncodeProperties(call.content.value.props).value, call.content.value.body;
      |call.args| + |properties| + |body| + 40 <= frameMax - 8
    ensures Fast(call, frameMax)
    ensures var properties, body := EncodeProperties(call.content.value.props).value, call.content.value.body;
      var first, header := MethodFrame(call), HeaderFrame(call, properties, |body|);
      var frames := if body == [] then [first, header] else [first, header, Frame(3, call.channel, body)];
      && CallFrames(call, frameMax) == Ok(frames)
      && WriteResult(call, frameMax, capacity)
         == if Sized(frames) then (Ok(()), [Wire(frames)]) else (Err(OutOfRange), [])
  {
    var properties, body := EncodeProperties(call.content.value.props).value, call.content.value.body;
    FastLength(call, properties, body);
    FastFramesAre(call, properties, body);
    hide EncodeProperties, MethodFrame, HeaderFrame, Wire, Sized, FastFrames;
  }

  lemma FastFramesAre(call: Call, properties: seq<byte>, body: seq<byte>)
    ensures var first, header := MethodFrame(call), HeaderFrame(call, properties, |body|);
      FastFrames(call, properties, body)
      == if body == [] then [first, header] else [first, header, Frame(3, call.channel, body)]
  {
    hide MethodFrame, HeaderFrame;
    var first, header, last := MethodFrame(call), HeaderFrame(call, properties, |body|), Frame(3, call.channel, body);
    assert [first, header] + [] == [first, header] && [first, header] + [last] == [first, header, last];
  }

  /** Any other message is written frame by frame, each in a write of its own, and without a body only as a method. With
      frames of eight octets a body raises when the rest has been written. */
  lemma ManyWrites(call: Call, frameMax: nat, capacity: nat)
    requires call.content.Some? && EncodeProperties(call.content.value.props).Ok?
    requires var properties, body := EncodeProperties(call.content.value.props).value, call.content.value.body;
      |call.args| + |properties| + |body| + 40 > frameMax - 8
    ensures !Fast(call, frameMax)
    ensures var properties, body := EncodeProperties(call.content.value.props).value, call.content.value.body;
      var frames := if body == [] then [MethodFrame(call)]
        else [MethodFrame(call), HeaderFrame(call, properties, |body|)] + BodyFrames(call.channel, body, frameMax - 8);
      var writes := WriteResult(call, frameMax, capacity).1;
      && CallFrames(call, frameMax) == Ok(frames)
      && (Sized(frames) ==>
            |writes| == |frames| && forall i :: 0 <= i < |frames| ==> writes[i] == FrameOctets(frames[i]))
      && (WriteResult(call, frameMax, capacity).0.Ok? <==> Sized(frames) && (body == [] || frameMax != 8))
  {
    var properties, body := EncodeProperties(call.content.value.props).value, call.content.value.body;
    hide EncodeProperties, MethodFrame, HeaderFrame, FrameOctets, BodyFrames, Packed, SlowFrames, Sized;
    SlowFramesAre(call, properties, body, frameMax - 8);
    PackedEach(SlowFrames(call, properties, body, frameMax - 8));
  }

  lemma SlowFramesAre(call: Call, properties: seq<byte>, body: seq<byte>, chunk: int)
    ensures SlowFrames(call, properties, body, chunk)
         == if body == [] then [MethodFrame(call)]
            else [MethodFrame(call), HeaderFrame(call, properties, |body|)] + BodyFrames(call.channel, body, chunk)
  {
    hide MethodFrame, HeaderFrame, BodyFrames;
    var first, header, rest :=
      MethodFrame(call), HeaderFrame(call, properties, |body|), BodyFrames(call.channel, body, chunk);
    assert [first] + ([header] + rest) == [first, header] + rest && [first] + [] == [first];
  }

  lemma {:induction false} PackedEach(frames: seq<Frame>)
    ensures var (r, writes) := Packed(frames);
      && (r.Ok? <==> Sized(frames))
      && (r.Ok? ==> |writes| == |frames| && forall i :: 0 <= i < |frames| ==> writes[i] == FrameOctets(frames[i]))
  {
    hide FrameOctets;
    if frames != [] {
      PackedEach(frames[1..]);
      assert forall f :: f in frames <==> f == frames[0] || f in frames[1..];
    }
  }

  /** A content header: class, a weight of 0, and the size of the body. */
  lemma HeaderLayout(call: Call, properties: seq<byte>, size: nat)
    requires size < U64
    ensures var payload := HeaderFrame(call, properties, size).payload;
      && |payload| == 12 + |properties| && payload[12..] == properties
      && Number(payload[0..2]) == call.sig.0 && Number(payload[2..4]) == 0 && Number(payload[4..12]) == size
  {
    Pow256Values();
    NumberOfBigEndian(call.sig.0, 2);
    NumberOfBigEndian(0, 2);
    NumberOfBigEndian(size, 8);
    var payload := HeaderFrame(call, properties, size).payload;
    assert payload[0..2] == BigEndian(call.sig.0, 2);
    assert payload[2..4] == BigEndian(0, 2);
    assert payload[4..12] == BigEndian(size, 8);
    hide BigEndian, Number, Pow256;
  }

  /** The size of the buffer after a call: the fast path makes it at least that of a frame. */
  function Grown(call: Call, frameMax: nat, capacity: nat): nat {
    if Fast(call, frameMax) && frameMax - 8 > capacity then frameMax - 8 else capacity
  }

  lemma MethodFits(call: Call, frameMax: nat, capacity: nat)
    requires call.content.None? && call.kind == 1
    ensures WriteResult(call, frameMax, capacity).0.Ok? <==> 4 + |call.args| < U32 && 12 + |call.args| <= capacity
  {
    var f := MethodFrame(call);
    WireLength([], f);
    assert [] + [f] == [f] && f in [f];
  }

  /** Whatever path a successful call takes, the octets written are those of its frames. */
  lemma WritesAreFrames(call: Call, frameMax: nat, capacity: nat)
    requires WriteResult(call, frameMax, capacity).0.Ok?
    ensures CallFrames(call, frameMax).Ok? && Sized(CallFrames(call, frameMax).value)
    ensures Join(WriteResult(call, frameMax, capacity).1) == Wire(CallFrames(call, frameMax).value)
  {
    var frames := CallFrames(call, frameMax).value;
    hide CallFrames, Slow, FrameOctets;
    PackedAll(frames);
    assert [Wire(frames)][1..] == [] && Wire(frames) + [] == Wire(frames);
  }

  /** The closure made by `frame_writer`, with its preallocated buffer. */
  class Writer {
    const link: Link
    var buffer: array<byte>

    constructor (link: Link)
      requires link.frameMax >= 8
      ensures this.link == link && fresh(buffer) && buffer.Length == link.frameMax - 8
    {
      this.link := link;
      buffer := new byte[link.frameMax - 8];
    }

    /** `pack_into`: raises, before it writes anything, if the frame does not fit. */
    method PackInto(offset: nat, f: Frame) returns (r: Result<nat>)
      requires offset <= buffer.Length
      modifies buffer
      ensures r.Ok? <==> |f.payload| < U32 && offset + 8 + |f.payload| <= buffer.Length
      ensures r.Ok? ==> r.value == offset + 8 + |f.payload|
      ensures r.Ok? ==> buffer[..r.value] == old(buffer[..offset]) + FrameOctets(f)
      ensures r.Err? ==> r.error == OutOfRange
    {
      var octets := FrameOctets(f);
      if |f.payload| >= U32 || offset + |octets| > buffer.Length {
        return Err(OutOfRange);
      }
      forall i | 0 <= i < |octets| {
        buffer[offset + i] := octets[i];
      }
      assert buffer[offset..offset + |octets|] == octets;
      assert buffer[..offset + |octets|] == buffer[..offset] + octets;
      r := Ok(offset + |octets|);
    }

    /** `pack` and `write` of one frame. */
    method WriteOne(f: Frame) returns (r: Result<()>)
      modifies link`written
      ensures if |f.payload| >= U32 then r == Err(OutOfRange) && link.written == old(link.written)
              else r == Ok(()) && link.written == old(link.written) + [FrameOctets(f)]
    {
      if |f.payload| >= U32 {
        return Err(OutOfRange);
      }
      link.Write(FrameOctets(f));
      r := Ok(());
    }

    method WriteSlow(call: Call, properties: seq<byte>, body: seq<byte>, chunk: int) returns (r: Result<()>)
      modifies link`written
      ensures var (packed, writes) := Packed(SlowFrames(call, properties, body, chunk));
        && link.written == old(link.written) + writes
        && r == if packed.Ok? && chunk == 0 && body != [] then Err(ZeroStep) else packed
    {
      hide MethodFrame, HeaderFrame, FrameOctets, Packed, BodyFrames;
      PackedSteps(link.written, SlowFrames(call, properties, body, chunk));
      var _ :- WriteOne(MethodFrame(call));
      if body != [] {
        PackedSteps(link.written, SlowFrames(call, properties, body, chunk)[1..]);
        var _ :- WriteOne(HeaderFrame(call, properties, |body|));
        assert SlowFrames(call, properties, body, chunk)[1..][1..] == BodyFrames(call.channel, body, chunk);
        var i := 0;
        assert Drop(body, 0) == body;
        while chunk > 0 && i < |body|
          invariant 0 <= i
          invariant Behind(link.written, Packed(BodyFrames(call.channel, Drop(body, i), chunk)))
                 == Behind(old(link.written), Packed(SlowFrames(call, properties, body, chunk)))
        {
          BodyStep(call.channel, body, i, chunk);
          PackedSteps(link.written, BodyFrames(call.channel, Drop(body, i), chunk));
          var _ :- WriteOne(Frame(3, call.channel, Slice(body, i, chunk)));
          i := i + chunk;
        }
        BodyEnd(call.channel, Drop(body, i), chunk);
        PackedSteps(link.written, []);
        if chunk == 0 {
          return Err(ZeroStep);
        }
      } else {
        PackedSteps(link.written, []);
        assert SlowFrames(call, properties, body, chunk)[1..] == [];
      }
      r := Ok(());
    }

    method WriteFast(frames: seq<Frame>) returns (r: Result<()>)
      modifies buffer, link`written
      ensures if Sized(frames) && |Wire(frames)| <= buffer.Length
              then r == Ok(()) && link.written == old(link.written) + [Wire(frames)]
              else r == Err(OutOfRange) && link.written == old(link.written)
    {
      hide FrameOctets;
      var offset, i := 0, 0;
      assert frames[..0] == [];
      while i < |frames|
        invariant i <= |frames| && offset == |Wire(frames[..i])| <= buffer.Length
        invariant Sized(frames[..i]) && buffer[..offset] == Wire(frames[..i]) && link.written == old(link.written)
      {
        WireSplit(frames, i);
        var next := PackInto(offset, frames[i]);
        if next.Err? {
          return Err(OutOfRange);
        }
        offset, i := next.value, i + 1;
      }
      assert frames[..i] == frames;
      link.Write(buffer[..offset]);
      r := Ok(());
    }

    /** `write_frame`. Whatever earlier messages left in the buffer, and however the frame size has changed since. */
    method WriteFrame(call: Call) returns (r: Result<()>)
      modifies this, buffer, link`written, link`bytesSent
      ensures buffer == old(buffer) || fresh(buffer)
      ensures buffer.Length == Grown(call, link.frameMax, old(buffer.Length))
      ensures var (result, writes) := WriteResult(call, link.frameMax, buffer.Length);
        r == result && link.written == old(link.written) + writes
      ensures link.bytesSent == old(link.bytesSent) + if r.Ok? then 1 else 0
    {
      hide SlowFrames, FastFrames, Packed, MethodFrame, HeaderFrame, EncodeProperties;
      var chunk := link.frameMax - 8;
      var properties: seq<byte>, body: seq<byte> := [], [];
      if call.content.Some? {
        body := call.content.value.body;
        properties :- SerializeProperties(call.content.value.props);
      }
      if call.content.Some? && FrameLength(call, properties, body) > chunk {
        var _ :- WriteSlow(call, properties, body, chunk);
      } else {
        if chunk > buffer.Length {
          buffer := new byte[chunk];
        }
        var frames := if call.content.Some? then FastFrames(call, properties, body) else [MethodFrame(call)];
        var _ :- WriteFast(frames);
      }
      link.bytesSent := link.bytesSent + 1;
      r := Ok(());
    }
  }

  // ---------------------------------------------------------------- runs

  /** A call, and the frame size at the time. */
  datatype Sent = Sent(call: Call, frameMax: nat)

  /** What happens to a writer: the peer changes the frame size, or something is written. */
  datatype Use = Tuned(frameMax: nat) | Called(call: Call)

  function TunedTo(use: Use, frameMax: nat): nat {
    if use.Tuned? && use.frameMax != 0 then use.frameMax else frameMax
  }

  /** The calls among them, each with the frame size it finds. */
  function Calls(uses: seq<Use>, frameMax: nat): seq<Sent> {
    if uses == [] then []
    else (if uses[0].Called? then [Sent(uses[0].call, frameMax)] else []) + Calls(uses[1..], TunedTo(uses[0], frameMax))
  }

  /** The results, the writes and the final size of the buffer of a sequence of calls, starting with a buffer of
      `capacity` octets. */
  function ResultAll(sents: seq<Sent>, capacity: nat): (results: seq<Result<()>>)
    ensures |results| == |sents|
  {
    if sents == [] then []
    else
      var more := Grown(sents[0].call, sents[0].frameMax, capacity);
      [WriteResult(sents[0].call, sents[0].frameMax, more).0] + ResultAll(sents[1..], more)
  }

  function WriteAll(sents: seq<Sent>, capacity: nat): seq<seq<byte>> {
    if sents == [] then []
    else
      var more := Grown(sents[0].call, sents[0].frameMax, capacity);
      WriteResult(sents[0].call, sents[0].frameMax, more).1 + WriteAll(sents[1..], more)
  }

  function GrownAll(sents: seq<Sent>, capacity: nat): nat {
    if sents == [] then capacity
    else GrownAll(sents[1..], Grown(sents[0].call, sents[0].frameMax, capacity))
  }

  lemma UsesBegin(uses: seq<Use>, i: nat, frameMax: nat)
    requires i < |uses|
    ensures uses[i].Tuned? ==> Calls(uses[i..], frameMax) == Calls(uses[i + 1..], TunedTo(uses[i], frameMax))
    ensures uses[i].Called? ==>
      Calls(uses[i..], frameMax) == [Sent(uses[i].call, frameMax)] + Calls(uses[i + 1..], frameMax)
  {
    assert uses[i..][1..] == uses[i + 1..];
  }

  lemma CallsBegin(s: Sent, rest: seq<Sent>, capacity: nat, results: seq<Result<()>>, written: seq<seq<byte>>)
    ensures var more := Grown(s.call, s.frameMax, capacity);
      var (result, writes) := WriteResult(s.call, s.frameMax, more);
      && GrownAll([s] + rest, capacity) == GrownAll(rest, more)
      && results + ResultAll([s] + rest, capacity) == results + [result] + ResultAll(rest, more)
      && written + WriteAll([s] + rest, capacity) == written + writes + WriteAll(rest, more)
  {
    hide Grown, WriteResult;
    assert ([s] + rest)[1..] == rest;
  }

  /** Any run of calls, the frame size being raised and lowered in between, does what those functions say. */
  method RunWriter(w: Writer, uses: seq<Use>) returns (results: seq<Result<()>>)
    modifies w, w.buffer, w.link
    ensures var calls := Calls(uses, old(w.link.frameMax));
      && results == ResultAll(calls, old(w.buffer.Length))
      && w.link.written == old(w.link.written) + WriteAll(calls, old(w.buffer.Length))
      && w.buffer.Length == GrownAll(calls, old(w.buffer.Length))
  {
    hide Grown, WriteResult, Calls;
    ghost var calls, capacity, before := Calls(uses, w.link.frameMax), w.buffer.Length, w.link.written;
    results := [];
    assert uses[0..] == uses && [] + ResultAll(calls, capacity) == ResultAll(calls, capacity);
    for i := 0 to |uses|
      invariant w.buffer == old(w.buffer) || fresh(w.buffer)
      invariant var rest := Calls(uses[i..], w.link.frameMax);
        && results + ResultAll(rest, w.buffer.Length) == ResultAll(calls, capacity)
        && w.link.written + WriteAll(rest, w.buffer.Length) == before + WriteAll(calls, capacity)
        && GrownAll(rest, w.buffer.Length) == GrownAll(calls, capacity)
    {
      UsesBegin(uses, i, w.link.frameMax);
      match uses[i] {
        case Tuned(frameMax) =>
          w.link.OnTune(frameMax);
        case Called(call) =>
          ghost var sent, rest := Sent(call, w.link.frameMax), Calls(uses[i + 1..], w.link.frameMax);
          CallsBegin(sent, rest, w.buffer.Length, results, w.link.written);
          var r := w.WriteFrame(call);
          results := results + [r];
      }
    }
    NoCalls(uses[|uses|..], w.link.frameMax);
    assert results + [] == results && w.link.written + [] == w.link.written;
  }

  lemma NoCalls(uses: seq<Use>, frameMax: nat)
    requires uses == []
    ensures Calls(uses, frameMax) == []
  {
  }

  /** The buffer is as large as at first, or as the largest frame among the calls that took the fast path. */
  lemma {:induction false} GrownTo(sents: seq<Sent>, capacity: nat, size: nat)
    ensures size <= GrownAll(sents, capacity)
       <==> size <= capacity || exists s :: s in sents && Fast(s.call, s.frameMax) && size <= s.frameMax - 8
  {
    hide Fast;
    if sents != [] {
      var first := sents[0];
      GrownTo(sents[1..], Grown(first.call, first.frameMax, capacity), size);
      assert first in sents && forall s :: s in sents <==> s == first || s in sents[1..];
    }
  }

  /** The size of a method without content is never checked: after any calls it is written exactly if it fits the
      frame size the buffer was made for, the present one, or that of a call that took the fast path. */
  lemma UncheckedMethod(sents: seq<Sent>, capacity: nat, call: Call, frameMax: nat)
    requires call.content.None? && call.kind == 1
    ensures var size := 12 + |call.args|;
      ResultAll(sents + [Sent(call, frameMax)], capacity)[|sents|].Ok?
      <==> (4 + |call.args| < U32
            && (size <= capacity || size <= frameMax - 8
                || exists s :: s in sents && Fast(s.call, s.frameMax) && size <= s.frameMax - 8))
  {
    LastResult(sents, Sent(call, frameMax), capacity);
    GrownTo(sents, capacity, 12 + |call.args|);
    hide Fast, GrownAll;
    assert Fast(call, frameMax) by { MethodFast(call, frameMax); }
    MethodFits(call, frameMax, Grown(call, frameMax, GrownAll(sents, capacity)));
  }

  lemma MethodFast(call: Call, frameMax: nat)
    requires call.content.None?
    ensures Fast(call, frameMax)
  {
  }

  lemma {:induction false} LastResult(sents: seq<Sent>, s: Sent, capacity: nat)
    ensures |ResultAll(sents + [s], capacity)| == |sents| + 1
    ensures ResultAll(sents + [s], capacity)[|sents|]
         == WriteResult(s.call, s.frameMax, Grown(s.call, s.frameMax, GrownAll(sents, capacity))).0
  {
    hide Grown, WriteResult;
    if sents == [] {
      assert [] + [s] == [s];
    } else {
      assert (sents + [s])[1..] == sents[1..] + [s];
      LastResult(sents[1..], s, Grown(sents[0].call, sents[0].frameMax, capacity));
    }
  }

  function Drop(body: seq<byte>, i: nat): seq<byte> {
    if i <= |body| then body[i..] else []
  }

  lemma BodyStep(channel: u16, body: seq<byte>, i: nat, chunk: nat)
    requires i < |body| && chunk > 0
    ensures BodyFrames(channel, Drop(body, i), chunk)
         == [Frame(3, channel, Slice(body, i, chunk))] + BodyFrames(channel, Drop(body, i + chunk), chunk)
  {
    var rest := body[i..];
    if |rest| <= chunk {
      assert Slice(body, i, chunk) == rest && Drop(body, i + chunk) == [];
    } else {
      assert Slice(body, i, chunk) == rest[..chunk] && Drop(body, i + chunk) == rest[chunk..];
    }
  }

  lemma BodyEnd(channel: u16, rest: seq<byte>, chunk: int)
    requires rest == [] || chunk <= 0
    ensures BodyFrames(channel, rest, chunk) == []
  {
  }

  lemma PackedSteps(before: seq<seq<byte>>, frames: seq<Frame>)
    ensures frames == [] ==> Behind(before, Packed(frames)) == (Ok(()), before)
    ensures frames != [] ==>
      if |frames[0].payload| >= U32 then Behind(before, Packed(frames)) == (Err(OutOfRange), before)
      else Behind(before, Packed(frames)) == Behind(before + [FrameOctets(frames[0])], Packed(frames[1..]))
  {
    hide FrameOctets;
    assert before + [] == before;
    if frames != [] && |frames[0].payload| < U32 {
      var rest := Packed(frames[1..]).1;
      assert before + ([FrameOctets(frames[0])] + rest) == before + [FrameOctets(frames[0])] + rest;
    }
  }

  lemma WireSplit(frames: seq<Frame>, i: nat)
    requires i < |frames|
    ensures Wire(frames[..i + 1]) == Wire(frames[..i]) + FrameOctets(frames[i])
    ensures |Wire(frames)| >= |Wire(frames[..i + 1])|
    ensures Sized(frames[..i + 1]) <==> Sized(frames[..i]) && |frames[i].payload| < U32
  {
    hide FrameOctets;
    assert frames[..i + 1] == frames[..i] + [frames[i]] && frames == frames[..i + 1] + frames[i + 1..];
    WireAppend(frames[..i], [frames[i]]);
    WireAppend(frames[..i + 1], frames[i + 1..]);
    assert [frames[i]][1..] == [] && FrameOctets(frames[i]) + [] == FrameOctets(frames[i]);
  }
}
