/** From calls of `write_frame` through a fragmenting socket to the callbacks of the peer's frame handler. */
module Loopback {
  import opened Octets
  import opened Frames
  import opened Transport
  import opened Properties
  import opened FrameHandler
  import opened FrameWriter

  function Callbacks(outcomes: seq<Outcome>): seq<Outcome> {
    if outcomes == [] then []
    else (if outcomes[0].Callback? then [outcomes[0]] else []) + Callbacks(outcomes[1..])
  }

  /** A heartbeat, a method that carries no content, or a message of a method that does, with properties that can be
      read again. */
  predicate Sendable(s: Sent) {
    var call := s.call;
    if call.content.None? then call.kind == 8 || (call.kind == 1 && !CarriesContent(call.sig))
    else
      && call.kind == 1 && CarriesContent(call.sig) && |call.content.value.body| < U64
      && EncodeProperties(call.content.value.props).Ok? && RereadProperties(call.content.value.props, 0, map[]).Ok?
  }

  /** Unless a message is short enough to be written at once, it needs a body, and room for it in a frame. */
  predicate Deliverable(s: Sent) {
    s.call.content.Some? ==>
      var properties, body := EncodeProperties(s.call.content.value.props), s.call.content.value.body;
      properties.Err? || |s.call.args| + |properties.value| + |body| + 40 <= s.frameMax - 8
      || (body != [] && s.frameMax > 8)
  }

  function FramesOf(s: Sent): seq<Frame> {
    var frames := CallFrames(s.call, s.frameMax);
    if frames.Ok? then frames.value else []
  }

  /** The callback that `call` leads to when its properties come back as `props`; a heartbeat leads to none. */
  function CallbackOf(call: Call, props: Props): seq<Outcome> {
    if call.kind == 8 then []
    else [Callback(call.channel, call.sig, MethodFrame(call).payload,
      if call.content.None? then None else Some(Content(props, call.content.value.body)))]
  }

  function Delivery(s: Sent): seq<Outcome> {
    if s.call.content.None? then CallbackOf(s.call, map[])
    else
      var read := RereadProperties(s.call.content.value.props, 0, map[]);
      if read.Ok? then CallbackOf(s.call, read.value) else []
  }

  /** The message as it was given to the writer, with all its properties. */
  function Original(s: Sent): seq<Outcome> {
    CallbackOf(s.call, if s.call.content.None? then map[] else Given(s.call.content.value.props))
  }

  // ---------------------------------------------------------------- one message

  lemma {:induction false} CallbacksAppend(a: seq<Outcome>, b: seq<Outcome>)
    ensures Callbacks(a + b) == Callbacks(a) + Callbacks(b)
  {
    if a == [] {
      assert a + b == b;
    } else {
      assert (a + b)[1..] == a[1..] + b;
      CallbacksAppend(a[1..], b);
      var first := if a[0].Callback? then [a[0]] else [];
      assert first + (Callbacks(a[1..]) + Callbacks(b)) == first + Callbacks(a[1..]) + Callbacks(b);
    }
  }

  lemma {:induction false} RunAppend(m: States, a: seq<Frame>, b: seq<Frame>)
    ensures var (os, mid) := Run(m, a);
      var (os', end) := Run(mid, b);
      Run(m, a + b) == (os + os', end)
    decreases |a|
  {
    hide Step;
    if a == [] {
      assert a + b == b && [] + Run(m, b).0 == Run(m, b).0;
    } else {
      assert (a + b)[1..] == a[1..] + b;
      var (o, next) := Step(m, a[0]);
      RunAppend(next, a[1..], b);
      var (os, mid) := Run(next, a[1..]);
      assert [o] + (os + Run(mid, b).0) == [o] + os + Run(mid, b).0;
    }
  }

  predicate AllOn(frames: seq<Frame>, c: u16) {
    forall f :: f in frames ==> f.channel == c
  }

  /** Frames of one channel leave the others alone. */
  lemma {:induction false} OneChannel(m: States, frames: seq<Frame>, c: u16)
    requires AllOn(frames, c) && (c in m ==> m[c] != Idle)
    ensures var (os, end) := RunChannel(StateOf(m, c), frames); Run(m, frames) == (os, SetState(m, c, end))
    decreases |frames|
  {
    hide StepChannel;
    if frames == [] {
      assert c !in m ==> m - {c} == m;
      assert c in m ==> m[c := m[c]] == m;
    } else {
      assert frames[0] in frames;
      var (o, st) := StepChannel(StateOf(m, c), frames[0]);
      var next := SetState(m, c, st);
      OneChannel(next, frames[1..], c);
      var end := RunChannel(st, frames[1..]).1;
      assert SetState(next, c, end) == SetState(m, c, end);
    }
  }

  lemma MethodSigOf(sig: Sig, args: seq<byte>)
    ensures MethodSig(BigEndian(sig.0, 2) + BigEndian(sig.1, 2) + args) == Ok(sig)
  {
    Pow256Values();
    NumberOfBigEndian(sig.0, 2);
    NumberOfBigEndian(sig.1, 2);
    TwoWords(BigEndian(sig.0, 2), BigEndian(sig.1, 2), args);
    hide BigEndian, Number, Pow256;
  }

  lemma TwoWords(a: seq<byte>, b: seq<byte>, rest: seq<byte>)
    requires |a| == 2 && |b| == 2
    ensures (a + b + rest)[0..2] == a && (a + b + rest)[2..4] == b
  {
  }

  /** A content header is read back. */
  lemma HeaderOf(call: Call, props: Props, size: nat)
    requires EncodeProperties(props).Ok? && call.sig.0 == BASIC && size < U64
    ensures ParseHeader(HeaderFrame(call, EncodeProperties(props).value, size).payload)
         == (var read :- RereadProperties(props, 0, map[]); Ok((size, read)))
  {
    var id, weight, length := BigEndian(call.sig.0, 2), BigEndian(0, 2), BigEndian(size, 8);
    var list := EncodeProperties(props).value;
    Pow256Values();
    NumberOfBigEndian(call.sig.0, 2);
    NumberOfBigEndian(size, 8);
    hide BigEndian, Number, Pow256, EncodeProperties, DecodeProperties, RereadProperties;
    FourPieces(id, weight, length, list);
    PropertiesRoundTrip(props, id + weight + length + list, 12);
  }

  lemma FourPieces(id: seq<byte>, weight: seq<byte>, length: seq<byte>, list: seq<byte>)
    requires |id| == 2 && |weight| == 2 && |length| == 8
    ensures var s := id + weight + length + list; s[0..2] == id && s[4..12] == length && At(s, 12, list)
  {
  }

  /** The pieces of a body complete the message with the last of them, and not before. */
  lemma {:induction false} BodyRun(st: ChannelState, c: u16, rest: seq<byte>, chunk: nat)
    requires st.WantBody? && chunk > 0 && rest != [] && |Join(st.chunks)| + |rest| == st.size
    ensures var (os, end) := RunChannel(st, BodyFrames(c, rest, chunk));
      end == Idle && Callbacks(os) == [Callback(c, st.sig, st.args, Some(Content(st.props, Join(st.chunks) + rest)))]
    decreases |rest|
  {
    hide Join;
    if |rest| <= chunk {
      JoinAppend(st.chunks, rest);
      var f := Frame(3, c, rest);
      assert [f][1..] == [];
      var o := StepChannel(st, f).0;
      assert RunChannel(st, [f]) == ([o] + [], Idle) && [o][1..] == [];
    } else {
      var f, later := Frame(3, c, rest[..chunk]), BodyFrames(c, rest[chunk..], chunk);
      JoinAppend(st.chunks, rest[..chunk]);
      var next := StepChannel(st, f).1;
      assert next == st.(chunks := st.chunks + [rest[..chunk]]);
      BodyRun(next, c, rest[chunk..], chunk);
      assert ([f] + later)[1..] == later;
      assert ([Pending] + RunChannel(next, later).0)[1..] == RunChannel(next, later).0;
      assert Join(st.chunks) + rest[..chunk] + rest[chunk..] == Join(st.chunks) + rest;
    }
  }

  /** The frames of a message: method, header, and a body in pieces or none. */
  lemma MessageFrames(s: Sent) returns (rest: seq<Frame>, chunk: nat)
    requires s.call.content.Some? && Sendable(s) && Deliverable(s)
    ensures var call, body := s.call, s.call.content.value.body;
      && FramesOf(s)
         == [MethodFrame(call)] + ([HeaderFrame(call, EncodeProperties(call.content.value.props).value, |body|)] + rest)
      && (body == [] ==> rest == []) && (body != [] ==> chunk > 0 && rest == BodyFrames(call.channel, body, chunk))
      && AllOn(FramesOf(s), call.channel)
  {
    hide EncodeProperties, RereadProperties, BigEndian, BodyFrames, CarriesContent;
    var call, body := s.call, s.call.content.value.body;
    chunk := if Slow(call, s.frameMax) then s.frameMax - 8 else |body|;
    rest := if body == [] then [] else BodyFrames(call.channel, body, chunk);
    if body != [] {
      BodySplit(call.channel, body, chunk);
      if !Slow(call, s.frameMax) {
        OnePiece(call.channel, body);
      }
    }
  }

  lemma OnePiece(channel: u16, body: seq<byte>)
    requires body != []
    ensures BodyFrames(channel, body, |body|) == [Frame(3, channel, body)]
  {
  }

  /** A method, its header and its body, from an idle channel. */
  lemma MessageHandled(first: Frame, header: Frame, rest: seq<Frame>, c: u16, sig: Sig,
                       props: Props, body: seq<byte>, chunk: nat)
    requires first.kind == 1 && MethodSig(first.payload) == Ok(sig) && CarriesContent(sig)
    requires header.kind == 2 && header.channel == c && ParseHeader(header.payload) == Ok((|body|, props))
    requires (body == [] ==> rest == []) && (body != [] ==> chunk > 0 && rest == BodyFrames(c, body, chunk))
    ensures var (os, end) := RunChannel(Idle, [first] + ([header] + rest));
      end == Idle && Callbacks(os) == [Callback(c, sig, first.payload, Some(Content(props, body)))]
  {
    hide MethodSig, CarriesContent, ParseHeader, BodyFrames;
    var expecting, later := WantHeader(sig, first.payload), [header] + rest;
    assert later[1..] == rest && ([first] + later)[1..] == later;
    assert StepChannel(Idle, first) == (Pending, expecting);
    var (o, next) := StepChannel(expecting, header);
    assert RunChannel(expecting, later).0 == [o] + RunChannel(next, rest).0;
    assert ([o] + RunChannel(next, rest).0)[1..] == RunChannel(next, rest).0;
    if body != [] {
      BodyRun(next, c, body, chunk);
      assert Join([]) + body == body;
    }
    var os := RunChannel(expecting, later).0;
    assert Callbacks(os) == (if o.Callback? then [o] else []) + Callbacks(RunChannel(next, rest).0);
    assert RunChannel(Idle, [first] + later).0 == [Pending] + os && ([Pending] + os)[1..] == os;
  }

  lemma MessageRun(s: Sent)
    requires s.call.content.Some? && Sendable(s) && Deliverable(s)
    ensures AllOn(FramesOf(s), s.call.channel)
    ensures var (os, end) := RunChannel(Idle, FramesOf(s)); end == Idle && Callbacks(os) == Delivery(s)
  {
    var call, content := s.call, s.call.content.value;
    MethodSigOf(call.sig, call.args);
    HeaderOf(call, content.props, |content.body|);
    hide FramesOf, Slow, BodyFrames, ParseHeader, MethodSig, EncodeProperties, RereadProperties, RunChannel, Callbacks,
      BigEndian;
    var rest, chunk := MessageFrames(s);
    var first, header := MethodFrame(call), HeaderFrame(call, EncodeProperties(content.props).value, |content.body|);
    var props := RereadProperties(content.props, 0, map[]).value;
    MessageHandled(first, header, rest, call.channel, call.sig, props, content.body, chunk);
  }

  /** A method without content, or a heartbeat. */
  lemma PlainRun(s: Sent)
    requires s.call.content.None? && Sendable(s)
    ensures AllOn(FramesOf(s), s.call.channel)
    ensures var (os, end) := RunChannel(Idle, FramesOf(s)); end == Idle && Callbacks(os) == Delivery(s)
  {
    MethodSigOf(s.call.sig, s.call.args);
    hide MethodSig, BigEndian, CarriesContent;
    var f := MethodFrame(s.call);
    var o := StepChannel(Idle, f).0;
    assert FramesOf(s) == [f] && [f][1..] == [];
    assert RunChannel(Idle, [f]) == ([o] + [], Idle) && ([o] + [])[1..] == [] && [o] + [] == [o];
    assert Callbacks([o]) == (if o.Callback? then [o] else []) + Callbacks([o][1..]);
  }

  lemma SentRun(s: Sent)
    requires Sendable(s) && Deliverable(s)
    ensures AllOn(FramesOf(s), s.call.channel)
    ensures var (os, end) := RunChannel(Idle, FramesOf(s)); end == Idle && Callbacks(os) == Delivery(s)
  {
    hide Sendable, Deliverable, FramesOf, RunChannel, Callbacks, Delivery;
    if s.call.content.None? {
      PlainRun(s);
    } else {
      MessageRun(s);
    }
  }

  /** A method alone, or with a header that announces a body, leaves the channel waiting. */
  lemma NotFinished(first: Frame, header: Frame, sig: Sig, props: Props, size: nat)
    requires first.kind == 1 && MethodSig(first.payload) == Ok(sig) && CarriesContent(sig)
    requires header.kind == 2 && ParseHeader(header.payload) == Ok((size, props)) && size > 0
    ensures Callbacks(RunChannel(Idle, [first]).0) == [] == Callbacks(RunChannel(Idle, [first, header]).0)
  {
    hide MethodSig, CarriesContent, ParseHeader;
    var st := StepChannel(Idle, first).1;
    assert [first, header][1..] == [header] && [header][1..] == [] && [first][1..] == [];
    assert RunChannel(st, [header]).0 == [Pending] + [] == [Pending] && [Pending][1..] == [];
    assert RunChannel(Idle, [first]).0 == [Pending] + [];
    assert RunChannel(Idle, [first, header]).0 == [Pending] + [Pending] && ([Pending] + [Pending])[1..] == [Pending];
  }

  /** A message that is not deliverable is never delivered: without a body the slow path writes no header, and with
      frames of no more than eight octets it writes no body. */
  lemma NotDelivered(s: Sent)
    requires Sendable(s) && !Deliverable(s)
    ensures Callbacks(RunChannel(Idle, FramesOf(s)).0) == [] != Delivery(s)
  {
    hide EncodeProperties, RereadProperties, ParseHeader, MethodSig, RunChannel, Callbacks, BigEndian;
    var call, content := s.call, s.call.content.value;
    var properties := EncodeProperties(content.props).value;
    var first, header, size := MethodFrame(call), HeaderFrame(call, properties, |content.body|), |content.body|;
    MethodSigOf(call.sig, call.args);
    if content.body == [] {
      var other := HeaderFrame(call, properties, 1);
      HeaderOf(call, content.props, 1);
      assert [first] + [] == [first];
      NotFinished(first, other, call.sig, RereadProperties(content.props, 0, map[]).value, 1);
    } else {
      HeaderOf(call, content.props, size);
      NotFinished(first, header, call.sig, RereadProperties(content.props, 0, map[]).value, size);
      BodyEnd(call.channel, content.body, s.frameMax - 8);
      assert [first] + ([header] + []) == [first, header];
    }
  }

  /** A message arrives exactly if it fits the fast path, or has a body and frames with room for some of it. */
  lemma DeliveredExactly(s: Sent)
    requires Sendable(s)
    ensures Callbacks(RunChannel(Idle, FramesOf(s)).0) == Delivery(s) <==> Deliverable(s)
  {
    hide FramesOf, RunChannel, Callbacks, Delivery, Deliverable;
    if Deliverable(s) {
      SentRun(s);
    } else {
      NotDelivered(s);
    }
  }

  // ---------------------------------------------------------------- many messages

  predicate AllSendable(sents: seq<Sent>) {
    forall s :: s in sents ==> Sendable(s) && Deliverable(s)
  }

  /** The frames of a sequence of calls, each whole before the next. */
  function SentFrames(sents: seq<Sent>): seq<Frame> {
    if sents == [] then [] else FramesOf(sents[0]) + SentFrames(sents[1..])
  }

  function Deliveries(sents: seq<Sent>): seq<Outcome> {
    if sents == [] then [] else Delivery(sents[0]) + Deliveries(sents[1..])
  }

  function Originals(sents: seq<Sent>): seq<Outcome> {
    if sents == [] then [] else Original(sents[0]) + Originals(sents[1..])
  }

  ghost predicate AllPropertiesFaithful(sents: seq<Sent>) {
    forall s :: s in sents && s.call.content.Some? ==> AllFaithful(s.call.content.value.props)
  }

  lemma Unchanged(s: Sent)
    requires Sendable(s)
    ensures |Delivery(s)| == |Original(s)|
    ensures Delivery(s) == Original(s) <==> (s.call.content.Some? ==> AllFaithful(s.call.content.value.props))
  {
    hide EncodeProperties, RereadProperties, AllFaithful, Given, MethodFrame, CarriesContent;
    if s.call.content.Some? {
      PropertiesExactly(s.call.content.value.props);
    }
  }

  lemma SplitEqual<T>(a: seq<T>, b: seq<T>, c: seq<T>, d: seq<T>)
    requires |a| == |c|
    ensures a + b == c + d <==> a == c && b == d
  {
    if a + b == c + d {
      assert a == (a + b)[..|a|] == (c + d)[..|c|] == c;
      assert b == (a + b)[|a|..] == (c + d)[|c|..] == d;
    }
  }

  /** What is delivered is what was given exactly if all values of properties are faithful. */
  lemma {:induction false} DeliveredUnchanged(sents: seq<Sent>)
    requires AllSendable(sents)
    ensures Deliveries(sents) == Originals(sents) <==> AllPropertiesFaithful(sents)
  {
    hide Sendable, Deliverable, Delivery, Original, AllFaithful;
    if sents != [] {
      Unchanged(sents[0]);
      DeliveredUnchanged(sents[1..]);
      SplitEqual(Delivery(sents[0]), Deliveries(sents[1..]), Original(sents[0]), Originals(sents[1..]));
      assert forall s :: s in sents <==> s == sents[0] || s in sents[1..];
    }
  }

  lemma {:induction false} HandledInOrder(sents: seq<Sent>)
    requires AllSendable(sents)
    ensures var (os, end) := Run(map[], SentFrames(sents)); end == map[] && Callbacks(os) == Deliveries(sents)
  {
    hide FramesOf, Sendable, Deliverable, Delivery, RunChannel;
    if sents != [] {
      var s := sents[0];
      var frames, rest := FramesOf(s), SentFrames(sents[1..]);
      SentRun(s);
      OneChannel(map[], frames, s.call.channel);
      assert SetState(map[], s.call.channel, Idle) == map[];
      HandledInOrder(sents[1..]);
      RunAppend(map[], frames, rest);
      CallbacksAppend(Run(map[], frames).0, Run(map[], rest).0);
    }
  }

  /** What the handler is given: a frame, or nothing but the reader's complaint about a wrong frame end. */
  function RunArrivals(m: States, arrivals: seq<Arrival>): (seq<Outcome>, States)
    decreases |arrivals|
  {
    if arrivals == [] then ([], m)
    else
      var (o, next) := if arrivals[0].Good? then Step(m, arrivals[0].frame) else (Rejected, m);
      var (os, end) := RunArrivals(next, arrivals[1..]);
      ([o] + os, end)
  }

  lemma {:induction false} RunAllGood(m: States, frames: seq<Frame>)
    ensures RunArrivals(m, AllGood(frames)) == Run(m, frames)
    decreases |frames|
  {
    hide Step;
    if frames != [] {
      assert AllGood(frames)[1..] == AllGood(frames[1..]);
      RunAllGood(Step(m, frames[0]).1, frames[1..]);
    }
  }

  // ---------------------------------------------------------------- a run of the writer

  lemma {:induction false} JoinConcat(a: seq<seq<byte>>, b: seq<seq<byte>>)
    ensures Join(a + b) == Join(a) + Join(b)
  {
    if a == [] {
      assert a + b == b;
    } else {
      assert (a + b)[1..] == a[1..] + b;
      JoinConcat(a[1..], b);
    }
  }

  /** A call can be written: the sizes of its frames fit their fields, and if it has no content, so that nothing has
      made sure of it, its frame fits the buffer. */
  predicate Fits(s: Sent, capacity: nat) {
    && CallFrames(s.call, s.frameMax).Ok? && Sized(FramesOf(s))
    && (s.call.content.None? ==> |Wire(FramesOf(s))| <= capacity)
  }

  predicate AllFit(sents: seq<Sent>, capacity: nat) {
    sents == [] ||
    var more := Grown(sents[0].call, sents[0].frameMax, capacity);
    Fits(sents[0], more) && AllFit(sents[1..], more)
  }

  lemma Written(s: Sent, capacity: nat)
    requires Deliverable(s)
    ensures var (r, writes) := WriteResult(s.call, s.frameMax, Grown(s.call, s.frameMax, capacity));
      && (r.Ok? <==> Fits(s, Grown(s.call, s.frameMax, capacity)))
      && (r.Ok? ==> Join(writes) == Wire(FramesOf(s)) && Sized(FramesOf(s)))
  {
    var more := Grown(s.call, s.frameMax, capacity);
    assert CallFrames(s.call, s.frameMax).Ok? && s.call.content.Some? ==>
      EncodeProperties(s.call.content.value.props).Ok?;
    hide CallFrames, Wire, Packed, FrameOctets, EncodeProperties;
    if CallFrames(s.call, s.frameMax).Ok? {
      PackedAll(FramesOf(s));
      if !Slow(s.call, s.frameMax) && s.call.content.Some? {
        NoOverflow(s.call, s.frameMax, more);
      }
    }
    if WriteResult(s.call, s.frameMax, more).0.Ok? {
      WritesAreFrames(s.call, s.frameMax, more);
    }
  }

  /** Whatever the frame size was raised or lowered to between the calls, all of them succeed exactly if they fit, which
      asks nothing of a message but sizes below 2^32; and what is written is their frames, one after the other. */
  lemma {:induction false} AllWritten(sents: seq<Sent>, capacity: nat)
    requires forall s :: s in sents ==> Deliverable(s)
    ensures (forall r :: r in ResultAll(sents, capacity) ==> r.Ok?) <==> AllFit(sents, capacity)
    ensures AllFit(sents, capacity) ==>
      Join(WriteAll(sents, capacity)) == Wire(SentFrames(sents)) && Sized(SentFrames(sents))
  {
    hide Deliverable, Grown, WriteResult, Fits, FramesOf, FrameOctets;
    if sents != [] {
      var s := sents[0];
      var more := Grown(s.call, s.frameMax, capacity);
      var (r, writes) := WriteResult(s.call, s.frameMax, more);
      Written(s, capacity);
      AllWritten(sents[1..], more);
      assert forall x :: x in ResultAll(sents, capacity) <==> x == r || x in ResultAll(sents[1..], more);
      JoinConcat(writes, WriteAll(sents[1..], more));
      WireAppend(FramesOf(s), SentFrames(sents[1..]));
      assert forall f :: f in SentFrames(sents) <==> f in FramesOf(s) || f in SentFrames(sents[1..]);
    }
  }

  /** End to end. However the octets of any messages, methods and heartbeats, of any channels, written under whatever
      frame sizes, are cut up, interrupted and delayed, the peer's callbacks are those messages and methods: each
      once, in order, with its method, arguments and body, and with its properties as they are read back, which is
      as they were given exactly if all their values are faithful. */
  lemma EndToEnd(sents: seq<Sent>, capacity: nat, events: seq<Event>, config: Config, calls: nat)
    requires AllSendable(sents) && AllFit(sents, capacity)
    requires Stream(events) == Join(WriteAll(sents, capacity)) && Calm(events, config)
    requires calls >= Weight(events) + |Stream(events)|
    ensures var (os, end) := RunArrivals(map[], ReadFrames(Line([], events), config, calls).arrived);
      && end == map[] && Callbacks(os) == Deliveries(sents)
      && (Callbacks(os) == Originals(sents) <==> AllPropertiesFaithful(sents))
  {
    hide Wire, Weight, ReadFrames, Sendable, Deliverable, AllFit, Run, Callbacks, WriteAll, ResultAll, Join, Originals,
      Deliveries, AllPropertiesFaithful;
    DeliveredUnchanged(sents);
    AllWritten(sents, capacity);
    var frames := SentFrames(sents);
    HandledInOrder(sents);
    assert Unread(Line([], events)) == Wire(frames) + [];
    RunCompletes(Line([], events), config, calls);
    WireArrives(frames, []);
    assert Arrivals([]) == [] && AllGood(frames) + [] == AllGood(frames);
    RunAllGood(map[], frames);
  }
}
