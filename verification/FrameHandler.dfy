/** Assembling methods, headers and bodies into messages, channel by channel. */
module FrameHandler {
  import opened Octets
  import opened Frames
  import opened Properties

  const BASIC: u16 := 60

  /** Basic.Return, Basic.Deliver and Basic.GetOk carry content. */
  predicate CarriesContent(sig: Sig) {
    sig == (60, 50) || sig == (60, 60) || sig == (60, 71)
  }

  datatype Content = Content(props: Props, body: seq<byte>)

  datatype ChannelState =
    | Idle
    | WantHeader(sig: Sig, args: seq<byte>)
    | WantBody(sig: Sig, args: seq<byte>, props: Props, size: nat, chunks: seq<seq<byte>>)

  /** What `on_frame` does last: return False, call back and return True, or raise. */
  datatype Outcome =
    | Pending
    | Callback(channel: u16, sig: Sig, args: seq<byte>, content: Option<Content>)
    | Rejected
    | Broken(error: Error)

  function Expected(st: ChannelState): byte {
    match st
    case Idle => 1
    case WantHeader(_, _) => 2
    case WantBody(_, _, _, _, _) => 3
  }

  function Join(chunks: seq<seq<byte>>): seq<byte> {
    if chunks == [] then [] else chunks[0] + Join(chunks[1..])
  }

  /** The class and method ids that open a method payload. */
  function MethodSig(payload: seq<byte>): (r: Result<Sig>)
    ensures r.Ok? <==> |payload| >= 4
  {
    if |payload| < 4 then Err(Truncated)
    else
      Pow256Values();
      Ok((Number(payload[0..2]), Number(payload[2..4])))
  }

  /** Body size and properties of a content header. */
  function ParseHeader(payload: seq<byte>): Result<(nat, Props)> {
    if |payload| < 12 then Err(Truncated)
    else if Number(payload[0..2]) != BASIC then Err(UnknownClass)
    else
      var (props, _) :- DecodeProperties(payload, 12);
      Ok((Number(payload[4..12]), props))
  }

  /** One frame on its channel. */
  function StepChannel(st: ChannelState, f: Frame): (Outcome, ChannelState) {
    if f.kind != Expected(st) && f.kind != 8 then (Rejected, st)
    else if f.kind == 8 then (Pending, st)
    else match st
      case Idle =>
        (match MethodSig(f.payload)
         case Err(e) => (Broken(e), st)
         case Ok(sig) =>
           if CarriesContent(sig) then (Pending, WantHeader(sig, f.payload))
           else (Callback(f.channel, sig, f.payload, None), Idle))
      case WantHeader(sig, args) =>
        (match ParseHeader(f.payload)
         case Err(e) => (Broken(e), st)
         case Ok((size, props)) =>
           if size == 0 then (Callback(f.channel, sig, args, Some(Content(props, []))), Idle)
           else (Pending, WantBody(sig, args, props, size, [])))
      case WantBody(sig, args, props, size, chunks) =>
        var more := chunks + [f.payload];
        if |Join(more)| >= size then (Callback(f.channel, sig, args, Some(Content(props, Join(more)))), Idle)
        else (Pending, WantBody(sig, args, props, size, more))
  }

  /** The channels that are not idle. */
  type States = map<u16, ChannelState>

  predicate NoneIdle(m: States) {
    forall c: u16 :: c in m ==> m[c] != Idle
  }

  lemma SameStates(m: States, m': States)
    requires NoneIdle(m) && NoneIdle(m') && forall c: u16 :: StateOf(m, c) == StateOf(m', c)
    ensures m == m'
  {
    forall c: u16 ensures (c in m <==> c in m') && (c in m ==> m[c] == m'[c]) {
      assert StateOf(m, c) == StateOf(m', c);
    }
  }

  function StateOf(m: States, c: u16): ChannelState {
    if c in m then m[c] else Idle
  }

  function SetState(m: States, c: u16, st: ChannelState): (m': States)
    ensures StateOf(m', c) == st && forall d: u16 :: d != c ==> StateOf(m', d) == StateOf(m, d)
    ensures NoneIdle(m) ==> NoneIdle(m')
  {
    if st == Idle then m - {c} else m[c := st]
  }

  function Step(m: States, f: Frame): (Outcome, States) {
    var (o, st) := StepChannel(StateOf(m, f.channel), f);
    (o, SetState(m, f.channel, st))
  }

  /** The outcomes of a trace of frames, and the states after it. */
  function Run(m: States, frames: seq<Frame>): (r: (seq<Outcome>, States))
    ensures |r.0| == |frames|
    decreases |frames|
  {
    if frames == [] then ([], m)
    else
      var (o, next) := Step(m, frames[0]);
      var (os, end) := Run(next, frames[1..]);
      ([o] + os, end)
  }

  // ---------------------------------------------------------------- one frame, in plain terms

  /** A frame out of turn is rejected and changes nothing; a heartbeat is never out of turn, and changes nothing. */
  lemma OutOfTurn(st: ChannelState, f: Frame)
    ensures f.kind == 8 ==> StepChannel(st, f) == (Pending, st)
    ensures StepChannel(st, f).0 == Rejected <==>
      f.kind != 8 && f.kind != (if st.Idle? then 1 else if st.WantHeader? then 2 else 3)
    ensures StepChannel(st, f).0 == Rejected ==> StepChannel(st, f).1 == st
  {
  }

  /** A method is called back at once, unless it is Basic.Return, Basic.Deliver or Basic.GetOk: these wait for a content
      header. */
  lemma MethodArrives(c: u16, payload: seq<byte>)
    requires |payload| >= 4
    ensures var class_, method_ := Number(payload[0..2]), Number(payload[2..4]);
      && class_ < U16 && method_ < U16
      && StepChannel(Idle, Frame(1, c, payload)) ==
         if class_ == 60 && (method_ == 50 || method_ == 60 || method_ == 71)
         then (Pending, WantHeader((class_, method_), payload))
         else (Callback(c, (class_, method_), payload, None), Idle)
  {
    Pow256Values();
    hide Number, Pow256;
  }

  /** A content header of the class Basic carries the size of the body and the properties; without a body, that is
      all. */
  lemma HeaderArrives(c: u16, sig: Sig, args: seq<byte>, payload: seq<byte>)
    requires |payload| >= 12 && Number(payload[0..2]) == 60 && DecodeProperties(payload, 12).Ok?
    ensures var size, props := Number(payload[4..12]), DecodeProperties(payload, 12).value.0;
      StepChannel(WantHeader(sig, args), Frame(2, c, payload)) ==
        if size == 0 then (Callback(c, sig, args, Some(Content(props, []))), Idle)
        else (Pending, WantBody(sig, args, props, size, []))
  {
    hide Number, DecodeProperties;
  }

  /** A header of another class, or one whose properties cannot be read, breaks the handler off. */
  lemma HeaderBreaks(c: u16, sig: Sig, args: seq<byte>, payload: seq<byte>)
    requires |payload| < 12 || Number(payload[0..2]) != 60 || DecodeProperties(payload, 12).Err?
    ensures StepChannel(WantHeader(sig, args), Frame(2, c, payload)).0.Broken?
  {
    hide Number, DecodeProperties;
  }

  /** A body completes the message as soon as its octets are as many as announced, or more. */
  lemma {:induction false} BodyArrives(c: u16, st: ChannelState, payload: seq<byte>)
    requires st.WantBody?
    ensures var body := Join(st.chunks) + payload;
      StepChannel(st, Frame(3, c, payload)) ==
        if |body| >= st.size then (Callback(c, st.sig, st.args, Some(Content(st.props, body))), Idle)
        else (Pending, st.(chunks := st.chunks + [payload]))
  {
    JoinAppend(st.chunks, payload);
    hide Join;
  }

  // ---------------------------------------------------------------- channels do not interfere

  /** The handler as it would be for a single channel. */
  function RunChannel(st: ChannelState, frames: seq<Frame>): (r: (seq<Outcome>, ChannelState))
    ensures |r.0| == |frames|
    decreases |frames|
  {
    if frames == [] then ([], st)
    else
      var (o, next) := StepChannel(st, frames[0]);
      var (os, end) := RunChannel(next, frames[1..]);
      ([o] + os, end)
  }

  function OnChannel(frames: seq<Frame>, c: u16): seq<Frame> {
    if frames == [] then []
    else (if frames[0].channel == c then [frames[0]] else []) + OnChannel(frames[1..], c)
  }

  /** The outcomes of the frames on `c`. */
  function OutcomesOn(frames: seq<Frame>, outcomes: seq<Outcome>, c: u16): seq<Outcome>
    requires |frames| == |outcomes|
  {
    if frames == [] then []
    else (if frames[0].channel == c then [outcomes[0]] else []) + OutcomesOn(frames[1..], outcomes[1..], c)
  }

  /** In any interleaving, every callback, rejection and failure on a channel, and the state it is left in,
      is what that channel's frames alone bring about. */
  lemma {:induction false} NonInterference(m: States, frames: seq<Frame>, c: u16)
    ensures var (os, end) := Run(m, frames);
      RunChannel(StateOf(m, c), OnChannel(frames, c)) == (OutcomesOn(frames, os, c), StateOf(end, c))
    decreases |frames|
  {
    hide StepChannel;
    if frames != [] {
      var f, rest := frames[0], OnChannel(frames[1..], c);
      var (o, next) := Step(m, f);
      var (os, end) := Run(next, frames[1..]);
      NonInterference(next, frames[1..], c);
      assert ([o] + os)[1..] == os;
      if f.channel == c {
        assert ([f] + rest)[1..] == rest;
      } else {
        assert [] + rest == rest && [] + OutcomesOn(frames[1..], os, c) == OutcomesOn(frames[1..], os, c);
      }
    }
  }

  // ---------------------------------------------------------------- reassembly

  /** The frames a channel has accepted since it was last idle. */
  function Trail(st: ChannelState, trail: seq<Frame>, f: Frame): seq<Frame> {
    match StepChannel(st, f).0
    case Pending => if f.kind == 8 then trail else trail + [f]
    case Callback(_, _, _, _) => []
    case _ => trail
  }

  function Payloads(frames: seq<Frame>): seq<seq<byte>> {
    if frames == [] then [] else Payloads(frames[..|frames| - 1]) + [frames[|frames| - 1].payload]
  }

  /** A channel expecting a header has accepted a method; one expecting a body, a method, a header and
      less body than the header announced. */
  predicate Follows(st: ChannelState, trail: seq<Frame>) {
    match st
    case Idle => trail == []
    case WantHeader(sig, args) =>
      |trail| == 1 && trail[0].payload == args && MethodSig(args) == Ok(sig) && CarriesContent(sig)
    case WantBody(sig, args, props, size, chunks) =>
      && |trail| >= 2 && trail[0].payload == args && MethodSig(args) == Ok(sig) && CarriesContent(sig)
      && ParseHeader(trail[1].payload) == Ok((size, props))
      && chunks == Payloads(trail[2..]) && |Join(chunks)| < size
  }

  predicate Assembles(content: Content, frames: seq<Frame>) {
    && |frames| >= 2 && ParseHeader(frames[1].payload).Ok?
    && var (size, props) := ParseHeader(frames[1].payload).value;
    && content == Content(props, Join(Payloads(frames[2..]))) && size <= |content.body|
  }

  /** A message is delivered as the method, the properties and the joined bodies of the frames accepted for it. */
  predicate Delivers(o: Outcome, frames: seq<Frame>) {
    o.Callback? ==>
      && |frames| >= 1 && o.args == frames[0].payload && MethodSig(o.args) == Ok(o.sig)
      && (o.content.Some? <==> CarriesContent(o.sig)) && (o.content.None? ==> |frames| == 1)
      && (o.content.Some? ==> Assembles(o.content.value, frames))
  }

  lemma StepFollows(st: ChannelState, trail: seq<Frame>, f: Frame)
    requires Follows(st, trail)
    ensures Follows(StepChannel(st, f).1, Trail(st, trail, f))
    ensures Delivers(StepChannel(st, f).0, trail + [f])
  {
    hide MethodSig, ParseHeader, CarriesContent;
    var frames := trail + [f];
    if |trail| >= 2 {
      assert frames[2..] == trail[2..] + [f];
      assert (trail[2..] + [f])[..|trail| - 2] == trail[2..];
    } else if |trail| == 1 {
      assert frames[2..] == [];
      assert Join([]) == [];
    }
  }

  /** The frames accepted since the channel was last idle, after a whole trace. */
  function TrailAfter(st: ChannelState, trail: seq<Frame>, frames: seq<Frame>): seq<Frame>
    decreases |frames|
  {
    if frames == [] then trail
    else TrailAfter(StepChannel(st, frames[0]).1, Trail(st, trail, frames[0]), frames[1..])
  }

  /** In every reachable state. */
  lemma {:induction false} Reassembly(st: ChannelState, trail: seq<Frame>, frames: seq<Frame>)
    requires Follows(st, trail)
    ensures Follows(RunChannel(st, frames).1, TrailAfter(st, trail, frames))
    ensures forall i :: 0 <= i < |frames| ==>
      Delivers(RunChannel(st, frames).0[i], TrailAfter(st, trail, frames[..i]) + [frames[i]])
    decreases |frames|
  {
    hide StepChannel, Follows, Delivers, Trail;
    if frames != [] {
      StepFollows(st, trail, frames[0]);
      var next, after := StepChannel(st, frames[0]).1, Trail(st, trail, frames[0]);
      Reassembly(next, after, frames[1..]);
      forall i | 0 <= i < |frames|
        ensures Delivers(RunChannel(st, frames).0[i], TrailAfter(st, trail, frames[..i]) + [frames[i]])
      {
        if i > 0 {
          assert frames[..i][0] == frames[0] && frames[..i][1..] == frames[1..][..i - 1];
          assert frames[1..][i - 1] == frames[i];
          assert RunChannel(st, frames).0[i] == RunChannel(next, frames[1..]).0[i - 1];
        }
      }
    }
  }

  // ---------------------------------------------------------------- the objects

  lemma {:induction false} JoinAppend(chunks: seq<seq<byte>>, last: seq<byte>)
    ensures Join(chunks + [last]) == Join(chunks) + last
  {
    if chunks == [] {
      assert [last][1..] == [];
    } else {
      assert (chunks + [last])[1..] == chunks[1..] + [last];
      JoinAppend(chunks[1..], last);
    }
  }

  class Message {
    ghost const owner: u16  // the channel it arrives on
    const frameMethod: Sig
    const frameArgs: seq<byte>
    var properties: Props
    var pendingChunks: seq<seq<byte>>
    var bodyReceived: nat
    var bodySize: nat
    var ready: bool
    var body: seq<byte>

    constructor (frameMethod: Sig, frameArgs: seq<byte>, ghost owner: u16)
      ensures this.frameMethod == frameMethod && this.frameArgs == frameArgs && this.owner == owner
      ensures pendingChunks == [] && bodyReceived == 0 && body == [] && !ready
    {
      this.frameMethod, this.frameArgs, this.owner := frameMethod, frameArgs, owner;
      properties, pendingChunks, body := map[], [], [];
      bodyReceived, bodySize, ready := 0, 0, false;
    }

    method InboundHeader(buf: seq<byte>) returns (r: Result<()>)
      requires !ready
      modifies this
      ensures pendingChunks == old(pendingChunks) && bodyReceived == old(bodyReceived) && body == old(body)
      ensures match ParseHeader(buf)
        case Ok((size, props)) => r == Ok(()) && bodySize == size && properties == props && (ready <==> size == 0)
        case Err(e) => r == Err(e) && !ready
    {
      hide DecodeProperties;
      if |buf| < 12 {
        return Err(Truncated);
      }
      bodySize := Number(buf[4..12]);
      if Number(buf[0..2]) != BASIC {
        return Err(UnknownClass);
      }
      var props :- DecodePropertiesBasic(buf, 12);
      properties := props.0;
      if bodySize == 0 {
        ready := true;
      }
      r := Ok(());
    }

    method InboundBody(buf: seq<byte>)
      requires !ready && bodyReceived == |Join(pendingChunks)|
      modifies this
      ensures properties == old(properties) && bodySize == old(bodySize)
      ensures ready <==> |Join(old(pendingChunks) + [buf])| >= bodySize
      ensures if ready then body == Join(old(pendingChunks) + [buf]) && pendingChunks == []
              else
                && pendingChunks == old(pendingChunks) + [buf] && bodyReceived == |Join(pendingChunks)|
                && body == old(body)
    {
      JoinAppend(pendingChunks, buf);
      bodyReceived := bodyReceived + |buf|;
      if bodyReceived >= bodySize {
        if pendingChunks != [] {
          pendingChunks := pendingChunks + [buf];
          body := Join(pendingChunks);
          pendingChunks := [];
        } else {
          body := buf;
        }
        ready := true;
      } else {
        pendingChunks := pendingChunks + [buf];
      }
    }

    /** The message's part in its channel's state, when a frame of type `expected` comes next. */
    predicate Partial(expected: byte)
      reads this
    {
      && !ready && body == [] && bodyReceived == |Join(pendingChunks)|
      && (expected == 2 ==> pendingChunks == [])
      && (expected == 3 ==> bodyReceived < bodySize)
    }

    function View(expected: byte): ChannelState
      reads this
    {
      if expected == 2 then WantHeader(frameMethod, frameArgs)
      else WantBody(frameMethod, frameArgs, properties, bodySize, pendingChunks)
    }
  }

  /** The closure made by `frame_handler`. */
  class Handler {
    var expectedTypes: map<u16, byte>
    var partialMessages: map<u16, Message>
    var bytesRecv: nat

    function ExpectedType(c: u16): byte
      reads this`expectedTypes
    {
      if c in expectedTypes then expectedTypes[c] else 1
    }

    /** A channel has a partial message exactly if it expects a header or a body; no message is shared. */
    ghost predicate Valid()
      reads this`expectedTypes, this`partialMessages, partialMessages.Values
    {
      && (forall c: u16 :: c in partialMessages <==> ExpectedType(c) != 1)
      && (forall c: u16 :: c in partialMessages ==> Held(c))
    }

    ghost predicate Held(c: u16)
      requires c in partialMessages
      reads this`expectedTypes, this`partialMessages, partialMessages.Values
    {
      && partialMessages[c].owner == c && (ExpectedType(c) == 2 || ExpectedType(c) == 3)
      && partialMessages[c].Partial(ExpectedType(c))
    }

    ghost function ViewAt(c: u16): ChannelState
      reads this`expectedTypes, this`partialMessages, partialMessages.Values
    {
      if c in partialMessages then partialMessages[c].View(ExpectedType(c)) else Idle
    }

    ghost function States(): (m: States)
      reads this`expectedTypes, this`partialMessages, partialMessages.Values
      ensures NoneIdle(m) && forall c: u16 :: StateOf(m, c) == ViewAt(c)
    {
      map c: u16 | c in partialMessages :: ViewAt(c)
    }

    constructor ()
      ensures Valid() && States() == map[] && bytesRecv == 0
    {
      expectedTypes, partialMessages, bytesRecv := map[], map[], 0;
    }

    lemma StatesHas(c: u16)
      requires Valid()
      ensures StateOf(States(), c) == ViewAt(c)
      ensures Expected(StateOf(States(), c)) == ExpectedType(c)
      ensures SetState(States(), c, StateOf(States(), c)) == States()
    {
    }

    /** Only what is held for channel `c` has been touched. */
    twostate predicate OnlyTouched(c: u16)
      reads this`expectedTypes, this`partialMessages, partialMessages.Values
    {
      forall d: u16 :: d != c ==>
        && ExpectedType(d) == old(ExpectedType(d)) && (d in partialMessages <==> d in old(partialMessages))
        && (d in partialMessages ==> partialMessages[d] == old(partialMessages[d]) && unchanged(partialMessages[d]))
    }

    /** If what it now holds for that channel is in order, everything is. */
    twostate lemma SettledValid(c: u16)
      requires old(Valid()) && OnlyTouched(c)
      requires c in partialMessages <==> ExpectedType(c) != 1
      requires c in partialMessages ==> Held(c)
      ensures Valid()
    {
      hide Message.Partial;
      forall d: u16 | d in partialMessages ensures Held(d) {
        if d != c {
          assert old(Held(d));
        }
      }
    }

    twostate lemma Settled(c: u16)
      requires old(Valid()) && OnlyTouched(c)
      requires c in partialMessages <==> ExpectedType(c) != 1
      requires c in partialMessages ==> Held(c)
      ensures Valid()
      ensures States() == SetState(old(States()), c, ViewAt(c))
    {
      SettledValid(c);
      hide States, SetState, Held;
      var now, next := States(), SetState(old(States()), c, ViewAt(c));
      forall d: u16 ensures StateOf(now, d) == StateOf(next, d) {
        if d != c {
          assert ViewAt(d) == old(ViewAt(d));
        }
      }
      SameStates(now, next);
    }

    method OnMethod(f: Frame) returns (o: Outcome)
      requires Valid() && f.kind == 1 == ExpectedType(f.channel)
      modifies this`expectedTypes, this`partialMessages
      ensures Valid() && fresh(partialMessages.Values - old(partialMessages.Values))
      ensures (o, States()) == Step(old(States()), f)
    {
      hide ParseHeader, MethodSig, CarriesContent;
      var c := f.channel;
      StatesHas(c);
      var sig := MethodSig(f.payload);
      if sig.Err? {
        o := Broken(sig.error);
      } else if CarriesContent(sig.value) {
        var msg := new Message(sig.value, f.payload, c);
        partialMessages := partialMessages[c := msg];
        expectedTypes := expectedTypes[c := 2];
        o := Pending;
      } else {
        o := Callback(c, sig.value, f.payload, None);
      }
      Settled(c);
    }

    method OnHeader(f: Frame) returns (o: Outcome)
      requires Valid() && f.kind == 2 == ExpectedType(f.channel)
      modifies this`expectedTypes, this`partialMessages, partialMessages.Values
      ensures Valid() && partialMessages.Values <= old(partialMessages.Values)
      ensures (o, States()) == Step(old(States()), f)
    {
      hide ParseHeader, MethodSig, CarriesContent;
      var c := f.channel;
      StatesHas(c);
      var msg := partialMessages[c];
      var r := msg.InboundHeader(f.payload);
      if r.Err? {
        o := Broken(r.error);
      } else if !msg.ready {
        expectedTypes := expectedTypes[c := 3];
        o := Pending;
      } else {
        o := Finish(c, msg);
      }
      Settled(c);
    }

    method OnBody(f: Frame) returns (o: Outcome)
      requires Valid() && f.kind == 3 == ExpectedType(f.channel)
      modifies this`expectedTypes, this`partialMessages, partialMessages.Values
      ensures Valid() && partialMessages.Values <= old(partialMessages.Values)
      ensures (o, States()) == Step(old(States()), f)
    {
      hide ParseHeader, MethodSig, CarriesContent, Join;
      var c := f.channel;
      StatesHas(c);
      var msg := partialMessages[c];
      msg.InboundBody(f.payload);
      if !msg.ready {
        o := Pending;
      } else {
        o := Finish(c, msg);
      }
      Settled(c);
    }

    /** The message is taken out before the callback gets it. */
    method Finish(c: u16, msg: Message) returns (o: Outcome)
      requires c in partialMessages && partialMessages[c] == msg
      modifies this`expectedTypes, this`partialMessages
      ensures expectedTypes == old(expectedTypes)[c := 1] && partialMessages == old(partialMessages) - {c}
      ensures o == Callback(c, msg.frameMethod, msg.frameArgs, Some(Content(msg.properties, msg.body)))
    {
      expectedTypes := expectedTypes[c := 1];
      partialMessages := partialMessages - {c};
      o := Callback(c, msg.frameMethod, msg.frameArgs, Some(Content(msg.properties, msg.body)));
    }

    /** The callback, if any, is the last thing `on_frame` does, so it is given back as the outcome: the
        state it would find is the state on return. */
    method OnFrame(f: Frame) returns (o: Outcome)
      requires Valid()
      modifies this, partialMessages.Values
      ensures Valid() && fresh(partialMessages.Values - old(partialMessages.Values))
      ensures (o, States()) == Step(old(States()), f)
      ensures bytesRecv == old(bytesRecv) + 1
    {
      StatesHas(f.channel);
      StepElse(States(), f);
      bytesRecv := bytesRecv + 1;
      assert Valid() && States() == old(States());
      hide Valid, States, Step;
      if f.kind != ExpectedType(f.channel) && f.kind != 8 {
        o := Rejected;
      } else if f.kind == 1 {
        o := OnMethod(f);
      } else if f.kind == 2 {
        o := OnHeader(f);
      } else if f.kind == 3 {
        o := OnBody(f);
      } else {
        o := Pending;
      }
    }
  }

  /** Unexpected frames and heartbeats. */
  lemma StepElse(m: States, f: Frame)
    ensures f.kind == 8 || f.kind != Expected(StateOf(m, f.channel)) ==>
      Step(m, f) == (if f.kind == 8 then Pending else Rejected, SetState(m, f.channel, StateOf(m, f.channel)))
  {
  }
}
