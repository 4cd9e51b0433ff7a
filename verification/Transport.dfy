/** Reading frames from a socket that fragments, interrupts and times out. */
module Transport {
  import opened Octets
  import opened Frames

  const SIGNED_INT_MAX := 0x7FFF_FFFF

  datatype Errno = EAGAIN | EINTR | ENOENT | EWOULDBLOCK | ECONNRESET

  /** What one `recv` will bring. The empty chunk is the peer closing the connection. */
  datatype Event =
    | Chunk(data: seq<byte>)
    | TimedOut            // socket.timeout
    | SslTimedOut         // SSLError 'timed out'
    | Failed(errno: Errno)

  /** What is raised by a read. */
  datatype Raise = Timeout | SslTimeout | HungUp | OsError(errno: Errno)

  /** The error numbers a transport retries on, `raise_on_initial_eintr`, and `os.name == 'nt'`. */
  datatype Config = Config(retried: set<Errno>, raiseOnInitialEintr: bool, nt: bool)

  const TCP_RETRIED: set<Errno> := {EAGAIN, EINTR}
  const SSL_RETRIED: set<Errno> := {ENOENT, EAGAIN, EINTR}
  const UNAVAILABLE: set<Errno> := {EAGAIN, EINTR, ENOENT, EWOULDBLOCK}

  /** The octets read ahead, and what the socket is still to bring. */
  datatype Line = Line(buffer: seq<byte>, events: seq<Event>)

  function Stream(events: seq<Event>): seq<byte> {
    if events == [] then []
    else (if events[0].Chunk? then events[0].data else []) + Stream(events[1..])
  }

  /** Everything not yet handed to the caller. */
  function Unread(line: Line): seq<byte> {
    line.buffer + Stream(line.events)
  }

  /** Decreases with every `recv`. */
  function Weight(events: seq<Event>): nat {
    if events == [] then 0 else 1 + (if events[0].Chunk? then |events[0].data| else 0) + Weight(events[1..])
  }

  // ---------------------------------------------------------------- one recv

  /** `recv(n)`: a socket with nothing more to bring times out for ever. */
  function Recv(events: seq<Event>, n: nat): (r: (Event, seq<Event>))
    requires n > 0
    ensures events != [] ==> Weight(r.1) < Weight(events)
    ensures events == [] ==> r == (TimedOut, [])
    ensures r.0.Chunk? ==> |r.0.data| <= n
  {
    if events == [] then (TimedOut, [])
    else if events[0].Chunk? && |events[0].data| > n then
      (Chunk(events[0].data[..n]), [Chunk(events[0].data[n..])] + events[1..])
    else (events[0], events[1..])
  }

  lemma RecvStream(events: seq<Event>, n: nat)
    requires n > 0
    ensures var (e, rest) := Recv(events, n);
      Stream(events) == (if e.Chunk? then e.data else []) + Stream(rest)
  {
    if events != [] && events[0].Chunk? && |events[0].data| > n {
      var d, rest := events[0].data, [Chunk(events[0].data[n..])] + events[1..];
      assert rest[1..] == events[1..];
      assert d == d[..n] + d[n..];
    }
  }

  // ---------------------------------------------------------------- _read

  datatype ReadOutcome = Got(data: seq<byte>) | Raised(raise: Raise)

  /** `_read(n, initial)`. */
  function TakeOctets(line: Line, config: Config, n: nat, initial: bool): (r: (ReadOutcome, Line))
    ensures r.0.Got? ==> |r.0.data| == n
    decreases Weight(line.events)
  {
    if |line.buffer| >= n then (Got(line.buffer[..n]), Line(line.buffer[n..], line.events))
    else if line.events == [] then (Raised(Timeout), line)
    else
      var (e, rest) := Recv(line.events, n - |line.buffer|);
      match e
      case Chunk(d) =>
        if d == [] then (Raised(HungUp), Line(line.buffer, rest))
        else TakeOctets(Line(line.buffer + d, rest), config, n, initial)
      case TimedOut => (Raised(Timeout), Line(line.buffer, rest))
      case SslTimedOut => (Raised(SslTimeout), Line(line.buffer, rest))
      case Failed(errno) =>
        if errno !in config.retried then (Raised(OsError(errno)), Line(line.buffer, rest))
        else if initial && config.raiseOnInitialEintr then (Raised(Timeout), Line(line.buffer, rest))
        else TakeOctets(Line(line.buffer, rest), config, n, initial)
  }

  /** A read takes octets off the front of the unread stream, or raises and takes none. */
  lemma {:induction false} ReadConserves(line: Line, config: Config, n: nat, initial: bool)
    ensures var (r, after) := TakeOctets(line, config, n, initial);
      && (r.Got? ==> |r.data| == n && r.data + Unread(after) == Unread(line))
      && (r.Raised? ==> Unread(after) == Unread(line) && |after.buffer| < n)
      && Weight(after.events) <= Weight(line.events)
      && (r.Raised? && line.events != [] ==> Weight(after.events) < Weight(line.events))
    decreases Weight(line.events)
  {
    hide Unread, Stream, Weight, Recv;
    if |line.buffer| >= n {
      UnreadTaken(line, n);
    } else if line.events != [] {
      var (e, rest) := Recv(line.events, n - |line.buffer|);
      UnreadReceived(line, n - |line.buffer|);
      if e.Chunk? && e.data != [] {
        ReadConserves(Line(line.buffer + e.data, rest), config, n, initial);
      } else {
        ReadConserves(Line(line.buffer, rest), config, n, initial);
      }
    }
  }

  lemma UnreadTaken(line: Line, n: nat)
    requires n <= |line.buffer|
    ensures line.buffer[..n] + Unread(Line(line.buffer[n..], line.events)) == Unread(line)
  {
    assert line.buffer == line.buffer[..n] + line.buffer[n..];
  }

  lemma UnreadReceived(line: Line, n: nat)
    requires n > 0
    ensures var (e, rest) := Recv(line.events, n);
      Unread(Line(if e.Chunk? then line.buffer + e.data else line.buffer, rest)) == Unread(line)
    ensures var (e, rest) := Recv(line.events, n);
      e == Chunk([]) ==> Unread(Line(line.buffer, rest)) == Unread(line)
  {
    hide Recv, Stream;
    RecvStream(line.events, n);
    var (e, rest) := Recv(line.events, n);
    assert [] + Stream(rest) == Stream(rest);
    if e.Chunk? {
      assert line.buffer + (e.data + Stream(rest)) == line.buffer + e.data + Stream(rest);
    }
  }

  // ---------------------------------------------------------------- read_frame

  datatype FrameOutcome = Arrived(arrival: Arrival) | FrameRaised(raise: Raise)

  /** The errors after which what was consumed goes back into the buffer, and which become timeouts. */
  predicate PushesBack(config: Config, raise: Raise) {
    raise == Timeout || raise == SslTimeout || (config.nt && raise == OsError(EWOULDBLOCK))
  }

  function GiveUp(config: Config, raise: Raise, consumed: seq<byte>, line: Line): (FrameOutcome, Line) {
    if PushesBack(config, raise) then (FrameRaised(Timeout), Line(consumed + line.buffer, line.events))
    else (FrameRaised(raise), line)
  }

  /** The payload, in two reads if its size does not fit a signed int; if it raises, also what the first read took. */
  function TakePayload(line: Line, config: Config, size: nat): (ReadOutcome, seq<byte>, Line) {
    if size <= SIGNED_INT_MAX then
      var (p, after) := TakeOctets(line, config, size, false);
      (p, [], after)
    else
      var (part1, between) := TakeOctets(line, config, SIGNED_INT_MAX, false);
      if part1.Raised? then (part1, [], between)
      else
        var (part2, after) := TakeOctets(between, config, size - SIGNED_INT_MAX, false);
        if part2.Raised? then (part2, part1.data, after) else (Got(part1.data + part2.data), [], after)
  }

  function TakeFrame(line: Line, config: Config): (FrameOutcome, Line) {
    var (header, l1) := TakeOctets(line, config, 7, true);
    if header.Raised? then GiveUp(config, header.raise, [], l1)
    else
      var (kind, channel, size) := FrameHeader(header.data);
      var (payload, part, l2) := TakePayload(l1, config, size);
      if payload.Raised? then GiveUp(config, payload.raise, header.data + part, l2)
      else
        var (end, l3) := TakeOctets(l2, config, 1, false);
        if end.Raised? then GiveUp(config, end.raise, header.data + payload.data, l3)
        else (Arrived(if end.data == [FRAME_END] then Good(Frame(kind, channel, payload.data)) else Bad), l3)
  }

  lemma PayloadConserves(line: Line, config: Config, size: nat)
    ensures var (r, part, after) := TakePayload(line, config, size);
      && (r.Got? ==> |r.data| == size && r.data + Unread(after) == Unread(line))
      && (r.Raised? ==> part + Unread(after) == Unread(line) && |part + after.buffer| < size)
      && Weight(after.events) <= Weight(line.events)
      && (r.Raised? && line.events != [] ==> Weight(after.events) < Weight(line.events))
  {
    hide TakeOctets, Stream;
    if size <= SIGNED_INT_MAX {
      ReadConserves(line, config, size, false);
      var (_, part, after) := TakePayload(line, config, size);
      assert part + Unread(after) == Unread(after) && part + after.buffer == after.buffer;
    } else {
      ReadConserves(line, config, SIGNED_INT_MAX, false);
      var (part1, between) := TakeOctets(line, config, SIGNED_INT_MAX, false);
      if part1.Got? {
        ReadConserves(between, config, size - SIGNED_INT_MAX, false);
        var (part2, after) := TakeOctets(between, config, size - SIGNED_INT_MAX, false);
        if part2.Got? {
          assert part1.data + (part2.data + Unread(after)) == part1.data + part2.data + Unread(after);
        }
      } else {
        assert [] + Unread(between) == Unread(between) && [] + between.buffer == between.buffer;
      }
    }
  }

  /** What one call hands over is the first frame of the unread stream; a timeout hands over nothing and
      loses nothing, whatever had been consumed before it; any other error loses octets exactly if the
      whole frame header had been read. */
  predicate Conserved(line: Line, config: Config, r: FrameOutcome, after: Line) {
    match r
    case Arrived(Good(f)) => ParseFrame(Unread(line)) == Whole(f, Unread(after))
    case Arrived(Bad) => ParseFrame(Unread(line)) == BadEnd(Unread(after))
    case FrameRaised(Timeout) =>
      Unread(after) == Unread(line) && (line.events == [] ==> ParseFrame(Unread(line)) == Incomplete)
    case FrameRaised(_) => Unread(after) == Unread(line) <==> TakeOctets(line, config, 7, true).0.Raised?
  }

  /** Giving up before the whole frame has come, with `consumed` taken off the line so far. */
  lemma GivenUp(line: Line, config: Config, raise: Raise, consumed: seq<byte>, now: Line)
    requires consumed + Unread(now) == Unread(line)
    requires consumed == [] <==> TakeOctets(line, config, 7, true).0.Raised?
    requires line.events == [] ==> ParseFrame(Unread(line)) == Incomplete
    ensures var (r, after) := GiveUp(config, raise, consumed, now); Conserved(line, config, r, after)
  {
    hide TakeOctets, Stream, ParseFrame;
    assert consumed + (now.buffer + Stream(now.events)) == consumed + now.buffer + Stream(now.events);
    assert consumed != [] ==> |Unread(now)| < |Unread(line)|;
  }

  /** The header has come. */
  lemma HeaderTaken(line: Line, config: Config)
    requires TakeOctets(line, config, 7, true).0.Got?
    ensures var (header, l1) := TakeOctets(line, config, 7, true);
      var size := FrameHeader(header.data).2;
      var (payload, part, l2) := TakePayload(l1, config, size);
      && |Unread(line)| >= 7 && Unread(line)[..7] == header.data
      && (payload.Got? ==> |payload.data| == size && header.data + payload.data + Unread(l2) == Unread(line))
      && (payload.Raised? ==> header.data + part + Unread(l2) == Unread(line))
      && (payload.Raised? && line.events == [] ==> |Unread(line)| < 7 + size)
      && (line.events == [] ==> l2.events == [])
  {
    hide TakeOctets, TakePayload, Stream, Weight, FrameHeader;
    ReadConserves(line, config, 7, true);
    var (header, l1) := TakeOctets(line, config, 7, true);
    var size := FrameHeader(header.data).2;
    PayloadConserves(l1, config, size);
    var (payload, part, l2) := TakePayload(l1, config, size);
    Silent(line.events, l1.events);
    Silent(line.events, l2.events);
    if payload.Raised? {
      assert header.data + (part + Unread(l2)) == header.data + part + Unread(l2);
      assert line.events == [] ==> |part + Unread(l2)| < size;
    } else {
      assert header.data + (payload.data + Unread(l2)) == header.data + payload.data + Unread(l2);
    }
  }

  /** Header and payload have come. */
  lemma PayloadTaken(line: Line, config: Config, header: seq<byte>, payload: seq<byte>, l2: Line)
    requires TakeOctets(line, config, 7, true).0 == Got(header) && |header| == 7
    requires |payload| == FrameHeader(header).2 && header + payload + Unread(l2) == Unread(line)
    requires line.events == [] ==> l2.events == []
    ensures var (end, l3) := TakeOctets(l2, config, 1, false);
      var (r, after) := if end.Raised? then GiveUp(config, end.raise, header + payload, l3)
        else
          var (kind, channel, _) := FrameHeader(header);
          (Arrived(if end.data == [FRAME_END] then Good(Frame(kind, channel, payload)) else Bad), l3);
      Conserved(line, config, r, after)
  {
    hide TakeOctets, Stream, Weight, FrameHeader, ParseFrame, GiveUp;
    ReadConserves(l2, config, 1, false);
    var (end, l3) := TakeOctets(l2, config, 1, false);
    if end.Raised? {
      Silent(l2.events, l3.events);
      assert Unread(line)[..7] == header;
      if line.events == [] {
        ParseShort(Unread(line));
      }
      GivenUp(line, config, end.raise, header + payload, l3);
    } else {
      assert header + payload + (end.data + Unread(l3)) == header + (payload + (end.data + Unread(l3)));
      ParsePieces(header, payload, end.data, Unread(l3));
    }
  }

  lemma ReadFrameConserves(line: Line, config: Config)
    ensures var (r, after) := TakeFrame(line, config); Conserved(line, config, r, after)
  {
    hide TakeOctets, TakePayload, Stream, Weight, FrameHeader, ParseFrame, GiveUp, Conserved;
    ReadConserves(line, config, 7, true);
    var (header, l1) := TakeOctets(line, config, 7, true);
    if header.Raised? {
      Silent(line.events, l1.events);
      if line.events == [] {
        ParseShort(Unread(line));
      }
      assert [] + Unread(l1) == Unread(line);
      GivenUp(line, config, header.raise, [], l1);
    } else {
      HeaderTaken(line, config);
      var (payload, part, l2) := TakePayload(l1, config, FrameHeader(header.data).2);
      if payload.Raised? {
        if line.events == [] {
          ParseShort(Unread(line));
        }
        GivenUp(line, config, payload.raise, header.data + part, l2);
      } else {
        PayloadTaken(line, config, header.data, payload.data, l2);
      }
    }
  }

  /** Every call that raises has used up something the socket had to bring, if there was anything. */
  lemma FrameWeight(line: Line, config: Config)
    ensures var (r, after) := TakeFrame(line, config);
      && Weight(after.events) <= Weight(line.events)
      && (r.FrameRaised? && line.events != [] ==> Weight(after.events) < Weight(line.events))
  {
    hide TakeOctets, TakePayload, Stream, Weight, FrameHeader;
    ReadConserves(line, config, 7, true);
    var (header, l1) := TakeOctets(line, config, 7, true);
    Silent(line.events, l1.events);
    if header.Got? {
      var size := FrameHeader(header.data).2;
      PayloadConserves(l1, config, size);
      var (payload, _, l2) := TakePayload(l1, config, size);
      Silent(line.events, l2.events);
      ReadConserves(l2, config, 1, false);
    }
  }

  lemma Silent(events: seq<Event>, after: seq<Event>)
    requires Weight(after) <= Weight(events)
    ensures events == [] ==> after == [] && Stream(after) == []
    ensures events == [] ==> Stream(events) == []
    ensures (events != [] ==> Weight(events) > 0) && (after == [] ==> Weight(after) == 0)
  {
  }

  // ---------------------------------------------------------------- a simpler reader

  /** The frame that a stream begins with, good or bad, once it has all come. */
  function Come(s: seq<byte>): Option<Arrival> {
    var p := ParseFrame(s);
    if p.Whole? then Some(Good(p.frame)) else if p.BadEnd? then Some(Bad) else None
  }

  /** A reader that takes whatever comes, in one piece, until there is a frame; `s` has come so far. It ends with a
      timeout if nothing more comes, at a timeout of the socket, at EWOULDBLOCK on Windows, and, where that is
      wanted, at an error that would be retried while the frame header is not complete; with a closed connection if
      the peer has closed it; and with any other error as it is. */
  function Await(s: seq<byte>, events: seq<Event>, config: Config): FrameOutcome
    decreases |events|
  {
    var frame := Come(s);
    if frame.Some? then Arrived(frame.value)
    else if events == [] then FrameRaised(Timeout)
    else match events[0]
      case Chunk(d) => if d == [] then FrameRaised(HungUp) else Await(s + d, events[1..], config)
      case TimedOut => FrameRaised(Timeout)
      case SslTimedOut => FrameRaised(Timeout)
      case Failed(errno) =>
        if errno !in config.retried then
          FrameRaised(if config.nt && errno == EWOULDBLOCK then Timeout else OsError(errno))
        else if |s| < 7 && config.raiseOnInitialEintr then FrameRaised(Timeout)
        else Await(s, events[1..], config)
  }

  /** EAGAIN and EINTR, and for SSL also ENOENT, are passed over, unless they interrupt a frame header and that is to be
      raised. */
  lemma PassedOver(s: seq<byte>, errno: Errno, later: seq<Event>, ssl: bool, raiseOnInitialEintr: bool, nt: bool)
    requires Come(s).None? && (|s| >= 7 || !raiseOnInitialEintr)
    ensures var config := Config(if ssl then SSL_RETRIED else TCP_RETRIED, raiseOnInitialEintr, nt);
      errno == EAGAIN || errno == EINTR || (ssl && errno == ENOENT) ==>
        Await(s, [Failed(errno)] + later, config) == Await(s, later, config)
  {
    assert ([Failed(errno)] + later)[1..] == later;
  }

  /** What a frame is does not depend on what comes after it. */
  lemma ComeStays(s: seq<byte>, more: seq<byte>)
    requires Come(s).Some?
    ensures Come(s + more) == Come(s)
  {
    ParseExactly(s);
    ParseExactly(s + more);
    assert (s + more)[3..7] == s[3..7] && (s + more)[1..3] == s[1..3];
    hide Number, ParseFrame;
    var n := Number(s[3..7]);
    assert (s + more)[7..7 + n] == s[7..7 + n];
  }

  /** To take a piece of a chunk and then the rest is to take it whole. */
  lemma AwaitReceived(s: seq<byte>, events: seq<Event>, config: Config, n: nat)
    requires n > 0 && Come(s).None? && events != [] && Recv(events, n).0.Chunk? && Recv(events, n).0.data != []
    ensures var (e, rest) := Recv(events, n); Await(s, events, config) == Await(s + e.data, rest, config)
  {
    hide Come;
    var (e, rest) := Recv(events, n);
    var d := events[0].data;
    if |d| > n {
      assert d == d[..n] + d[n..] && s + (d[..n] + d[n..]) == s + d[..n] + d[n..];
      assert rest[1..] == events[1..] && rest[0] == Chunk(d[n..]);
      if Come(s + d[..n]).Some? {
        ComeStays(s + d[..n], d[n..]);
      }
    }
  }

  /** What a raise has become when it leaves `read_frame`. */
  function Turned(config: Config, raise: Raise): Raise {
    if raise == SslTimeout || (config.nt && raise == OsError(EWOULDBLOCK)) then Timeout else raise
  }

  /** No frame has come before the `n`-th octet behind `before`, and the header is read exactly if `initial`. */
  ghost predicate Awaiting(before: seq<byte>, n: nat, initial: bool) {
    forall t :: before <= t && |t| < |before| + n ==> Come(t) == None && (|t| < 7 <==> initial)
  }

  lemma {:induction false} TakeAwaits(before: seq<byte>, line: Line, config: Config, n: nat, initial: bool)
    requires Awaiting(before, n, initial)
    ensures var (r, after) := TakeOctets(line, config, n, initial);
      Await(before + line.buffer, line.events, config)
      == if r.Got? then Await(before + r.data + after.buffer, after.events, config)
         else FrameRaised(Turned(config, r.raise))
    decreases Weight(line.events)
  {
    hide Come, Weight, Recv;
    var s := before + line.buffer;
    if |line.buffer| >= n {
      assert s == before + line.buffer[..n] + line.buffer[n..];
    } else {
      assert before <= s && Come(s) == None;
      if line.events != [] {
        TakeAwaitsOne(before, line, config, n, initial);
        var (e, rest) := Recv(line.events, n - |line.buffer|);
        if e.Chunk? && e.data != [] {
          TakeAwaits(before, Line(line.buffer + e.data, rest), config, n, initial);
        } else if e.Failed? {
          TakeAwaits(before, Line(line.buffer, rest), config, n, initial);
        }
      }
    }
  }

  lemma TakeAwaitsOne(before: seq<byte>, line: Line, config: Config, n: nat, initial: bool)
    requires line.events != [] && |line.buffer| < n
    requires Come(before + line.buffer) == None && (|before + line.buffer| < 7 <==> initial)
    ensures var (e, rest) := Recv(line.events, n - |line.buffer|);
      var s := before + line.buffer;
      Await(s, line.events, config) ==
        if e == Chunk([]) then FrameRaised(HungUp)
        else if e.Chunk? then Await(before + (line.buffer + e.data), rest, config)
        else if !e.Failed? then FrameRaised(Timeout)
        else if e.errno !in config.retried then FrameRaised(Turned(config, OsError(e.errno)))
        else if initial && config.raiseOnInitialEintr then FrameRaised(Timeout)
        else Await(s, rest, config)
  {
    hide Come;
    var (e, rest) := Recv(line.events, n - |line.buffer|);
    if e.Chunk? && e.data != [] {
      AwaitReceived(before + line.buffer, line.events, config, n - |line.buffer|);
      assert before + line.buffer + e.data == before + (line.buffer + e.data);
    }
  }

  lemma HeaderAwaiting()
    ensures Awaiting([], 7, true)
  {
  }

  lemma RestAwaiting(header: seq<byte>, before: seq<byte>, n: nat)
    requires |header| == 7 && header <= before && |before| + n <= 8 + FrameHeader(header).2
    ensures Awaiting(before, n, false)
  {
    forall t | before <= t && |t| < |before| + n ensures Come(t) == None && |t| >= 7 {
      assert t[..7] == header;
      ParseShort(t);
    }
  }

  lemma PayloadAwaits(header: seq<byte>, line: Line, config: Config)
    requires |header| == 7
    ensures var (r, part, after) := TakePayload(line, config, FrameHeader(header).2);
      r.Got? ==> |r.data| == FrameHeader(header).2
    ensures var (r, part, after) := TakePayload(line, config, FrameHeader(header).2);
      Await(header + line.buffer, line.events, config)
      == if r.Got? then Await(header + r.data + after.buffer, after.events, config)
         else FrameRaised(Turned(config, r.raise))
  {
    hide Await, TakeOctets, Awaiting, FrameHeader, Turned;
    var size := FrameHeader(header).2;
    if size <= SIGNED_INT_MAX {
      RestAwaiting(header, header, size);
      TakeAwaits(header, line, config, size, false);
    } else {
      RestAwaiting(header, header, SIGNED_INT_MAX);
      TakeAwaits(header, line, config, SIGNED_INT_MAX, false);
      var (part1, between) := TakeOctets(line, config, SIGNED_INT_MAX, false);
      if part1.Got? {
        var before, left := header + part1.data, size - SIGNED_INT_MAX;
        RestAwaiting(header, before, left);
        TakeAwaits(before, between, config, left, false);
        var (part2, after) := TakeOctets(between, config, left, false);
        if part2.Got? {
          assert before + part2.data == header + (part1.data + part2.data);
        }
      }
    }
  }

  /** The reader with its buffers, its partial reads and its pushback ends as the simple one does. */
  lemma ReadsAsAwaited(line: Line, config: Config)
    ensures TakeFrame(line, config).0 == Await(line.buffer, line.events, config)
  {
    hide Await, TakeOctets, TakePayload, Awaiting, FrameHeader;
    HeaderAwaiting();
    TakeAwaits([], line, config, 7, true);
    assert [] + line.buffer == line.buffer;
    var (header, l1) := TakeOctets(line, config, 7, true);
    if header.Got? {
      assert [] + header.data == header.data;
      PayloadAwaits(header.data, l1, config);
      var (payload, part, l2) := TakePayload(l1, config, FrameHeader(header.data).2);
      if payload.Got? {
        EndAwaits(header.data, payload.data, l2, config);
      }
    }
  }

  lemma EndAwaits(header: seq<byte>, payload: seq<byte>, line: Line, config: Config)
    requires |header| == 7 && |payload| == FrameHeader(header).2
    ensures var (end, after) := TakeOctets(line, config, 1, false);
      Await(header + payload + line.buffer, line.events, config)
      == if end.Raised? then FrameRaised(Turned(config, end.raise))
         else Arrived(if end.data == [FRAME_END] then Good(Frame(FrameHeader(header).0, FrameHeader(header).1, payload))
                      else Bad)
  {
    hide TakeOctets, Awaiting, FrameHeader, Turned, Await;
    RestAwaiting(header, header + payload, 1);
    TakeAwaits(header + payload, line, config, 1, false);
    var (end, after) := TakeOctets(line, config, 1, false);
    if end.Got? {
      EndComes(header, payload, end.data, after.buffer, after.events, config);
    }
  }

  lemma EndComes(header: seq<byte>, payload: seq<byte>, end: seq<byte>, more: seq<byte>, events: seq<Event>,
                 config: Config)
    requires |header| == 7 && |payload| == FrameHeader(header).2 && |end| == 1
    ensures Await(header + payload + end + more, events, config)
         == Arrived(if end == [FRAME_END] then Good(Frame(FrameHeader(header).0, FrameHeader(header).1, payload))
                    else Bad)
  {
    hide FrameHeader, ParseFrame;
    ParsePieces(header, payload, end, more);
    assert header + payload + end + more == header + (payload + (end + more));
  }

  // ---------------------------------------------------------------- runs

  /** `calls` calls of `read_frame`, timeouts being retried and any other error ending the run. */
  datatype ReadRun = ReadRun(arrived: seq<Arrival>, ended: bool, line: Line)

  function ReadFrames(line: Line, config: Config, calls: nat): ReadRun
    decreases calls
  {
    if calls == 0 then ReadRun([], false, line)
    else
      var (r, after) := TakeFrame(line, config);
      match r
      case Arrived(a) => var run := ReadFrames(after, config, calls - 1); run.(arrived := [a] + run.arrived)
      case FrameRaised(Timeout) => ReadFrames(after, config, calls - 1)
      case FrameRaised(_) => ReadRun([], true, after)
  }

  /** However the stream is cut up and however often reads time out, what arrives is the beginning of the plain parse
      of the stream, and unless the run has ended what is left unread is exactly what lies behind those frames. */
  lemma {:induction false} RunIsPlainParse(line: Line, config: Config, calls: nat)
    ensures var run := ReadFrames(line, config, calls);
      && run.arrived <= Arrivals(Unread(line))
      && (!run.ended ==> Unread(run.line) == Remaining(Unread(line), |run.arrived|))
    decreases calls
  {
    hide TakeFrame, ParseFrame, Unread, Arrivals;
    if calls > 0 {
      ReadFrameConserves(line, config);
      var (r, after) := TakeFrame(line, config);
      RunIsPlainParse(after, config, calls - 1);
      if r.Arrived? {
        NextArrival(Unread(line), |ReadFrames(after, config, calls - 1).arrived|);
      }
    }
  }

  /** Nothing but data, interruptions and timeouts. */
  predicate Calm(events: seq<Event>, config: Config) {
    forall e :: e in events ==> CalmEvent(e, config)
  }

  predicate CalmEvent(e: Event, config: Config) {
    match e
    case Chunk(d) => d != []
    case Failed(errno) => errno in config.retried || (config.nt && errno == EWOULDBLOCK)
    case _ => true
  }

  lemma {:induction false} ReadCalm(line: Line, config: Config, n: nat, initial: bool)
    requires Calm(line.events, config)
    ensures var (r, after) := TakeOctets(line, config, n, initial);
      Calm(after.events, config) && (r.Raised? ==> PushesBack(config, r.raise))
    decreases Weight(line.events)
  {
    hide Weight;
    if |line.buffer| < n && line.events != [] {
      var (e, rest) := Recv(line.events, n - |line.buffer|);
      assert line.events[0] in line.events && CalmEvent(line.events[0], config);
      assert Calm(rest, config);
      if e.Chunk? {
        ReadCalm(Line(line.buffer + e.data, rest), config, n, initial);
      } else {
        ReadCalm(Line(line.buffer, rest), config, n, initial);
      }
    }
  }

  lemma FrameCalm(line: Line, config: Config)
    requires Calm(line.events, config)
    ensures var (r, after) := TakeFrame(line, config);
      Calm(after.events, config) && (r.FrameRaised? ==> r.raise == Timeout)
  {
    hide TakeOctets, FrameHeader, Calm;
    ReadCalm(line, config, 7, true);
    var (header, l1) := TakeOctets(line, config, 7, true);
    if header.Got? {
      var size := FrameHeader(header.data).2;
      if size > SIGNED_INT_MAX {
        ReadCalm(l1, config, SIGNED_INT_MAX, false);
        ReadCalm(TakeOctets(l1, config, SIGNED_INT_MAX, false).1, config, size - SIGNED_INT_MAX, false);
      } else {
        ReadCalm(l1, config, size, false);
      }
      ReadCalm(TakePayload(l1, config, size).2, config, 1, false);
    }
  }

  lemma {:induction false} RunCalm(line: Line, config: Config, calls: nat)
    requires Calm(line.events, config)
    ensures !ReadFrames(line, config, calls).ended
    decreases calls
  {
    hide TakeFrame, Calm;
    if calls > 0 {
      FrameCalm(line, config);
      RunCalm(TakeFrame(line, config).1, config, calls - 1);
    }
  }

  lemma {:induction false} RunEnough(line: Line, config: Config, calls: nat)
    requires !ReadFrames(line, config, calls).ended && calls >= Weight(line.events) + |Unread(line)|
    ensures ReadFrames(line, config, calls).arrived == Arrivals(Unread(line))
    decreases calls
  {
    hide TakeFrame, ParseFrame, Unread, Weight;
    ReadFrameConserves(line, config);
    FrameWeight(line, config);
    Silent(line.events, line.events);
    var (r, after) := TakeFrame(line, config);
    if line.events == [] && r.FrameRaised? {
      RunIsPlainParse(line, config, calls);
    } else if calls > 0 {
      RunEnough(after, config, calls - 1);
    }
  }

  /** With nothing but data, interruptions and timeouts, enough calls hand over exactly the frames of the stream. */
  lemma RunCompletes(line: Line, config: Config, calls: nat)
    requires Calm(line.events, config) && calls >= Weight(line.events) + |Unread(line)|
    ensures ReadFrames(line, config, calls).arrived == Arrivals(Unread(line))
  {
    RunCalm(line, config, calls);
    RunEnough(line, config, calls);
  }

  /** A TCP transport does not retry on ENOENT, nor take it for a broken connection. After it, if it follows a frame
      header, the header is gone for good and the reading goes on in the middle of the frame. */
  lemma HeaderLost(header: seq<byte>, later: seq<Event>, raiseOnInitialEintr: bool)
    requires |header| == 7
    ensures ENOENT in UNAVAILABLE
    ensures var config := Config(TCP_RETRIED, raiseOnInitialEintr, false);
      TakeFrame(Line([], [Chunk(header)] + ([Failed(ENOENT)] + later)), config)
         == (FrameRaised(OsError(ENOENT)), Line([], later))
  {
    var config, rest := Config(TCP_RETRIED, raiseOnInitialEintr, false), [Failed(ENOENT)] + later;
    var start, second := Line([], [Chunk(header)] + rest), Line([], rest);
    hide FrameHeader;
    assert rest[1..] == later && ([Chunk(header)] + rest)[1..] == rest;
    assert [] + header == header && header[..7] == header && header[7..] == [];
    assert TakeOctets(Line(header, rest), config, 7, true) == (Got(header), second);
    assert TakeOctets(start, config, 7, true) == (Got(header), second);
    assert TakeOctets(second, config, 0, false) == (Got([]), second);
    assert forall n: nat :: n > 0 ==>
      TakeOctets(second, config, n, false) == (Raised(OsError(ENOENT)), Line([], later));
  }

  // ---------------------------------------------------------------- the objects

  class Socket {
    var events: seq<Event>

    constructor (script: seq<Event>)
      ensures events == script
    {
      events := script;
    }

    method Receive(n: nat) returns (e: Event)
      requires n > 0
      modifies this
      ensures (e, events) == Recv(old(events), n)
    {
      var (event, rest) := Recv(events, n);
      e, events := event, rest;
    }
  }

  /** A TCP or SSL transport: they differ in the errors they retry on. */
  class SocketTransport {
    const config: Config
    const sock: Socket
    var readBuffer: seq<byte>
    var connected: bool

    constructor (config: Config, sock: Socket)
      ensures this.config == config && this.sock == sock && readBuffer == [] && connected
    {
      this.config, this.sock := config, sock;
      readBuffer, connected := [], true;
    }

    function State(): Line
      reads this, sock
    {
      Line(readBuffer, sock.events)
    }

    method Read(n: nat, initial: bool) returns (r: ReadOutcome)
      modifies this`readBuffer, sock
      ensures (r, State()) == TakeOctets(old(State()), config, n, initial)
    {
      var rbuf := readBuffer;
      while |rbuf| < n
        invariant readBuffer == old(readBuffer)
        invariant TakeOctets(Line(rbuf, sock.events), config, n, initial)
               == TakeOctets(old(State()), config, n, initial)
        decreases Weight(sock.events)
      {
        var e := sock.Receive(n - |rbuf|);
        match e {
          case Chunk(s) =>
            if s == [] {
              readBuffer := rbuf;
              return Raised(HungUp);
            }
            rbuf := rbuf + s;
          case TimedOut =>
            readBuffer := rbuf;
            return Raised(Timeout);
          case SslTimedOut =>
            readBuffer := rbuf;
            return Raised(SslTimeout);
          case Failed(errno) =>
            if errno !in config.retried {
              readBuffer := rbuf;
              return Raised(OsError(errno));
            }
            if initial && config.raiseOnInitialEintr {
              readBuffer := rbuf;
              return Raised(Timeout);
            }
        }
      }
      r := Got(rbuf[..n]);
      readBuffer := rbuf[n..];
    }

    /** The handlers of `read_frame`. */
    method GiveBack(consumed: seq<byte>, raise: Raise) returns (r: FrameOutcome)
      modifies this
      ensures (r, State()) == GiveUp(config, raise, consumed, old(State()))
      ensures connected <==> old(connected) && !Disconnects(r)
    {
      if PushesBack(config, raise) {
        readBuffer := consumed + readBuffer;
        return FrameRaised(Timeout);
      }
      if !(raise.OsError? && raise.errno in UNAVAILABLE) {
        connected := false;
      }
      r := FrameRaised(raise);
    }

    method ReadFrame() returns (r: FrameOutcome)
      modifies this, sock
      ensures (r, State()) == TakeFrame(old(State()), config)
      ensures r == Await(old(readBuffer), old(sock.events), config)
      ensures connected <==> old(connected) && !Disconnects(r)
    {
      ReadsAsAwaited(State(), config);
      hide TakeOctets, FrameHeader, Await;
      var header := Read(7, true);
      if header.Raised? {
        r := GiveBack([], header.raise);
        return;
      }
      var readFrameBuffer := header.data;
      var (frameType, channel, size) := FrameHeader(header.data);
      var payload: seq<byte>;
      if size > SIGNED_INT_MAX {
        var part1 := Read(SIGNED_INT_MAX, false);
        if part1.Raised? {
          r := GiveBack(readFrameBuffer + [], part1.raise);
          return;
        }
        var part2 := Read(size - SIGNED_INT_MAX, false);
        if part2.Raised? {
          r := GiveBack(readFrameBuffer + part1.data, part2.raise);
          return;
        }
        payload := part1.data + part2.data;
      } else {
        var whole := Read(size, false);
        if whole.Raised? {
          r := GiveBack(readFrameBuffer + [], whole.raise);
          return;
        }
        payload := whole.data;
      }
      var frameEnd := Read(1, false);
      if frameEnd.Raised? {
        r := GiveBack(readFrameBuffer + payload, frameEnd.raise);
        return;
      }
      r := Arrived(if frameEnd.data == [FRAME_END] then Good(Frame(frameType, channel, payload)) else Bad);
    }
  }

  /** The errors after which the transport no longer counts as connected: that the peer has closed the connection, and
      any that does not mean that there is nothing to be read just now. */
  predicate Disconnects(r: FrameOutcome) {
    r.FrameRaised? && r.raise != Timeout && !(r.raise.OsError? && r.raise.errno in UNAVAILABLE)
  }

  lemma DisconnectsExactly(line: Line, config: Config)
    ensures var r := TakeFrame(line, config).0;
      Disconnects(r) <==>
        r == FrameRaised(HungUp)
        || (r.FrameRaised? && r.raise.OsError? && r.raise.errno != EAGAIN && r.raise.errno != EINTR
            && r.raise.errno != ENOENT && r.raise.errno != EWOULDBLOCK)
  {
    ReadsAsAwaited(line, config);
    NeverSslTimeout(line.buffer, line.events, config);
    hide TakeFrame, Await;
  }

  lemma {:induction false} NeverSslTimeout(s: seq<byte>, events: seq<Event>, config: Config)
    ensures Await(s, events, config) != FrameRaised(SslTimeout)
    decreases |events|
  {
    hide Come;
    if Come(s).None? && events != [] {
      if events[0].Chunk? && events[0].data != [] {
        NeverSslTimeout(s + events[0].data, events[1..], config);
      } else {
        NeverSslTimeout(s, events[1..], config);
      }
    }
  }
}
