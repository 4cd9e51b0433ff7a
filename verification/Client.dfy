/** The reading loop of a connection: a transport feeding a frame handler. */
module Client {
  import opened Octets
  import opened Frames
  import opened Transport
  import opened FrameHandler
  import opened Loopback

  /** What one `blocking_read` ends with: the handler's outcome, or what `read_frame` raised. */
  datatype ReadEnd = Handled(outcome: Outcome) | UnexpectedEnd | ReadRaised(raise: Raise)

  class Connection {
    const transport: SocketTransport
    const handler: Handler

    constructor (transport: SocketTransport, handler: Handler)
      ensures this.transport == transport && this.handler == handler
    {
      this.transport, this.handler := transport, handler;
    }

    /** Everything the handler has still to do for the octets on their way. */
    ghost function Future(): seq<Outcome>
      reads this, transport, transport.sock, handler, handler.partialMessages.Values
    {
      RunArrivals(handler.States(), Arrivals(Unread(transport.State()))).0
    }

    /** Bounds the reads that can still succeed. */
    ghost function Todo(): nat
      reads this, transport, transport.sock
    {
      |Unread(transport.State())|
    }

    /** One frame off the future, or a timeout that leaves the future as it is. */
    method BlockingRead() returns (r: ReadEnd)
      requires handler.Valid()
      modifies transport, transport.sock, handler, handler.partialMessages.Values
      ensures handler.Valid() && fresh(handler.partialMessages.Values - old(handler.partialMessages.Values))
      ensures match r
        case Handled(o) => old(Future()) == [o] + Future() && Todo() < old(Todo())
        case UnexpectedEnd => old(Future()) == [Rejected] + Future() && Todo() < old(Todo())
        case ReadRaised(raise) => raise == Timeout ==> Future() == old(Future())
      ensures match old(TakeFrame(transport.State(), transport.config)).0
        case FrameRaised(raise) => r == ReadRaised(raise) && handler.States() == old(handler.States())
        case Arrived(Bad) => r == UnexpectedEnd && handler.States() == old(handler.States())
        case Arrived(Good(f)) =>
          var (o, next) := old(Step(handler.States(), f)); r == Handled(o) && handler.States() == next
    {
      hide TakeFrame, ParseFrame, Unread, Step, RunArrivals, Await, Disconnects, Arrivals;
      ReadFrameConserves(transport.State(), transport.config);
      ghost var stream, states := Unread(transport.State()), handler.States();
      FutureStep(states, stream);
      var frame := transport.ReadFrame();
      assert handler.Valid() && handler.States() == states;
      match frame {
        case Arrived(Good(f)) =>
          ghost var rest := Unread(transport.State());
          var o := handler.OnFrame(f);
          assert Unread(transport.State()) == rest;
          r := Handled(o);
        case Arrived(Bad) =>
          r := UnexpectedEnd;
        case FrameRaised(raise) =>
          r := ReadRaised(raise);
      }
    }

    /** Reads until a callback has run, or something is raised. Of what was to come, exactly the outcomes in `log`
        have been taken: frames that only led to more waiting, then the one that ended the loop. */
    method DrainEvents() returns (r: ReadEnd, ghost log: seq<Outcome>)
      requires handler.Valid()
      modifies transport, transport.sock, handler, handler.partialMessages.Values
      ensures handler.Valid() && fresh(handler.partialMessages.Values - old(handler.partialMessages.Values))
      ensures r != Handled(Pending)
      ensures r.Handled? ==> old(Future()) == log + [r.outcome] + Future()
      ensures r.UnexpectedEnd? ==> old(Future()) == log + [Rejected] + Future()
      ensures r == ReadRaised(Timeout) ==> old(Future()) == log + Future()
      ensures forall o :: o in log ==> o == Pending
    {
      hide Connection.Future, Connection.Todo, Handler.Valid, Handler.States, SocketTransport.State, TakeFrame, Step;
      log := [];
      assert [] + Future() == Future();
      while true
        invariant handler.Valid() && fresh(handler.partialMessages.Values - old(handler.partialMessages.Values))
        invariant old(Future()) == log + Future()
        invariant forall o :: o in log ==> o == Pending
        decreases Todo()
      {
        ghost var before := Future();
        r := BlockingRead();
        if r != Handled(Pending) {
          if r.Handled? {
            assert log + ([r.outcome] + Future()) == log + [r.outcome] + Future();
          } else {
            assert log + ([Rejected] + Future()) == log + [Rejected] + Future();
          }
          return;
        }
        assert log + ([Pending] + Future()) == log + [Pending] + Future();
        log := log + [Pending];
      }
    }
  }

  /** What is still to come, one frame further. */
  lemma FutureStep(states: States, stream: seq<byte>)
    ensures var p, future := ParseFrame(stream), RunArrivals(states, Arrivals(stream)).0;
      && (p.Whole? ==>
            future == [Step(states, p.frame).0] + RunArrivals(Step(states, p.frame).1, Arrivals(p.rest)).0)
      && (p.BadEnd? ==> future == [Rejected] + RunArrivals(states, Arrivals(p.rest)).0)
  {
    hide Step;
    var p := ParseFrame(stream);
    if p.Whole? {
      assert ([Good(p.frame)] + Arrivals(p.rest))[1..] == Arrivals(p.rest);
    } else if p.BadEnd? {
      assert ([Bad] + Arrivals(p.rest))[1..] == Arrivals(p.rest);
    }
  }
}
