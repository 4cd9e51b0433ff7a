/** `heartbeat_tick`: how long the line can stay silent, and when a dead peer is given up. */
module Heartbeat {
  import opened Octets

  /** The heartbeat fields of a connection; `heartbeat` is the negotiated interval. */
  datatype Beat = Beat(
    heartbeat: real,
    bytesSent: nat, bytesRecv: nat,
    prevSent: Option<nat>, prevRecv: Option<nat>,
    lastSent: real, lastReceived: real)

  /** What the clock shows, each time a tick reads it. */
  datatype Readings = Readings(sent: real, received: real, now: real, after: real, check: real)

  predicate Ordered(t: Readings) {
    0.0 < t.sent <= t.received <= t.now <= t.after <= t.check
  }

  datatype TickResult = TickResult(beat: Beat, sends: bool, raises: bool)

  /** If the rate is wrong, 2 is used. */
  function Rate(rate: real): (r: real)
    ensures r > 0.0
  {
    if rate <= 0.0 then 2.0 else rate
  }

  function Tick(b: Beat, rate: real, t: Readings): TickResult {
    if b.heartbeat == 0.0 then TickResult(b, false, false)
    else
      var lastSent := if b.prevSent != Some(b.bytesSent) then t.sent else b.lastSent;
      var lastReceived := if b.prevRecv != Some(b.bytesRecv) then t.received else b.lastReceived;
      var sends := t.now > lastSent + b.heartbeat / Rate(rate);
      TickResult(
        b.(prevSent := Some(b.bytesSent), prevRecv := Some(b.bytesRecv),
           bytesSent := if sends then b.bytesSent + 1 else b.bytesSent,
           lastSent := if sends then t.after else lastSent, lastReceived := lastReceived),
        sends,
        lastReceived != 0.0 && lastReceived + 2.0 * b.heartbeat < t.check)
  }

  /** Without heartbeats a tick changes nothing, sends nothing and never raises. */
  lemma TickIdle(b: Beat, rate: real, t: Readings)
    requires b.heartbeat == 0.0
    ensures Tick(b, rate, t) == TickResult(b, false, false)
  {
  }

  /** A tick sends a heartbeat exactly if more than heartbeat / rate has passed since it, or the last tick that did,
      saw that something had been written; the heartbeat is a write like any other, and its time is taken down. */
  lemma TickSends(b: Beat, rate: real, t: Readings)
    requires b.heartbeat != 0.0
    ensures var r := Tick(b, rate, t);
      var seen := if b.prevSent == Some(b.bytesSent) then b.lastSent else t.sent;
      && (r.sends <==> t.now - seen > b.heartbeat / (if rate > 0.0 then rate else 2.0))
      && r.beat.prevSent == Some(b.bytesSent)
      && r.beat.bytesSent == b.bytesSent + (if r.sends then 1 else 0)
      && r.beat.lastSent == if r.sends then t.after else seen
  {
    hide Ordered;
  }

  /** It raises exactly if more than twice the interval has passed since it, or the last tick that did, saw that
      something had arrived; it never counts an arrival itself. */
  lemma TickRaises(b: Beat, rate: real, t: Readings)
    requires b.heartbeat != 0.0
    ensures var r := Tick(b, rate, t);
      var seen := if b.prevRecv == Some(b.bytesRecv) then b.lastReceived else t.received;
      && (r.raises <==> seen != 0.0 && t.check - seen > 2.0 * b.heartbeat)
      && r.beat.prevRecv == Some(b.bytesRecv) && r.beat.bytesRecv == b.bytesRecv && r.beat.lastReceived == seen
      && r.beat.heartbeat == b.heartbeat
  {
  }

  /** The connection's counters and the tick on them. */
  class Heartbeats {
    var heartbeat: real
    var bytesSent: nat
    var bytesRecv: nat
    var prevSent: Option<nat>
    var prevRecv: Option<nat>
    var lastHeartbeatSent: real
    var lastHeartbeatReceived: real

    constructor (heartbeat: real)
      ensures State() == Beat(heartbeat, 0, 0, None, None, 0.0, 0.0)
    {
      this.heartbeat := heartbeat;
      bytesSent, bytesRecv, prevSent, prevRecv := 0, 0, None, None;
      lastHeartbeatSent, lastHeartbeatReceived := 0.0, 0.0;
    }

    function State(): Beat
      reads this
    {
      Beat(heartbeat, bytesSent, bytesRecv, prevSent, prevRecv, lastHeartbeatSent, lastHeartbeatReceived)
    }

    /** Writing a heartbeat frame counts as a write like any other. */
    method SendHeartbeat()
      modifies this`bytesSent
      ensures bytesSent == old(bytesSent) + 1
    {
      bytesSent := bytesSent + 1;
    }

    /** Returns whether a heartbeat was sent and whether ConnectionForced is raised. */
    method HeartbeatTick(rate: real, t: Readings) returns (sends: bool, raises: bool)
      modifies this
      ensures TickResult(State(), sends, raises) == Tick(old(State()), rate, t)
    {
      sends, raises := false, false;
      if heartbeat == 0.0 {
        return;
      }
      var r := if rate <= 0.0 then 2.0 else rate;
      var sentNow, recvNow := bytesSent, bytesRecv;
      if prevSent == None || prevSent != Some(sentNow) {
        lastHeartbeatSent := t.sent;
      }
      if prevRecv == None || prevRecv != Some(recvNow) {
        lastHeartbeatReceived := t.received;
      }
      prevSent, prevRecv := Some(sentNow), Some(recvNow);
      if t.now > lastHeartbeatSent + heartbeat / r {
        SendHeartbeat();
        lastHeartbeatSent := t.after;
        sends := true;
      }
      raises := lastHeartbeatReceived != 0.0 && lastHeartbeatReceived + 2.0 * heartbeat < t.check;
    }
  }

  // ---------------------------------------------------------------- runs

  datatype Event = Wrote(at: real) | Received(at: real) | Ticked(t: Readings)

  function Start(e: Event): real {
    if e.Ticked? then e.t.sent else e.at
  }

  function End(e: Event): real {
    if e.Ticked? then e.t.check else e.at
  }

  /** A connection under observation: when the last event was, when the last tick began, and when last something
      was written or arrived. Before there is any, the first tick counts as a write and as an arrival. */
  datatype Watch = Watch(beat: Beat, time: real, tick: Option<real>, write: real, arrival: real, raised: bool)

  function Observe(w: Watch, rate: real, e: Event): Watch {
    match e
    case Wrote(at) => w.(beat := w.beat.(bytesSent := w.beat.bytesSent + 1), time := at, write := at)
    case Received(at) => w.(beat := w.beat.(bytesRecv := w.beat.bytesRecv + 1), time := at, arrival := at)
    case Ticked(t) =>
      var r := Tick(w.beat, rate, t);
      Watch(r.beat, t.check, Some(t.sent),
        if r.sends then t.now else if w.tick.None? then t.sent else w.write,
        if w.tick.None? then t.received else w.arrival,
        r.raises)
  }

  /** Events come in order, and ticks at most `d` apart: each ends within `d` of the beginning of the one before. */
  predicate Paced(w: Watch, e: Event, d: real) {
    && w.time <= Start(e) && (e.Ticked? ==> Ordered(e.t))
    && (w.tick.Some? ==> End(e) <= w.tick.value + d)
  }

  predicate PacedRun(w: Watch, rate: real, events: seq<Event>, d: real)
    decreases |events|
  {
    events == [] || (Paced(w, events[0], d) && PacedRun(Observe(w, rate, events[0]), rate, events[1..], d))
  }

  function Observed(w: Watch, rate: real, events: seq<Event>): Watch
    decreases |events|
  {
    if events == [] then w else Observed(Observe(w, rate, events[0]), rate, events[1..])
  }

  /** What a run keeps. With nothing written since the last tick, the timer was armed within `d` of the last
      write and has not run out; otherwise the last write is no older than the last tick. And likewise for what
      arrives. */
  predicate Inv(w: Watch, rate: real, d: real) {
    var b := w.beat;
    && b.heartbeat > 0.0 && w.write <= w.time && w.arrival <= w.time
    && (b.prevSent.Some? ==> b.prevSent.value <= b.bytesSent) && (b.prevRecv.Some? ==> b.prevRecv.value <= b.bytesRecv)
    && (w.tick.None? ==> b.prevSent.None? && b.prevRecv.None?)
    && (w.tick.Some? ==>
        && 0.0 < w.tick.value <= w.time
        && (b.prevSent != Some(b.bytesSent) ==> w.tick.value <= w.write)
        && (b.prevSent == Some(b.bytesSent) ==>
              b.lastSent <= w.write + d && w.tick.value <= b.lastSent + b.heartbeat / Rate(rate))
        && (b.prevRecv != Some(b.bytesRecv) ==> w.tick.value <= w.arrival)
        && (b.prevRecv == Some(b.bytesRecv) ==>
              && 0.0 < b.lastReceived && w.arrival <= b.lastReceived <= w.arrival + d
              && (!w.raised ==> w.tick.value <= b.lastReceived + 2.0 * b.heartbeat)))
  }

  lemma {:induction false} Kept(w: Watch, rate: real, events: seq<Event>, d: real)
    requires Inv(w, rate, d) && PacedRun(w, rate, events, d) && d >= 0.0
    ensures Inv(Observed(w, rate, events), rate, d)
    decreases |events|
  {
    if events != [] {
      KeptOnce(w, rate, events[0], d);
      Kept(Observe(w, rate, events[0]), rate, events[1..], d);
    }
  }

  lemma KeptOnce(w: Watch, rate: real, e: Event, d: real)
    requires Inv(w, rate, d) && Paced(w, e, d) && d >= 0.0
    ensures Inv(Observe(w, rate, e), rate, d)
  {
  }

  /** A connection at `time`, not yet ticked. */
  function Fresh(heartbeat: real, time: real): Watch {
    Watch(Beat(heartbeat, 0, 0, None, None, 0.0, 0.0), time, None, time, time, false)
  }

  /** With ticks at most `d` apart, the line is never silent for more than heartbeat / rate + 2d: at any moment up
      to the latest time for the next tick, the last write is no further back. */
  lemma SilenceBound(heartbeat: real, rate: real, start: real, events: seq<Event>, d: real, at: real)
    requires heartbeat > 0.0 && d >= 0.0 && PacedRun(Fresh(heartbeat, start), rate, events, d)
    ensures var w := Observed(Fresh(heartbeat, start), rate, events);
      w.tick.Some? && at <= w.tick.value + d ==>
        at - w.write <= heartbeat / (if rate > 0.0 then rate else 2.0) + 2.0 * d
  {
    Kept(Fresh(heartbeat, start), rate, events, d);
    SameInterval(Fresh(heartbeat, start), rate, events);
    assert heartbeat / Rate(rate) > 0.0;
  }

  lemma {:induction false} SameInterval(w: Watch, rate: real, events: seq<Event>)
    ensures Observed(w, rate, events).beat.heartbeat == w.beat.heartbeat
    decreases |events|
  {
    if events != [] {
      SameInterval(Observe(w, rate, events[0]), rate, events[1..]);
    }
  }

  /** A tick raises only when nothing has arrived for more than twice the interval... */
  lemma RaisesOnlyIfDead(heartbeat: real, rate: real, start: real, events: seq<Event>, d: real, t: Readings)
    requires heartbeat > 0.0 && d >= 0.0 && PacedRun(Fresh(heartbeat, start), rate, events, d)
    requires Paced(Observed(Fresh(heartbeat, start), rate, events), Ticked(t), d)
    ensures var w := Observed(Fresh(heartbeat, start), rate, events);
      Tick(w.beat, rate, t).raises ==> t.check - w.arrival > 2.0 * heartbeat
  {
    Kept(Fresh(heartbeat, start), rate, events, d);
    SameInterval(Fresh(heartbeat, start), rate, events);
  }

  /** ... and, with ticks at most `d` apart, as long as no tick raises something has arrived within 2 heartbeat + 2d:
      a peer dead for longer has been given up. */
  lemma DeadIsRaised(heartbeat: real, rate: real, start: real, events: seq<Event>, d: real, at: real)
    requires heartbeat > 0.0 && d >= 0.0 && PacedRun(Fresh(heartbeat, start), rate, events, d)
    ensures var w := Observed(Fresh(heartbeat, start), rate, events);
      w.tick.Some? && at <= w.tick.value + d && !w.raised ==> at - w.arrival <= 2.0 * heartbeat + 2.0 * d
  {
    Kept(Fresh(heartbeat, start), rate, events, d);
    SameInterval(Fresh(heartbeat, start), rate, events);
  }

  function Instant(at: real): Readings {
    Readings(at, at, at, at, at)
  }

  lemma Enough(x: real, d: real) returns (n: nat)
    requires x > 0.0 && d > 0.0
    ensures x <= n as real * d
  {
    var q := x / d;
    assert q * d == x && q > 0.0;
    n := q.Floor + 1;
    Product(n as real - q, d);
    assert n as real * d == (n as real - q) * d + q * d;
  }

  lemma Product(a: real, b: real)
    requires a >= 0.0 && b >= 0.0
    ensures a * b >= 0.0
  {
  }

  /** Ticks at most `d` apart, the last of them at `until`, with nothing else going on. Up to the moment a timer runs
      out, they do not send and do not raise. */
  lemma {:induction false} Ticks(w: Watch, rate: real, d: real, until: real, n: nat) returns (events: seq<Event>)
    requires 0.0 < w.time && w.tick == Some(w.time) && w.beat.heartbeat > 0.0 && d > 0.0
    requires w.time < until <= w.time + n as real * d
    ensures PacedRun(w, rate, events, d)
    ensures var end, b := Observed(w, rate, events), w.beat;
      && end.tick == Some(until)
      && (b.prevSent == Some(b.bytesSent) && until <= b.lastSent + b.heartbeat / Rate(rate) ==> end.write == w.write)
      && (b.prevRecv == Some(b.bytesRecv) && b.lastReceived != 0.0 && until <= b.lastReceived + 2.0 * b.heartbeat ==>
            end.arrival == w.arrival && !end.raised)
    decreases n
  {
    hide Tick;
    var last := until <= w.time + d;
    var e := Ticked(Instant(if last then until else w.time + d));
    var next := Observe(w, rate, e);
    TickOnce(w, rate, if last then until else w.time + d);
    var rest: seq<Event> := [];
    if !last {
      assert (n as real - 1.0) * d == n as real * d - d;
      assert n > 0 && (n - 1) as real == n as real - 1.0;
      rest := Ticks(next, rate, d, until, n - 1);
    }
    events := [e] + rest;
    assert events[1..] == rest;
  }

  lemma TickOnce(w: Watch, rate: real, at: real)
    requires 0.0 < w.time <= at && w.tick.Some? && w.beat.heartbeat > 0.0
    ensures var next, b := Observe(w, rate, Ticked(Instant(at))), w.beat;
      && next.time == at && next.tick == Some(at) && next.beat.heartbeat == b.heartbeat
      && (b.prevSent == Some(b.bytesSent) && at <= b.lastSent + b.heartbeat / Rate(rate) ==>
            && next.write == w.write && next.beat.lastSent == b.lastSent
            && next.beat.prevSent == Some(next.beat.bytesSent))
      && (b.prevRecv == Some(b.bytesRecv) ==>
            && next.beat.prevRecv == Some(next.beat.bytesRecv) && next.beat.lastReceived == b.lastReceived
            && next.arrival == w.arrival)
      && (b.prevRecv == Some(b.bytesRecv) && b.lastReceived != 0.0 && at <= b.lastReceived + 2.0 * b.heartbeat ==>
            !next.raised)
  {
  }

  /** Two ticks `d` apart, with a write and an arrival right after the first. */
  function Opening(d: real): seq<Event> {
    [Ticked(Instant(1.0)), Wrote(1.0), Received(1.0), Ticked(Instant(1.0 + d))]
  }

  lemma OpeningRun(heartbeat: real, rate: real, d: real)
    requires heartbeat > 0.0 && d > 0.0
    ensures PacedRun(Fresh(heartbeat, 0.0), rate, Opening(d), d)
    ensures Observed(Fresh(heartbeat, 0.0), rate, Opening(d))
         == Watch(Beat(heartbeat, 1, 1, Some(1), Some(1), 1.0 + d, 1.0 + d), 1.0 + d, Some(1.0 + d), 1.0, 1.0, false)
  {
    assert heartbeat / Rate(rate) > 0.0;
    var w1 := Observe(Fresh(heartbeat, 0.0), rate, Ticked(Instant(1.0)));
    var w2 := Observe(w1, rate, Wrote(1.0));
    var w3 := Observe(w2, rate, Received(1.0));
    var e2 := [Ticked(Instant(1.0 + d))];
    var e1 := [Received(1.0)] + e2;
    var e0 := [Wrote(1.0)] + e1;
    assert e2[1..] == [] && e1[1..] == e2 && e0[1..] == e1 && Opening(d)[1..] == e0;
    hide Tick;
    var w4 := Observe(w3, rate, Ticked(Instant(1.0 + d)));
    assert Observed(w3, rate, e2) == Observed(w4, rate, e2[1..]) == w4;
    assert PacedRun(w3, rate, e2, d) && Observed(w3, rate, e2) == w4;
    assert PacedRun(w2, rate, e1, d) && Observed(w2, rate, e1) == Observed(w3, rate, e2);
    assert PacedRun(w1, rate, e0, d) && Observed(w1, rate, e0) == Observed(w2, rate, e1);
  }

  lemma {:induction false} Continued(w: Watch, rate: real, a: seq<Event>, b: seq<Event>, d: real)
    requires PacedRun(w, rate, a, d) && PacedRun(Observed(w, rate, a), rate, b, d)
    ensures PacedRun(w, rate, a + b, d) && Observed(w, rate, a + b) == Observed(Observed(w, rate, a), rate, b)
    decreases |a|
  {
    if a == [] {
      assert a + b == b;
    } else {
      assert (a + b)[1..] == a[1..] + b;
      Continued(Observe(w, rate, a[0]), rate, a[1..], b, d);
    }
  }

  /** The silence bound is tight, whatever the interval, the rate and `d`: a tick that sees a write re-arms the timer,
      so the next heartbeat can come a whole heartbeat / rate + 2d after the write. */
  lemma SilenceReached(heartbeat: real, rate: real, d: real) returns (events: seq<Event>)
    requires heartbeat > 0.0 && d > 0.0
    ensures PacedRun(Fresh(heartbeat, 0.0), rate, events, d)
    ensures var w := Observed(Fresh(heartbeat, 0.0), rate, events);
      w.tick.Some? && w.tick.value + d - w.write == heartbeat / (if rate > 0.0 then rate else 2.0) + 2.0 * d
  {
    assert Rate(rate) == if rate > 0.0 then rate else 2.0;
    hide Observed, PacedRun, Rate;
    OpeningRun(heartbeat, rate, d);
    var w := Observed(Fresh(heartbeat, 0.0), rate, Opening(d));
    assert heartbeat / Rate(rate) > 0.0;
    var n := Enough(heartbeat / Rate(rate), d);
    var rest := Ticks(w, rate, d, w.time + heartbeat / Rate(rate), n);
    events := Opening(d) + rest;
    Continued(Fresh(heartbeat, 0.0), rate, Opening(d), rest, d);
  }

  /** So is the other: a dead peer may not have been given up 2 heartbeat + 2d after its last frame. */
  lemma DeadReached(heartbeat: real, rate: real, d: real) returns (events: seq<Event>)
    requires heartbeat > 0.0 && d > 0.0
    ensures PacedRun(Fresh(heartbeat, 0.0), rate, events, d)
    ensures var w := Observed(Fresh(heartbeat, 0.0), rate, events);
      w.tick.Some? && !w.raised && w.tick.value + d - w.arrival == 2.0 * heartbeat + 2.0 * d
  {
    hide Observed, PacedRun, Rate;
    OpeningRun(heartbeat, rate, d);
    var w := Observed(Fresh(heartbeat, 0.0), rate, Opening(d));
    var n := Enough(2.0 * heartbeat, d);
    var rest := Ticks(w, rate, d, w.time + 2.0 * heartbeat, n);
    events := Opening(d) + rest;
    Continued(Fresh(heartbeat, 0.0), rate, Opening(d), rest, d);
  }
}
