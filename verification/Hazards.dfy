/** What goes wrong when the environment is not as assumed: a ping repeated after the server has
    accepted, and a session given up while its client is still transmitting. */
module Hazards {
  import opened Bits
  import opened Signals
  import opened ServerSpec
  import opened Network
  import opened NetworkProofs
  import opened NetworkTheorems
  import C = ClientSpec

  // ----- what one signal too many makes of a message -----

  /** The wire of `msg` with a 0 in front of it, as far as the server listens, is the wire of this. */
  function Misread(msg: seq<byte>): (text: seq<byte>)
    requires |msg| >= 2
    ensures |text| == |msg| / 2
  {
    hide C.Wire, FromTextBits;
    FromTextBits(C.Wire(msg)[31..31 + 8 * (|msg| / 2)], |msg| / 2)
  }

  lemma HalfLength(n: nat)
    requires n < Pow2(32)
    ensures ToBits(n / 2, 32) == [false] + ToBits(n, 32)[..31]
  {
    HalfBound(n);
    hide Bit, ToBits, Pow2;
    var h, w := ToBits(n / 2, 32), ToBits(n, 32);
    TopBitClear(n / 2, 31);
    ToBitsAt(n / 2, 32, 0);
    forall j | 0 < j < 32 ensures h[j] == w[j - 1] {
      HalfBit(n, j);
    }
    ShiftedBy(h, w, 31);
  }

  lemma ShiftedBy(h: seq<bool>, w: seq<bool>, k: nat)
    requires |h| == k + 1 && k <= |w| && !h[0] && forall j :: 0 < j <= k ==> h[j] == w[j - 1]
    ensures h == [false] + w[..k]
  {
  }

  lemma HalfBound(n: nat)
    requires n < Pow2(32)
    ensures n / 2 < Pow2(31)
  {
  }

  lemma HalfBit(n: nat, j: nat)
    requires 0 < j < 32
    ensures ToBits(n / 2, 32)[j] == ToBits(n, 32)[j - 1]
  {
    hide ToBits;
    ToBitsAt(n / 2, 32, j);
    ToBitsAt(n, 32, j - 1);
    NextBitUp(n, 31 - j);
  }

  lemma NextBitUp(n: nat, i: nat)
    ensures Bit(n, i + 1) == Bit(n / 2, i)
  {
  }

  lemma {:induction false} TopBitClear(v: nat, i: nat)
    requires v < Pow2(i)
    ensures !Bit(v, i)
  {
    if i > 0 { TopBitClear(v / 2, i - 1); }
  }

  lemma MisreadWire(msg: seq<byte>)
    requires 2 <= |msg| <= C.MAX_INT
    ensures C.Wire(Misread(msg)) == [false] + C.Wire(msg)[..31 + 8 * (|msg| / 2)]
  {
    hide ToBits, TextBits, FromTextBits, C.Wire;
    var h := |msg| / 2;
    var wire := C.Wire(msg);
    Pow2Word();
    HalfLength(|msg|);
    FromTextBitsRead(wire[31..31 + 8 * h], h);
    WireParts(msg);
    WireParts(Misread(msg));
    Joined(wire, 31, 31 + 8 * h);
  }

  lemma WireParts(msg: seq<byte>)
    ensures C.Wire(msg) == ToBits(|msg|, 32) + TextBits(msg) && C.Wire(msg)[..31] == ToBits(|msg|, 32)[..31]
  {
    hide ToBits, TextBits;
  }

  lemma Joined(w: seq<bool>, i: nat, j: nat)
    requires i <= j <= |w|
    ensures ([false] + w[..i]) + w[i..j] == [false] + w[..j]
  {
  }

  // ----- one client's steps, the others standing still -----

  /** Nothing is pending at the server, and only `c` has moved since the start. */
  ghost predicate Still(start: Net, now: Net, c: Pid) {
    && c in start.clients && c != 0 && c != start.self && start.self != 0 && 0 !in start.clients
    && now.self == start.self && now.inbox == map[] && Valid(now.server)
    && c in now.clients && now.clients == start.clients[c := now.clients[c]]
    && now.clients[c].msg == start.clients[c].msg
  }

  ghost predicate Transmits(cl: Client, self: Pid, c: Pid) {
    && cl.state.status == C.Running && cl.state.handler == C.DataHandler && cl.state.serverPid == self
    && C.IsTransmissionOwner(cl.state, c)
  }

  /** The server handles the one signal pending. */
  lemma HandleOnly(start: Net, net: Net, c: Pid, signal: Signal)
    requires Still(start, net.(inbox := map[]), c) && net.inbox == map[signal := c]
    requires net.clients[c].state.status == C.Running
    ensures Able(net, Handle(signal))
    ensures var r := HandleSignal(net.server, net.self, signal, c);
      var net' := Apply(net, Handle(signal));
      && Still(start, net', c) && net'.server == r.state
      && net'.clients[c] == net.clients[c].(inbox := net.clients[c].inbox + SignalsTo(r.events, c))
      && Texts(net'.events, c) == Texts(net.events, c) + Texts(r.events, c)
  {
    hide HandleSignal, Valid, Received, Texts;
    var r := HandleSignal(net.server, net.self, signal, c);
    var net' := Apply(net, Handle(signal));
    HandleFramed(net.server, net.self, signal, c);
    TextsConcat(net.events, r.events, c);
    forall d | d in net.clients && d != c ensures net'.clients[d] == net.clients[d] {
      assert SignalsTo(r.events, d) == {};
    }
    assert net'.inbox == map[];
    assert net'.clients == start.clients[c := net'.clients[c]];
  }

  /** A bit goes out and is handled. */
  lemma BitThrough(start: Net, now: Net, c: Pid, k: nat)
    requires Still(start, now, c) && Transmits(now.clients[c], now.self, c)
    requires now.clients[c].pc == Sending(k) && k < |C.Wire(now.clients[c].msg)|
    ensures Able(now, SendBit(c))
    ensures var cl := now.clients[c];
      var signal := BitSignal(C.Wire(cl.msg)[k]);
      var sent := Apply(now, SendBit(c));
      && Valid(sent.server) && Able(sent, Handle(signal))
      && var r := HandleSignal(now.server, now.self, signal, c);
         var next := Apply(sent, Handle(signal));
         && Still(start, next, c) && next.server == r.state
         && next.clients[c] == cl.(pc := Waiting(k + 1), inbox := cl.inbox + SignalsTo(r.events, c))
         && Texts(next.events, c) == Texts(now.events, c) + Texts(r.events, c)
  {
    hide HandleSignal, Valid, Received, Texts, C.Wire, SignalsTo, Delivered;
    var signal := BitSignal(C.Wire(now.clients[c].msg)[k]);
    var sent := Apply(now, SendBit(c));
    assert sent.inbox == map[signal := c];
    assert sent.clients == start.clients[c := sent.clients[c]];
    HandleOnly(start, sent, c, signal);
  }

  /** An acknowledgment is delivered and taken. */
  lemma AckThrough(start: Net, now: Net, c: Pid, k: nat)
    requires Still(start, now, c) && Transmits(now.clients[c], now.self, c)
    requires now.clients[c].pc == Waiting(k) && now.clients[c].inbox == {SIGUSR2}
    ensures Able(now, Deliver(c, SIGUSR2)) && Able(Apply(now, Deliver(c, SIGUSR2)), Resume(c))
    ensures var next := Apply(Apply(now, Deliver(c, SIGUSR2)), Resume(c));
      && Still(start, next, c) && Transmits(next.clients[c], next.self, c)
      && next.clients[c].pc == Sending(k) && next.clients[c].inbox == {}
      && next.server == now.server && next.events == now.events
  {
    hide HandleSignal, Valid, C.Wire;
    var next := Apply(Apply(now, Deliver(c, SIGUSR2)), Resume(c));
    assert next.clients == start.clients[c := next.clients[c]];
  }

  /** A SIGUSR1 is the confirmation to a client that transmits. */
  lemma ConfirmationThrough(start: Net, now: Net, c: Pid)
    requires Still(start, now, c) && Transmits(now.clients[c], now.self, c) && now.clients[c].inbox == {SIGUSR1}
    ensures Able(now, Deliver(c, SIGUSR1))
    ensures var next := Apply(now, Deliver(c, SIGUSR1));
      c in next.clients && next.clients[c].state.status == C.Success && next.events == now.events
  {
    hide HandleSignal, Valid, C.Wire;
  }

  // ----- a ping repeated after acceptance -----

  /** Long enough that half of it is a message, short enough that the server accepts the half. */
  predicate Halvable(msg: seq<byte>) {
    2 <= |msg| <= 2 * MAX_MESSAGE + 1
  }

  /** The client is about to send its k-th bit, and the server has one more than that. */
  ghost predicate Ahead(start: Net, now: Net, c: Pid, k: nat) {
    && Still(start, now, c) && Transmits(now.clients[c], now.self, c)
    && now.clients[c].pc == Sending(k) && now.clients[c].inbox == {}
    && now.server.actualPid == c && Texts(now.events, c) == []
    && var msg := now.clients[c].msg;
       && Halvable(msg)
       && var wire := C.Wire(Misread(msg));
          k + 1 < |wire| && Received(now.server) == wire[..k + 1]
  }

  lemma ShiftedBit(msg: seq<byte>, k: nat)
    requires Halvable(msg) && k + 1 < |C.Wire(Misread(msg))|
    ensures k < |C.Wire(msg)| && C.Wire(Misread(msg))[k + 1] == C.Wire(msg)[k]
    ensures C.Wire(Misread(msg))[0] == false
  {
    hide C.Wire, Misread;
    MisreadWire(msg);
  }

  /** One more bit: an acknowledgment, or the end. */
  lemma BitAhead(start: Net, now: Net, c: Pid, k: nat)
    requires Ahead(start, now, c, k)
    ensures var text := Misread(now.clients[c].msg);
      && Able(now, SendBit(c))
      && var signal := BitSignal(C.Wire(now.clients[c].msg)[k]);
         var sent := Apply(now, SendBit(c));
         && Valid(sent.server) && Able(sent, Handle(signal))
         && var next := Apply(sent, Handle(signal));
            && Still(start, next, c) && Transmits(next.clients[c], next.self, c)
            && next.clients[c].pc == Waiting(k + 1)
            && (if k + 2 < |C.Wire(text)| then
                  && next.clients[c].inbox == {SIGUSR2} && next.server.actualPid == c
                  && Received(next.server) == C.Wire(text)[..k + 2] && Texts(next.events, c) == []
                else next.clients[c].inbox == {SIGUSR1} && Texts(next.events, c) == [text])
  {
    hide Still, HandleSignal, Received, Texts, C.Wire, SignalsTo, Able, Apply, Valid, Misread;
    StillParts(start, now, c);
    var msg := now.clients[c].msg;
    var text := Misread(msg);
    assert |text| == |msg| / 2;
    ShiftedBit(msg, k);
    BitThrough(start, now, c, k);
    BitAnswer(now.server, now.self, BitSignal(C.Wire(msg)[k]), text, k + 2);
    assert {} + {SIGUSR2} == {SIGUSR2} && {} + {SIGUSR1} == {SIGUSR1};
    var signal := BitSignal(C.Wire(msg)[k]);
    var next := Apply(Apply(now, SendBit(c)), Handle(signal));
    var r := HandleSignal(now.server, now.self, signal, c);
    StillParts(start, next, c);
    assert Transmits(next.clients[c], next.self, c);
    assert next.clients[c].inbox == {} + SignalsTo(r.events, c);
    assert Texts(next.events, c) == [] + Texts(r.events, c);
    if k + 2 < |C.Wire(text)| {
      assert next.clients[c].inbox == {SIGUSR2};
      assert Texts(next.events, c) == [];
    } else {
      assert next.clients[c].inbox == {SIGUSR1};
      assert Texts(next.events, c) == [text];
    }
  }

  lemma StillParts(start: Net, now: Net, c: Pid)
    requires Still(start, now, c)
    ensures Valid(now.server) && c != 0 && c != now.self && c in now.clients && now.self == start.self
    ensures c in start.clients && now.clients[c].msg == start.clients[c].msg && now.inbox == map[]
  {
  }

  /** The run goes on, a bit at a time, to the wrong text and the confirmation. */
  lemma {:induction false} RunOn(start: Net, steps: seq<Step>, c: Pid, k: nat) returns (all: seq<Step>)
    requires Feasible(start, steps) && Ahead(start, After(start, steps), c, k)
    ensures Feasible(start, all) && c in After(start, all).clients
    ensures var end := After(start, all);
      && end.clients[c].state.status == C.Success
      && Texts(end.events, c) == [Misread(start.clients[c].msg)]
    decreases |C.Wire(Misread(start.clients[c].msg))| - k
  {
    hide Still, Received, Texts, C.Wire, Able, Apply, Misread, Feasible, After, Transmits, Valid;
    var now := After(start, steps);
    StillParts(start, now, c);
    var signal := BitSignal(C.Wire(now.clients[c].msg)[k]) by { ShiftedBit(now.clients[c].msg, k); }
    BitAhead(start, now, c, k);
    Extend(start, steps, SendBit(c));
    var s1 := steps + [SendBit(c)];
    Extend(start, s1, Handle(signal));
    var s2 := s1 + [Handle(signal)];
    var next := After(start, s2);
    StillParts(start, next, c);
    if k + 2 < |C.Wire(Misread(now.clients[c].msg))| {
      AckThrough(start, next, c, k + 1);
      Extend(start, s2, Deliver(c, SIGUSR2));
      var s3 := s2 + [Deliver(c, SIGUSR2)];
      Extend(start, s3, Resume(c));
      var s4 := s3 + [Resume(c)];
      StillParts(start, After(start, s4), c);
      all := RunOn(start, s4, c, k + 1);
    } else {
      ConfirmationThrough(start, next, c);
      Extend(start, s2, Deliver(c, SIGUSR1));
      all := s2 + [Deliver(c, SIGUSR1)];
    }
  }

  ghost predicate Pings(cl: Client, self: Pid) {
    && cl.state.status == C.Running && cl.state.handler == C.PingHandler && cl.state.serverPid == self
    && cl.pc == Pinging && !cl.state.transmissionActive
  }

  /** A ping goes out and is handled. */
  lemma PingThrough(start: Net, now: Net, c: Pid)
    requires Still(start, now, c) && Pings(now.clients[c], now.self)
    ensures Able(now, Ping(c))
    ensures var cl := now.clients[c];
      var sent := Apply(now, Ping(c));
      && Valid(sent.server) && Able(sent, Handle(SIGUSR1))
      && var r := HandleSignal(now.server, now.self, SIGUSR1, c);
         var next := Apply(sent, Handle(SIGUSR1));
         && Still(start, next, c) && next.server == r.state
         && next.clients[c] == cl.(inbox := cl.inbox + SignalsTo(r.events, c))
         && Texts(next.events, c) == Texts(now.events, c) + Texts(r.events, c)
  {
    hide HandleSignal, Valid, Received, Texts, C.Wire, SignalsTo, Delivered;
    var sent := Apply(now, Ping(c));
    assert sent.inbox == map[SIGUSR1 := c];
    HandleOnly(start, sent, c, SIGUSR1);
  }

  /** A reply reaches a client that is pinging. */
  lemma ReplyThrough(start: Net, now: Net, c: Pid, signal: Signal)
    requires Still(start, now, c) && Pings(now.clients[c], now.self) && signal in now.clients[c].inbox
    ensures Able(now, Deliver(c, signal))
    ensures var next := Apply(now, Deliver(c, signal));
      && Still(start, next, c) && Pings(next.clients[c], next.self)
      && next.clients[c].state.isReady == (signal == SIGUSR1)
      && next.clients[c].inbox == now.clients[c].inbox - {signal}
      && next.server == now.server && next.events == now.events
  {
    hide HandleSignal, Valid, C.Wire;
    var next := Apply(now, Deliver(c, signal));
    assert next.clients == start.clients[c := next.clients[c]];
  }

  lemma BeginThrough(start: Net, now: Net, c: Pid)
    requires Still(start, now, c) && Pings(now.clients[c], now.self) && now.clients[c].state.isReady
    ensures Able(now, Begin(c))
    ensures var next := Apply(now, Begin(c));
      && Still(start, next, c) && Transmits(next.clients[c], next.self, c)
      && next.clients[c].pc == Sending(0) && next.clients[c].inbox == now.clients[c].inbox
      && next.server == now.server && next.events == now.events
  {
    hide HandleSignal, Valid, C.Wire;
    var next := Apply(now, Begin(c));
    assert next.clients == start.clients[c := next.clients[c]];
  }

  lemma StartsStill(start: Net, c: Pid)
    requires Init(start) && c in start.clients
    ensures Still(start, start, c) && Pings(start.clients[c], start.self)
    ensures Timely(start, Ping(c))
    ensures start.clients[c].inbox == {} && start.server == IDLE && Texts(start.events, c) == []
    ensures Feasible(start, []) && After(start, []) == start && Possible(start, [])
  {
    hide C.Wire;
    FreshStatesValid(0);
    assert start.clients == start.clients[c := start.clients[c]];
  }

  /** The first ping of a run, handled. */
  lemma FirstPing(start: Net, c: Pid)
    requires Init(start) && c in start.clients
    ensures var steps := [Ping(c), Handle(SIGUSR1)];
      && Possible(start, steps)
      && var now := After(start, steps);
         && Still(start, now, c) && Pings(now.clients[c], now.self) && now.clients[c].inbox == {SIGUSR1}
         && now.server.actualPid == c && Received(now.server) == [] && Texts(now.events, c) == []
  {
    hide Still, HandleSignal, Received, Texts, C.Wire, SignalsTo, Able, Apply, Valid, Feasible, Possible, After, Init,
         Timely, Pings;
    StartsStill(start, c);
    StillParts(start, start, c);
    PingThrough(start, start, c);
    PingAnswer(start.server, start.self, SIGUSR1, c);
    TwoSteps(start, Ping(c), SIGUSR1);
    var now := After(start, [Ping(c), Handle(SIGUSR1)]);
    StillParts(start, now, c);
    Joining(start.clients[c].inbox, {SIGUSR1});
    PingsOn(start.clients[c], {SIGUSR1}, start.self);
  }

  lemma Joining(inbox: set<Signal>, more: set<Signal>)
    ensures inbox == {} ==> inbox + more == more
  {
  }

  /** The first two steps of a run. */
  lemma TwoSteps(start: Net, step: Step, signal: Signal)
    requires Possible(start, []) && After(start, []) == start && Valid(start.server)
    requires Able(start, step) && Timely(start, step)
    requires Valid(Apply(start, step).server) && Able(Apply(start, step), Handle(signal))
    ensures Possible(start, [step, Handle(signal)])
    ensures After(start, [step, Handle(signal)]) == Apply(Apply(start, step), Handle(signal))
  {
    hide Able, Apply, Valid, Feasible, Possible, After, Timely;
    Extend(start, [], step);
    assert [] + [step] == [step];
    Extend(start, [step], Handle(signal));
    HandleTimely(After(start, [step]), signal);
    assert [step] + [Handle(signal)] == [step, Handle(signal)];
  }

  lemma HandleTimely(net: Net, signal: Signal)
    ensures Timely(net, Handle(signal))
  {
  }

  /** A second ping before the ready reply is delivered: the server takes it for a bit. */
  lemma SecondPing(start: Net, steps: seq<Step>, c: Pid) returns (all: seq<Step>)
    requires Feasible(start, steps)
    requires var now := After(start, steps);
      && Still(start, now, c) && Pings(now.clients[c], now.self) && now.clients[c].inbox == {SIGUSR1}
      && Halvable(now.clients[c].msg)
      && now.server.actualPid == c && Received(now.server) == [] && Texts(now.events, c) == []
    ensures Feasible(start, all) && Ahead(start, After(start, all), c, 0)
  {
    hide Still, HandleSignal, Received, Texts, C.Wire, SignalsTo, Able, Apply, Valid, Feasible, After, Misread, Pings, Transmits;
    var now := After(start, steps);
    StillParts(start, now, c);
    var text := Misread(now.clients[c].msg);
    ShiftedBit(now.clients[c].msg, 0);
    PingThrough(start, now, c);
    BitAnswer(now.server, now.self, SIGUSR1, text, 1);
    Extend(start, steps, Ping(c));
    var s1 := steps + [Ping(c)];
    Extend(start, s1, Handle(SIGUSR1));
    var s2 := s1 + [Handle(SIGUSR1)];
    StillParts(start, After(start, s2), c);
    assert {SIGUSR1} + {SIGUSR2} == {SIGUSR1, SIGUSR2} && {SIGUSR1, SIGUSR2} - {SIGUSR2} == {SIGUSR1};
    PingsOn(now.clients[c], {SIGUSR1, SIGUSR2}, now.self);
    ReplyThrough(start, After(start, s2), c, SIGUSR2);
    Extend(start, s2, Deliver(c, SIGUSR2));
    var s3 := s2 + [Deliver(c, SIGUSR2)];
    StillParts(start, After(start, s3), c);
    ReplyThrough(start, After(start, s3), c, SIGUSR1);
    Extend(start, s3, Deliver(c, SIGUSR1));
    var s4 := s3 + [Deliver(c, SIGUSR1)];
    StillParts(start, After(start, s4), c);
    BeginThrough(start, After(start, s4), c);
    Extend(start, s4, Begin(c));
    all := s4 + [Begin(c)];
    StillParts(start, After(start, all), c);
  }

  lemma PingsOn(cl: Client, inbox: set<Signal>, self: Pid)
    requires Pings(cl, self)
    ensures Pings(cl.(inbox := inbox), self)
  {
  }

  /** A ping repeated after acceptance: for every message whose half the server accepts, there is a
      run in which the client reports success and the server has printed another text. */
  lemma RepeatedPingMisprints(start: Net, c: Pid) returns (steps: seq<Step>)
    requires Init(start) && c in start.clients && Halvable(start.clients[c].msg)
    ensures Feasible(start, steps) && c in After(start, steps).clients
    ensures var end := After(start, steps);
      var msg := start.clients[c].msg;
      && end.clients[c].state.status == C.Success
      && Texts(end.events, c) == [Misread(msg)] && Misread(msg) != msg
  {
    hide Still, Received, Texts, C.Wire, Feasible, After, Possible, Ahead, Init, Pings;
    FirstPing(start, c);
    steps := [Ping(c), Handle(SIGUSR1)];
    StillParts(start, After(start, steps), c);
    steps := SecondPing(start, steps, c);
    steps := RunOn(start, steps, c, 0);
  }

  // ----- a session given up too early -----

  /** The monitor gives up a session whose client is about to send a bit, with nothing pending at
      the server: the bit is taken for a ping, the ready reply for the confirmation, and nothing
      was printed. */
  lemma EarlyExpiry(net: Net, steps: seq<Step>, c: Pid) returns (all: seq<Step>)
    requires Possible(net, steps) && c in net.clients
    requires var now := After(net, steps);
      now.inbox == map[] && now.clients[c].state.status == C.Running && now.clients[c].pc.Sending?
    ensures Feasible(net, all) && steps < all && c in After(net, all).clients
    ensures var end := After(net, all);
      end.clients[c].state.status == C.Success && Texts(end.events, c) == []
  {
    hide Received, Texts, C.Wire, Feasible, After, Possible, HandleSignal, SignalsTo, Valid, LowZero,
         Still, Good, Able, Apply, Inv, Transmits, Delivered;
    RunKeeps(net, steps);
    var now := After(net, steps);
    Transmitting(now, c);
    ExpireThrough(now, c);
    var k := now.clients[c].pc.sent;
    var signal := BitSignal(C.Wire(now.clients[c].msg)[k]);
    Extend(net, steps, Expire);
    var s1 := steps + [Expire];
    var idle := After(net, s1);
    StillParts(now, idle, c);
    BitThrough(now, idle, c, k);
    PingAnswer(IDLE, idle.self, signal, c);
    Extend(net, s1, SendBit(c));
    var s2 := s1 + [SendBit(c)];
    Extend(net, s2, Handle(signal));
    var s3 := s2 + [Handle(signal)];
    var next := After(net, s3);
    StillParts(now, next, c);
    assert {} + {SIGUSR1} == {SIGUSR1};
    TransmitsOn(now.clients[c], next.clients[c], now.self, c);
    ConfirmationThrough(now, next, c);
    Extend(net, s3, Deliver(c, SIGUSR1));
    all := s3 + [Deliver(c, SIGUSR1)];
  }

  /** A client about to send a bit. */
  lemma Transmitting(now: Net, c: Pid)
    requires Inv(now) && now.inbox == map[] && c in now.clients
    requires now.clients[c].state.status == C.Running && now.clients[c].pc.Sending?
    ensures Still(now, now, c) && Transmits(now.clients[c], now.self, c) && now.clients[c].inbox == {}
    ensures now.server.actualPid == c && Texts(now.events, c) == []
    ensures now.clients[c].pc.sent < |C.Wire(now.clients[c].msg)|
  {
    hide Received, Texts, C.Wire, Valid;
    assert Good(ViewOf(now, c), now.self, c);
    assert now.clients == now.clients[c := now.clients[c]];
  }

  lemma ExpireThrough(now: Net, c: Pid)
    requires Still(now, now, c) && now.server.actualPid == c
    ensures Able(now, Expire)
    ensures var idle := Apply(now, Expire);
      Still(now, idle, c) && idle.server == IDLE && idle.clients == now.clients && idle.events == now.events
  {
    FreshStatesValid(0);
    hide Valid, C.Wire, HandleSignal;
  }

  lemma TransmitsOn(cl: Client, cl': Client, self: Pid, c: Pid)
    requires Transmits(cl, self, c) && cl'.state == cl.state
    ensures Transmits(cl', self, c)
  {
  }

  /** Such a moment comes in every system with a client. */
  lemma EarlyExpiryMisreports(start: Net, c: Pid) returns (steps: seq<Step>)
    requires Init(start) && c in start.clients
    ensures Feasible(start, steps) && c in After(start, steps).clients
    ensures var end := After(start, steps);
      end.clients[c].state.status == C.Success && Texts(end.events, c) == []
  {
    hide Received, Texts, C.Wire, Feasible, After, Possible, Init, Still, Pings, Able, Apply, Transmits;
    FirstPing(start, c);
    steps := [Ping(c), Handle(SIGUSR1)];
    StillParts(start, After(start, steps), c);
    ReplyThrough(start, After(start, steps), c, SIGUSR1);
    Extend(start, steps, Deliver(c, SIGUSR1));
    steps := steps + [Deliver(c, SIGUSR1)];
    StillParts(start, After(start, steps), c);
    BeginThrough(start, After(start, steps), c);
    Extend(start, steps, Begin(c));
    steps := steps + [Begin(c)];
    StillParts(start, After(start, steps), c);
    TransmitsParts(After(start, steps).clients[c], start.self, c);
    steps := EarlyExpiry(start, steps, c);
  }

  lemma TransmitsParts(cl: Client, self: Pid, c: Pid)
    requires Transmits(cl, self, c)
    ensures cl.state.status == C.Running
  {
  }
}
