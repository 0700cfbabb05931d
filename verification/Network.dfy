/** The whole system: any number of clients, one server, and the standard signals pending at each
    process. A signal raised while the same signal is pending is lost. */
module Network {
  import opened Bits
  import opened Signals
  import opened ServerSpec
  import C = ClientSpec

  /** Where a client's main thread is: pinging, about to send bit `sent`, or waiting for the
      acknowledgment of bit `sent - 1`. */
  datatype Pc = Pinging | Sending(sent: nat) | Waiting(sent: nat)

  datatype Client = Client(msg: seq<byte>, state: C.ClientState, pc: Pc, inbox: set<Signal>)

  datatype Net = Net(
    self: Pid,                    // the server's own pid
    server: ServerState,
    inbox: map<Signal, Pid>,      // pending at the server, with the sender of the pending instance
    clients: map<Pid, Client>,
    events: seq<Event>)           // everything the server has done so far

  datatype Step =
    | Ping(c: Pid)                // kill(server, SIGUSR1), first time or again
    | Begin(c: Pid)               // the ready flag is seen
    | SendBit(c: Pid)
    | Resume(c: Pid)              // the acknowledgment flag is seen
    | Deliver(c: Pid, signal: Signal)
    | Foreign(c: Pid, p: Pid, signal: Signal)   // a signal from a process other than the server reaches a client
    | Lose(c: Pid, signal: Signal)   // a reply to a client coalesces with another process's signal, and is lost
    | Exit(c: Pid)                // the process ends without success: timeout, retries used up, crash
    | Stray(p: Pid, signal: Signal)   // a signal to the server from a process that is no client
    | Handle(signal: Signal)      // the server's handler runs
    | Expire                      // the server's monitor gives the session up

  ghost predicate IsRunning(net: Net, c: Pid) {
    c in net.clients && net.clients[c].state.status == C.Running
  }

  /** What the processes themselves can do next. */
  ghost predicate Able(net: Net, step: Step) {
    match step
    case Ping(c) =>
      IsRunning(net, c) && net.clients[c].pc == Pinging
    case Begin(c) =>
      IsRunning(net, c) && net.clients[c].pc == Pinging && net.clients[c].state.isReady
    case SendBit(c) =>
      IsRunning(net, c) && net.clients[c].pc.Sending?
      && C.IsTransmissionOwner(net.clients[c].state, c)
      && net.clients[c].pc.sent < |C.Wire(net.clients[c].msg)|
    case Resume(c) =>
      IsRunning(net, c) && net.clients[c].pc.Waiting? && net.clients[c].state.readyToProceed
    case Deliver(c, signal) =>
      IsRunning(net, c) && signal in net.clients[c].inbox
    case Foreign(c, p, _) =>
      IsRunning(net, c) && p != net.self
    case Lose(c, signal) =>
      IsRunning(net, c) && signal in net.clients[c].inbox
    case Exit(c) =>
      IsRunning(net, c)
    case Stray(p, signal) =>
      p != 0 && p != net.self && p !in net.clients
    case Handle(signal) =>
      signal in net.inbox
    case Expire =>
      net.server.actualPid != 0
  }

  /** What the environment is assumed to bring about: the ready reply arrives, before the next retry,
      and the monitor's patience outlasts a client's, with all that is left of it. */
  ghost predicate Timely(net: Net, step: Step) {
    match step
    case Ping(c) =>
      c in net.clients ==> !net.clients[c].state.isReady && net.clients[c].inbox == {}
    case Lose(c, signal) =>
      c in net.clients && net.clients[c].pc == Pinging ==> signal != SIGUSR1
    case Expire =>
      net.server.actualPid in net.clients ==>
        !IsRunning(net, net.server.actualPid) && net.server.actualPid !in net.inbox.Values
    case _ => true
  }

  ghost predicate Enabled(net: Net, step: Step) {
    Able(net, step) && Timely(net, step)
  }

  function Raise(inbox: map<Signal, Pid>, signal: Signal, p: Pid): map<Signal, Pid> {
    if signal in inbox then inbox else inbox[signal := p]
  }

  ghost function SignalsTo(events: seq<Event>, p: Pid): set<Signal> {
    set e | e in events && e.Sent? && e.target == p :: e.signal
  }

  /** The clients after the server's events: signals reach the processes still running. */
  ghost function Delivered(clients: map<Pid, Client>, events: seq<Event>): map<Pid, Client> {
    map c | c in clients ::
      if clients[c].state.status == C.Running
      then clients[c].(inbox := clients[c].inbox + SignalsTo(events, c))
      else clients[c]
  }

  ghost function Update(net: Net, c: Pid, client: Client): Net {
    net.(clients := net.clients[c := client])
  }

  /** The server has handled the pending `signal` with outcome `r`. */
  ghost function Answered(net: Net, signal: Signal, r: Outcome): Net {
    net.(server := r.state, inbox := net.inbox - {signal},
         clients := Delivered(net.clients, r.events), events := net.events + r.events)
  }

  ghost function Apply(net: Net, step: Step): Net
    requires Valid(net.server) && Able(net, step)
  {
    hide C.Wire, C.Receive, HandleSignal, Valid, CleanGlobal;
    match step
    case Ping(c) =>
      net.(inbox := Raise(net.inbox, SIGUSR1, c))
    case Begin(c) =>
      Update(net, c, net.clients[c].(state := C.Begin(net.clients[c].state, c), pc := Sending(0)))
    case SendBit(c) =>
      var k := net.clients[c].pc.sent;
      Update(net, c, net.clients[c].(pc := Waiting(k + 1)))
        .(inbox := Raise(net.inbox, BitSignal(C.Wire(net.clients[c].msg)[k]), c))
    case Resume(c) =>
      var cl := net.clients[c];
      Update(net, c, cl.(state := cl.state.(readyToProceed := false), pc := Sending(cl.pc.sent)))
    case Deliver(c, signal) =>
      var cl := net.clients[c];
      Update(net, c, cl.(state := C.Receive(cl.state, c, signal, net.self), inbox := cl.inbox - {signal}))
    case Foreign(c, p, signal) =>
      var cl := net.clients[c];
      Update(net, c, cl.(state := C.Receive(cl.state, c, signal, p)))
    case Lose(c, signal) =>
      var cl := net.clients[c];
      Update(net, c, cl.(inbox := cl.inbox - {signal}))
    case Exit(c) =>
      var cl := net.clients[c];
      Update(net, c, cl.(state := cl.state.(status := C.Failure)))
    case Stray(p, signal) =>
      net.(inbox := Raise(net.inbox, signal, p))
    case Handle(signal) =>
      Answered(net, signal, HandleSignal(net.server, net.self, signal, net.inbox[signal]))
    case Expire =>
      net.(server := CleanGlobal(net.server).state)
  }

  ghost predicate Init(net: Net) {
    && net.self != 0 && net.server == IDLE && net.inbox == map[] && net.events == []
    && 0 !in net.clients && net.self !in net.clients
    && forall c :: c in net.clients ==>
         && 0 < |net.clients[c].msg| <= C.MAX_INT
         && net.clients[c] == Client(net.clients[c].msg, C.Fresh(net.self), Pinging, {})
  }

  // ----- the invariant, one client at a time -----

  /** What the rest of the system is to one client. */
  datatype View = View(
    client: Client,
    owned: bool,               // the server's session is this client's
    received: seq<bool>,       // the bits of that session
    flight: set<Signal>,       // this client's signals pending at the server
    texts: seq<seq<byte>>)     // the texts printed for this client

  /** The texts printed for `c`, oldest first. */
  ghost function Texts(events: seq<Event>, c: Pid): seq<seq<byte>> {
    if events == [] then []
    else (if events[0].Printed? && events[0].owner == c then [events[0].text] else []) + Texts(events[1..], c)
  }

  ghost function ViewOf(net: Net, c: Pid): View
    requires c in net.clients && Valid(net.server)
  {
    View(net.clients[c],
         net.server.actualPid == c,
         if net.server.actualPid == c then Received(net.server) else [],
         (set signal | signal in net.inbox && net.inbox[signal] == c),
         Texts(net.events, c))
  }

  ghost predicate Good(v: View, self: Pid, c: Pid) {
    && 0 < |v.client.msg| <= C.MAX_INT
    && v.client.state.serverPid == self
    && (v.client.pc == Pinging ==> GoodPinging(v))
    && (v.client.pc != Pinging ==>
          v.client.state.handler == C.DataHandler && C.IsTransmissionOwner(v.client.state, c))
    && (v.client.pc.Sending? ==> GoodSending(v, v.client.pc.sent))
    && (v.client.pc.Waiting? ==> GoodWaiting(v, v.client.pc.sent))
  }

  ghost predicate GoodPinging(v: View) {
    var cl := v.client;
    && cl.state.handler == C.PingHandler && !cl.state.transmissionActive && !cl.state.readyToProceed
    && cl.state.status != C.Success
    && v.texts == [] && v.flight <= {SIGUSR1}
    && (v.owned ==> v.received == [] && v.flight == {})
    && (cl.state.status == C.Running ==>
          if v.owned then cl.inbox == if cl.state.isReady then {} else {SIGUSR1}
          else !cl.state.isReady && SIGUSR1 !in cl.inbox && (v.flight != {} ==> cl.inbox == {}))
  }

  ghost predicate GoodSending(v: View, k: nat) {
    var cl := v.client;
    var wire := C.Wire(cl.msg);
    && k < |wire| && cl.state.status != C.Success
    && v.texts == [] && v.flight == {}
    && (v.owned ==> v.received == wire[..k])
    && (cl.state.status == C.Running ==> v.owned && cl.inbox == {} && !cl.state.readyToProceed)
  }

  ghost predicate GoodWaiting(v: View, k: nat) {
    0 < k <= |C.Wire(v.client.msg)| &&
    if v.owned then InFlight(v, k) || Acknowledged(v, k)
    else v.flight == {} && (Finished(v, k) || TooLong(v, k) || Abandoned(v))
  }

  /** The last bit is pending at the server, or was lost on the way. */
  ghost predicate InFlight(v: View, k: nat)
    requires 0 < k <= |C.Wire(v.client.msg)|
  {
    var cl := v.client;
    && v.received == C.Wire(cl.msg)[..k - 1] && v.texts == []
    && (v.flight == {} || v.flight == {BitSignal(C.Wire(cl.msg)[k - 1])})
    && cl.state.status != C.Success
    && (cl.state.status == C.Running ==> cl.inbox == {} && !cl.state.readyToProceed)
  }

  /** The last bit was received; its acknowledgment is pending, has arrived, or was lost. */
  ghost predicate Acknowledged(v: View, k: nat)
    requires 0 < k <= |C.Wire(v.client.msg)|
  {
    var cl := v.client;
    && k < |C.Wire(cl.msg)| && v.received == C.Wire(cl.msg)[..k] && v.texts == [] && v.flight == {}
    && cl.state.status != C.Success
    && (cl.state.status == C.Running ==> cl.inbox <= {SIGUSR2} && (cl.state.readyToProceed ==> cl.inbox == {}))
  }

  ghost predicate Finished(v: View, k: nat) {
    var cl := v.client;
    && k == |C.Wire(cl.msg)| && v.texts == [cl.msg]
    && (cl.state.status == C.Running ==> cl.inbox <= {SIGUSR1} && !cl.state.readyToProceed)
  }

  /** The header announced more than the server accepts: no reply ever comes. */
  ghost predicate TooLong(v: View, k: nat) {
    var cl := v.client;
    && k == HEADER_SIZE && |cl.msg| > MAX_MESSAGE && v.texts == []
    && cl.state.status != C.Success
    && (cl.state.status == C.Running ==> cl.inbox == {} && !cl.state.readyToProceed)
  }

  ghost predicate Abandoned(v: View) {
    v.client.state.status == C.Failure && v.texts == []
  }

  ghost predicate Inv(net: Net) {
    && net.self != 0 && 0 !in net.clients && net.self !in net.clients
    && Valid(net.server) && net.server.actualPid != net.self
    && (forall signal :: signal in net.inbox ==> net.inbox[signal] != 0 && net.inbox[signal] != net.self)
    && (forall c :: c in net.clients ==> Good(ViewOf(net, c), net.self, c))
  }
}
