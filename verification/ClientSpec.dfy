/** The client's signal handlers and the bits it puts on the wire. */
module ClientSpec {
  import opened Bits
  import opened Signals

  const MAX_INT: nat := 0x7FFF_FFFF

  datatype Handler = PingHandler | DataHandler
  datatype Status = Running | Success | Failure

  /** The t_server_state singleton, the installed handler, and how the process ended. */
  datatype ClientState = ClientState(
    serverPid: Pid,
    isReady: bool,
    readyToProceed: bool,
    transmissionActive: bool,
    currentClientPid: Pid,
    transmissionId: nat,
    handler: Handler,
    status: Status)

  /** The state that ping() sets up before its first signal. */
  function Fresh(server: Pid): ClientState {
    ClientState(server, false, false, false, 0, 0, PingHandler, Running)
  }

  /** A signal from `from` delivered to the running process `self`. */
  function Receive(c: ClientState, self: Pid, signal: Signal, from: Pid): ClientState {
    match c.handler
    case PingHandler =>
      if from == self then c.(status := Failure)
      else if c.serverPid != 0 && from != c.serverPid then c
      else if c.transmissionActive then c
      else c.(isReady := signal == SIGUSR1)
    case DataHandler =>
      if c.serverPid != 0 && from != c.serverPid then c
      else if signal == SIGUSR2 then c.(readyToProceed := true)
      else c.(status := Success)
  }

  /** With a known server, nothing but its own signals changes the client: under either handler a
      signal from anybody else leaves the state as it was. The one exception is a signal that the
      process sends itself while it is pinging, which ends it. */
  lemma OthersIgnored(c: ClientState, self: Pid, signal: Signal, from: Pid)
    requires c.serverPid != 0 && from != c.serverPid
    ensures Receive(c, self, signal, from)
         == if c.handler == PingHandler && from == self then c.(status := Failure) else c
  {
  }

  /** What one signal can do, and from whom: a running client takes a SIGUSR1 for the confirmation,
      and a SIGUSR2 for an acknowledgment, exactly when it transmits and the server sent it; the
      ready flag follows the server's last word while the client pings. */
  lemma OneSignal(c: ClientState, self: Pid, signal: Signal, from: Pid)
    requires c.status == Running && c.serverPid != 0
    ensures var r := Receive(c, self, signal, from);
            var heard := from == c.serverPid;
            && (r.status == Success <==> c.handler == DataHandler && heard && signal == SIGUSR1)
            && (r.status == Failure <==> c.handler == PingHandler && from == self)
            && (r.readyToProceed <==> c.readyToProceed || (c.handler == DataHandler && heard && signal == SIGUSR2))
            && r.isReady == (if c.handler == PingHandler && heard && from != self && !c.transmissionActive
                             then signal == SIGUSR1 else c.isReady)
            && r == c.(status := r.status, readyToProceed := r.readyToProceed, isReady := r.isReady)
  {
  }

  predicate IsTransmissionOwner(c: ClientState, self: Pid) {
    c.transmissionActive && c.currentClientPid == self
  }

  /** prepare_transmission: install the data handler and take the slot. */
  function Begin(c: ClientState, self: Pid): ClientState {
    c.(handler := DataHandler, transmissionActive := true, currentClientPid := self,
       transmissionId := c.transmissionId + 1)
  }

  /** What a client sends: its length in 32 bits, then eight bits per byte. */
  function Wire(msg: seq<byte>): (bits: seq<bool>)
    ensures |bits| == 32 + 8 * |msg|
  {
    ToBits(|msg|, 32) + TextBits(msg)
  }

  /** The wire determines the message. */
  lemma WireInjective(a: seq<byte>, b: seq<byte>)
    requires |a| <= MAX_INT && |b| <= MAX_INT && Wire(a) == Wire(b)
    ensures a == b
  {
    Pow2Word();
    assert Wire(a)[..32] == ToBits(|a|, 32) && Wire(b)[..32] == ToBits(|b|, 32);
    ToBitsInjective(|a|, |b|, 32);
    assert Wire(a)[32..] == TextBits(a) && Wire(b)[32..] == TextBits(b);
    TextBitsInjective(a, b);
  }
}
