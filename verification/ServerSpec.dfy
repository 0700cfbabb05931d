/** Processes, signals and what a process does to the outside world. */
module Signals {
  import opened Bits

  datatype Signal = SIGUSR1 | SIGUSR2

  type Pid = nat

  datatype Event =
    | Sent(target: Pid, signal: Signal)              // kill(target, signal); target 0 is the own process group
    | Printed(owner: Pid, text: seq<byte>)           // print_message; `owner` is the session's client
    | Allocated(size: nat)                           // malloc
    | Freed                                          // free

  /** SIGUSR1 carries a 0, SIGUSR2 a 1. */
  function BitValue(signal: Signal): bool {
    signal == SIGUSR2
  }

  function BitSignal(bit: bool): Signal {
    if bit then SIGUSR2 else SIGUSR1
  }

  /** What happens inside the process: printing and heap traffic, without the signals sent. */
  function Internal(events: seq<Event>): seq<Event> {
    if events == [] then []
    else (if events[0].Sent? then [] else [events[0]]) + Internal(events[1..])
  }

  /** The signals that `target` is sent. */
  function SentTo(events: seq<Event>, target: Pid): seq<Event> {
    if events == [] then []
    else (if events[0].Sent? && events[0].target == target then [events[0]] else [])
         + SentTo(events[1..], target)
  }

  lemma {:induction false} InternalConcat(a: seq<Event>, b: seq<Event>)
    ensures Internal(a + b) == Internal(a) + Internal(b)
  {
    if a == [] {
      assert a + b == b;
    } else {
      assert (a + b)[1..] == a[1..] + b;
      InternalConcat(a[1..], b);
    }
  }

  lemma {:induction false} SentToConcat(a: seq<Event>, b: seq<Event>, target: Pid)
    ensures SentTo(a + b, target) == SentTo(a, target) + SentTo(b, target)
  {
    if a == [] {
      assert a + b == b;
    } else {
      assert (a + b)[1..] == a[1..] + b;
      SentToConcat(a[1..], b, target);
    }
  }
}

/** The server's signal handler as a function on the singleton's fields. */
module ServerSpec {
  import opened Bits
  import opened Signals

  const HEADER_SIZE: nat := 32
  const MAX_MESSAGE: nat := 10_000_000

  /** The heap block behind `msg.message`: its size, and the cells written so far. */
  datatype Buffer = NoBuffer | Buffer(capacity: nat, content: seq<byte>)

  datatype ServerState = ServerState(
    actualPid: Pid,
    clientPid: Pid,
    gettingHeader: bool,
    gettingMsg: bool,
    sigCount: nat,
    charValue: nat,
    msgPos: nat,
    clientActivity: bool,
    transmissionActive: bool,
    sizeMessage: nat,          // the 32-bit pattern of the signed field
    buffer: Buffer)

  datatype Outcome = Outcome(state: ServerState, events: seq<Event>)

  /** The state that get_client_instance and reset_client_state leave. */
  const IDLE: ServerState :=
    ServerState(0, 0, true, false, 0, 0, 0, false, false, 0, NoBuffer)

  /** The state that pong leaves after accepting `pid`. */
  function Accepted(pid: Pid): ServerState {
    ServerState(pid, pid, true, false, 0, 0, 0, true, true, 0, NoBuffer)
  }

  /** The session invariant: one mode at a time, a buffer exactly while a body is received. */
  ghost predicate Valid(s: ServerState) {
    && s.gettingHeader != s.gettingMsg
    && (s.gettingHeader ==> ValidHeader(s))
    && (s.gettingMsg ==> ValidBody(s))
    && (s.actualPid == 0 ==> s.gettingHeader && s.sigCount == 0)
    && (s.actualPid != 0 ==> s.transmissionActive && s.clientPid == s.actualPid)
  }

  ghost predicate ValidHeader(s: ServerState) {
    && s.buffer == NoBuffer
    && s.sigCount < HEADER_SIZE
    && s.charValue == 0 && s.msgPos == 0
    && s.sizeMessage < Pow2(HEADER_SIZE)
    && LowZero(s.sizeMessage, HEADER_SIZE - s.sigCount)
  }

  ghost predicate ValidBody(s: ServerState) {
    && 0 < s.sizeMessage <= MAX_MESSAGE
    && s.buffer.Buffer?
    && s.buffer.capacity == s.sizeMessage + 1
    && s.msgPos == s.sigCount / 8 < s.sizeMessage
    && |s.buffer.content| == s.msgPos
    && s.charValue < 256
    && (s.sigCount % 8 != 0 ==> LowZero(s.charValue, 8 - s.sigCount % 8))
  }

  lemma ZeroIsLow(n: nat)
    ensures LowZero(0, n)
  {
    forall j | 0 <= j < n ensures !Bit(0, j) { ZeroHasNoBits(j); }
  }

  lemma FreshStatesValid(pid: Pid)
    ensures Valid(IDLE) && Valid(Accepted(pid))
  {
    ZeroIsLow(HEADER_SIZE);
  }

  // ----- the handler and the functions it calls -----

  /** lost_signal: a missing sender is taken to be the current owner. */
  function Sender(s: ServerState, sender: Pid): Pid {
    if sender == 0 then s.actualPid else sender
  }

  function HandleSignal(s: ServerState, self: Pid, signal: Signal, from: Pid): (r: Outcome)
    requires Valid(s)
    ensures Valid(r.state)
  {
    var sender := Sender(s, from);
    if sender == self then
      Outcome(s, [])
    else if s.actualPid == 0 then
      Pong(s.(clientPid := sender), sender)
    else if s.actualPid != sender then
      Outcome(s, [Sent(sender, SIGUSR2)])
    else
      ProcessDataSignal(s.(clientPid := sender, clientActivity := true), signal)
  }

  predicate IsServerBusy(s: ServerState) {
    s.transmissionActive && s.actualPid > 0
  }

  function Pong(s: ServerState, pid: Pid): (r: Outcome)
    ensures !IsServerBusy(s) || s.actualPid == pid ==> Valid(r.state)
  {
    if IsServerBusy(s) && s.actualPid != pid then
      Outcome(s, [Sent(pid, SIGUSR2)])
    else
      FreshStatesValid(pid);
      Outcome(Accepted(pid), [Sent(pid, SIGUSR1)])
  }

  function ProcessDataSignal(s: ServerState, signal: Signal): (r: Outcome)
    requires Valid(s) && s.actualPid != 0
    ensures Valid(r.state)
  {
    var r := if s.gettingMsg then HandleMsg(s, BitValue(signal)) else HandleHeader(s, BitValue(signal));
    Outcome(r.state, r.events + [Sent(r.state.clientPid, SIGUSR2)])
  }

  /** validate_message_size on the pattern read as a signed 32-bit integer. */
  predicate ValidMessageSize(size: nat) {
    var signed := if size < 0x8000_0000 then size else size - 0x1_0000_0000;
    !(signed <= 0 || signed > MAX_MESSAGE)
  }

  function HandleHeader(s: ServerState, bit: bool): (r: Outcome)
    requires Valid(s) && s.gettingHeader && s.actualPid != 0
    ensures Valid(r.state)
  {
    hide OrBit, Bit, ToBits, TextBits, Pow2, LowZero;
    var s0 := if s.sigCount == 0 then s.(sizeMessage := 0) else s;
    var m := HEADER_SIZE - 1 - s0.sigCount;
    var size := if bit then OrBit(s0.sizeMessage, m) else s0.sizeMessage;
    var s1 := s0.(sizeMessage := size, sigCount := s0.sigCount + 1);
    FreshStatesValid(0);
    Pow2Word();
    HeaderBitKeeps(s, bit);
    if s1.sigCount < HEADER_SIZE then
      Outcome(s1, [])
    else if !ValidMessageSize(size) then
      Outcome(IDLE, [])
    else
      Outcome(s1.(gettingHeader := false, gettingMsg := true, sigCount := 0,
                  buffer := Buffer(size + 1, [])),
              [Allocated(size + 1)])
  }

  lemma HeaderBitKeeps(s: ServerState, bit: bool)
    requires ValidHeader(s)
    ensures var m := HEADER_SIZE - 1 - s.sigCount;
            var old' := if s.sigCount == 0 then 0 else s.sizeMessage;
            var size := if bit then OrBit(old', m) else old';
            && old' == s.sizeMessage
            && size < Pow2(HEADER_SIZE)
            && LowZero(size, m)
  {
    var m := HEADER_SIZE - 1 - s.sigCount;
    if s.sigCount == 0 { NoBitsIsZero(s.sizeMessage, HEADER_SIZE); }
    NextBit(s.sizeMessage, HEADER_SIZE, m, bit);
    if bit { OrBitBound(s.sizeMessage, m, HEADER_SIZE); }
  }

  /** char_value after one more bit. */
  function Assemble(s: ServerState, bit: bool): nat {
    var bitPos := s.sigCount % 8;
    var c := if bitPos == 0 then 0 else s.charValue;
    if bit then OrBit(c, 7 - bitPos) else c
  }

  lemma BodyBitKeeps(s: ServerState, bit: bool)
    requires ValidBody(s)
    ensures Assemble(s, bit) < 256 && LowZero(Assemble(s, bit), 7 - s.sigCount % 8)
  {
    hide ToBits, Bit, OrBit, LowZero;
    var p := s.sigCount % 8;
    var c := if p == 0 then 0 else s.charValue;
    ZeroIsLow(8);
    Pow2Eight();
    NextBit(c, 8, 7 - p, bit);
    if bit { OrBitBound(c, 7 - p, 8); }
  }

  lemma NextPosition(n: nat)
    ensures (n + 1) % 8 == if n % 8 == 7 then 0 else n % 8 + 1
    ensures (n + 1) / 8 == if n % 8 == 7 then n / 8 + 1 else n / 8
  {
  }

  function HandleMsg(s: ServerState, bit: bool): (r: Outcome)
    requires Valid(s) && s.gettingMsg && s.actualPid != 0
    ensures Valid(r.state)
  {
    BodyBitKeeps(s, bit);
    NextPosition(s.sigCount);
    var s1 := s.(charValue := Assemble(s, bit), sigCount := s.sigCount + 1);
    if s1.sigCount % 8 != 0 then
      Outcome(s1, [])
    else
      StoreCharacter(s1)
  }

  /** The eighth bit of a character: store it and, after the last one, finish. */
  function StoreCharacter(s: ServerState): (r: Outcome)
    requires s.gettingMsg && !s.gettingHeader && s.actualPid != 0
    requires s.transmissionActive && s.clientPid == s.actualPid
    requires 0 < s.sizeMessage <= MAX_MESSAGE && s.buffer.Buffer? && s.buffer.capacity == s.sizeMessage + 1
    requires s.sigCount % 8 == 0 && |s.buffer.content| == s.msgPos == s.sigCount / 8 - 1 < s.sizeMessage
    requires s.charValue < 256
    ensures Valid(r.state)
  {
    FreshStatesValid(0);
    var s2 := s.(msgPos := s.msgPos + 1,
                 buffer := s.buffer.(content := s.buffer.content + [s.charValue as byte]));
    if s2.msgPos >= s2.sizeMessage then
      HandleCompleteMessage(s2)
    else
      Outcome(s2, [])
  }

  /** Prints size_message bytes of the buffer, frees it, answers the client and resets. */
  function HandleCompleteMessage(s: ServerState): Outcome
    requires s.buffer.Buffer? && |s.buffer.content| == s.msgPos < s.buffer.capacity
  {
    Outcome(IDLE,
            [Printed(s.actualPid, s.buffer.content), Freed]
            + (if s.clientPid > 0 then [Sent(s.clientPid, SIGUSR1)] else []))
  }

  /** clean_global, run by the monitor when a session has timed out. */
  function CleanGlobal(s: ServerState): (r: Outcome) {
    Outcome(IDLE, if s.buffer.Buffer? then [Freed] else [])
  }

  // ----- what the bits received so far are -----

  /** The bits of the running session, rebuilt from the fields alone. */
  ghost function Received(s: ServerState): seq<bool>
    requires Valid(s)
  {
    if s.gettingHeader then
      ToBits(s.sizeMessage, HEADER_SIZE)[..s.sigCount]
    else
      ToBits(s.sizeMessage, HEADER_SIZE) + TextBits(s.buffer.content)
      + ToBits(s.charValue, 8)[..s.sigCount % 8]
  }

  /** A ping is answered once: ready, with a session that has received nothing, or busy, with nothing
      changed, and the latter only in a session of another client. */
  lemma PongReplies(s: ServerState, pid: Pid)
    ensures var r := Pong(s, pid);
      && (r.state.actualPid == pid <==> !IsServerBusy(s) || s.actualPid == pid)
      && r.events == [Sent(pid, if r.state.actualPid == pid then SIGUSR1 else SIGUSR2)]
      && (if r.state.actualPid == pid then Valid(r.state) && Received(r.state) == [] else r.state == s)
  {
    hide ToBits;
    FreshStatesValid(pid);
  }

  /** The owner's signal when it neither completes a message nor a rejected header:
      one more bit is received, one SIGUSR2 acknowledges it, nothing is printed. */
  ghost predicate Continues(s: ServerState, r: Outcome, bit: bool)
    requires Valid(s) && Valid(r.state)
  {
    && r.state.actualPid == s.actualPid
    && Received(r.state) == Received(s) + [bit]
    && r.events in {[Sent(s.actualPid, SIGUSR2)],
                    [Allocated(r.state.sizeMessage + 1), Sent(s.actualPid, SIGUSR2)]}
  }

  /** The owner's signal that completes a message: the text whose bits were received. */
  ghost predicate Completes(s: ServerState, r: Outcome, bit: bool)
    requires Valid(s)
  {
    && r.state == IDLE
    && s.gettingMsg
    && exists text: seq<byte> ::
         && |text| == s.sizeMessage
         && Received(s) + [bit] == ToBits(s.sizeMessage, HEADER_SIZE) + TextBits(text)
         && r.events == [Printed(s.actualPid, text), Freed, Sent(s.actualPid, SIGUSR1), Sent(0, SIGUSR2)]
  }

  /** The owner's signal that ends a header with an unacceptable length: the session is dropped,
      and the acknowledgment goes to nobody in particular. */
  ghost predicate Rejects(s: ServerState, r: Outcome, bit: bool)
    requires Valid(s)
  {
    && r.state == IDLE
    && s.gettingHeader
    && r.events == [Sent(0, SIGUSR2)]
    && exists size: nat ::
         && size < Pow2(HEADER_SIZE)
         && !ValidMessageSize(size)
         && Received(s) + [bit] == ToBits(size, HEADER_SIZE)
  }

  /** Every signal of the session's owner adds exactly its own bit to what was received. */
  lemma OwnerSignal(s: ServerState, self: Pid, signal: Signal)
    requires Valid(s) && s.actualPid != 0 && s.actualPid != self
    ensures var r := HandleSignal(s, self, signal, s.actualPid);
            var bit := BitValue(signal);
            Continues(s, r, bit) || Completes(s, r, bit) || Rejects(s, r, bit)
  {
    var bit := BitValue(signal);
    var s' := s.(clientActivity := true);
    assert Valid(s') && Received(s') == Received(s);
    if s.gettingHeader {
      HeaderSignal(s', bit);
    } else {
      BodySignal(s', bit);
    }
  }

  /** The three outcomes of a header bit: more to come, length accepted, length rejected. */
  lemma HeaderOutcome(s: ServerState, bit: bool, size: nat)
    requires Valid(s) && s.actualPid != 0 && s.gettingHeader
    requires size == if bit then OrBit(s.sizeMessage, HEADER_SIZE - 1 - s.sigCount) else s.sizeMessage
    ensures var r := ProcessDataSignal(s, BitSignal(bit));
            var s' := s.(sizeMessage := size, sigCount := s.sigCount + 1);
            if s.sigCount + 1 < HEADER_SIZE then
              r == Outcome(s', [Sent(s.actualPid, SIGUSR2)])
            else if ValidMessageSize(size) then
              r == Outcome(s'.(gettingHeader := false, gettingMsg := true, sigCount := 0,
                               buffer := Buffer(size + 1, [])),
                           [Allocated(size + 1), Sent(s.actualPid, SIGUSR2)])
            else
              r == Outcome(IDLE, [Sent(0, SIGUSR2)])
  {
    hide LowZero, OrBit, Pow2;
    HeaderBitKeeps(s, bit);
  }

  /** The bits after a header bit. */
  lemma HeaderBits(s: ServerState, bit: bool, size: nat)
    requires Valid(s) && s.actualPid != 0 && s.gettingHeader
    requires size == if bit then OrBit(s.sizeMessage, HEADER_SIZE - 1 - s.sigCount) else s.sizeMessage
    ensures Received(s) + [bit] == ToBits(size, HEADER_SIZE)[..s.sigCount + 1]
    ensures size < Pow2(HEADER_SIZE)
  {
    hide ToBits, OrBit, Pow2;
    HeaderBitKeeps(s, bit);
    if s.sigCount == 0 { NoBitsIsZero(s.sizeMessage, HEADER_SIZE); }
    NextBit(s.sizeMessage, HEADER_SIZE, HEADER_SIZE - 1 - s.sigCount, bit);
  }

  lemma HeaderSignal(s: ServerState, bit: bool)
    requires Valid(s) && s.actualPid != 0 && s.gettingHeader
    ensures var r := ProcessDataSignal(s, BitSignal(bit));
            Continues(s, r, bit) || Rejects(s, r, bit)
  {
    hide LowZero, OrBit, Pow2, ToBits, TextBits, ProcessDataSignal, ValidMessageSize;
    var size := if bit then OrBit(s.sizeMessage, HEADER_SIZE - 1 - s.sigCount) else s.sizeMessage;
    HeaderOutcome(s, bit, size);
    HeaderBits(s, bit, size);
    var r := ProcessDataSignal(s, BitSignal(bit));
    assert ToBits(size, HEADER_SIZE)[..HEADER_SIZE] == ToBits(size, HEADER_SIZE);
    if r.state.actualPid == s.actualPid {
      assert Received(r.state) == Received(s) + [bit];
    }
  }

  /** The three outcomes of a body bit: mid-character, character stored, message finished. */
  lemma BodyOutcome(s: ServerState, bit: bool)
    requires Valid(s) && s.actualPid != 0 && s.gettingMsg
    ensures Assemble(s, bit) < 256
    ensures var c := Assemble(s, bit);
            var text := s.buffer.content + [c as byte];
            var r := ProcessDataSignal(s, BitSignal(bit));
            var s' := s.(charValue := c, sigCount := s.sigCount + 1);
            if s.sigCount % 8 != 7 then
              r == Outcome(s', [Sent(s.actualPid, SIGUSR2)])
            else if s.msgPos + 1 < s.sizeMessage then
              r == Outcome(s'.(msgPos := s.msgPos + 1, buffer := s.buffer.(content := text)),
                           [Sent(s.actualPid, SIGUSR2)])
            else
              r == Outcome(IDLE, [Printed(s.actualPid, text), Freed, Sent(s.actualPid, SIGUSR1), Sent(0, SIGUSR2)])
  {
    hide LowZero, Assemble, HandleHeader, ValidHeader, Received, OrBit, Pow2, ToBits, TextBits, Bit;
    BodyBitKeeps(s, bit);
    NextPosition(s.sigCount);
  }

  lemma BodySignal(s: ServerState, bit: bool)
    requires Valid(s) && s.actualPid != 0 && s.gettingMsg
    ensures var r := ProcessDataSignal(s, BitSignal(bit));
            Continues(s, r, bit) || Completes(s, r, bit)
  {
    hide LowZero, ToBits, TextBits, Assemble, ProcessDataSignal;
    BodyOutcome(s, bit);
    BodyBits(s, bit);
    var r := ProcessDataSignal(s, BitSignal(bit));
    NextPosition(s.sigCount);
    if r.state != IDLE {
      assert Received(r.state) == Received(s) + [bit];
    }
  }

  /** The bits after a body bit, before and after the character is stored. */
  lemma BodyBits(s: ServerState, bit: bool)
    requires Valid(s) && s.actualPid != 0 && s.gettingMsg
    requires Assemble(s, bit) < 256
    ensures var p := s.sigCount % 8;
            var c := Assemble(s, bit);
            var header := ToBits(s.sizeMessage, HEADER_SIZE);
            if p != 7 then
              Received(s) + [bit] == header + TextBits(s.buffer.content) + ToBits(c, 8)[..p + 1]
            else
              && Received(s) + [bit] == header + TextBits(s.buffer.content + [c as byte])
              && Received(s) + [bit] == header + TextBits(s.buffer.content + [c as byte]) + ToBits(c, 8)[..0]
  {
    hide LowZero, ToBits, TextBits, Assemble;
    var p := s.sigCount % 8;
    var c := Assemble(s, bit);
    CharacterBits(s, bit);
    var header := ToBits(s.sizeMessage, HEADER_SIZE);
    var content := s.buffer.content;
    assert Received(s) + [bit] == header + TextBits(content) + ToBits(c, 8)[..p + 1];
    if p == 7 {
      TextBitsAppend(content, c as byte);
      assert ToBits(c, 8)[..8] == ToBits(c, 8);
      assert header + TextBits(content) + ToBits(c, 8) == header + (TextBits(content) + ToBits(c, 8));
      assert header + TextBits(content + [c as byte]) + ToBits(c, 8)[..0] == header + TextBits(content + [c as byte]);
    }
  }

  lemma CharacterBits(s: ServerState, bit: bool)
    requires ValidBody(s)
    ensures var p := s.sigCount % 8;
            ToBits(Assemble(s, bit), 8)[..p + 1] == ToBits(s.charValue, 8)[..p] + [bit]
  {
    var p := s.sigCount % 8;
    var c := if p == 0 then 0 else s.charValue;
    ZeroIsLow(8);
    NextBit(c, 8, 7 - p, bit);
  }
}
