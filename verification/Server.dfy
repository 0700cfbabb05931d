/** The server process: the singleton's fields, updated in place by the signal handler and by
    the monitor loop of the main thread. */
module ServerProcess {
  import opened Bits
  import opened Signals
  import opened ServerSpec
  import R = ServerRuns

  class Server {
    const pid: Pid

    var actualPid: Pid
    var clientPid: Pid
    var gettingHeader: bool
    var gettingMsg: bool
    var sigCount: nat
    var charValue: nat
    var msgPos: nat
    var clientActivity: bool
    var transmissionActive: bool
    var message: array?<byte>
    var sizeMessage: nat

    /** The signals sent, the texts printed and the heap traffic, oldest first. */
    var events: seq<Event>

    ghost function Repr(): set<object>
      reads this
    {
      {this} + (if message == null then {} else {message})
    }

    ghost predicate Bounded()
      reads this
    {
      message != null ==> msgPos <= message.Length
    }

    /** The fields as a value. */
    ghost function State(): ServerState
      reads this, Repr()
      requires Bounded()
    {
      ServerState(actualPid, clientPid, gettingHeader, gettingMsg, sigCount, charValue, msgPos,
                  clientActivity, transmissionActive, sizeMessage,
                  if message == null then NoBuffer else Buffer(message.Length, message[..msgPos]))
    }

    ghost predicate Ok()
      reads this, Repr()
    {
      Bounded() && Valid(State())
    }

    /** get_client_instance on its first call. */
    constructor (pid: Pid)
      ensures Ok() && State() == IDLE && this.pid == pid && events == []
      ensures fresh(Repr())
    {
      this.pid := pid;
      actualPid, clientPid := 0, 0;
      gettingHeader, gettingMsg := true, false;
      sigCount, charValue, msgPos := 0, 0, 0;
      clientActivity, transmissionActive := false, false;
      message, sizeMessage := null, 0;
      events := [];
      FreshStatesValid(0);
    }

    method Kill(target: Pid, signal: Signal)
      modifies this`events
      ensures events == old(events) + [Sent(target, signal)]
    {
      events := events + [Sent(target, signal)];
    }

    method FreeMessage()
      requires message != null
      modifies this`message, this`events
      ensures message == null && events == old(events) + [Freed]
    {
      message := null;
      events := events + [Freed];
    }

    method ResetClientState()
      requires message == null ==> Bounded()
      modifies this
      ensures Bounded() && State() == IDLE
      ensures events == old(events) + (if old(message) != null then [Freed] else [])
    {
      if message != null {
        FreeMessage();
      }
      ClearFields();
      gettingHeader := true;
      sizeMessage := 0;
      transmissionActive := false;
      assert events == old(events) + (if old(message) != null then [Freed] else []);
    }

    /** The memset of the whole record; whatever `message` pointed to is forgotten. */
    method ClearFields()
      modifies this
      ensures Bounded() && State() == IDLE.(gettingHeader := false)
      ensures events == old(events)
    {
      actualPid, clientPid := 0, 0;
      gettingHeader, gettingMsg := false, false;
      sigCount, charValue, msgPos := 0, 0, 0;
      clientActivity, transmissionActive := false, false;
      message, sizeMessage := null, 0;
    }

    method CleanGlobal()
      modifies this
      ensures Bounded()
      ensures State() == IDLE
      ensures events == old(events) + (if old(message) != null then [Freed] else [])
    {
      clientActivity := false;
      if message != null {
        FreeMessage();
      }
      ResetClientState();
    }

    method Pong(sender: Pid)
      requires Bounded()
      modifies this
      ensures Bounded()
      ensures State() == ServerSpec.Pong(old(State()), sender).state
      ensures events == old(events) + ServerSpec.Pong(old(State()), sender).events
      ensures message == null || message == old(message)
    {
      hide Valid;
      if transmissionActive && actualPid > 0 && actualPid != sender {
        Kill(sender, SIGUSR2);
        return;
      }
      ClearFields();
      actualPid := sender;
      clientPid := sender;
      gettingHeader := true;
      clientActivity := true;
      transmissionActive := true;
      Kill(sender, SIGUSR1);
    }

    method MemoryReserve()
      requires message == null && msgPos == 0
      modifies this
      ensures fresh(message) && msgPos <= message.Length
      ensures State() == old(State()).(gettingHeader := false, gettingMsg := true, sigCount := 0,
                                       buffer := Buffer(sizeMessage + 1, []))
      ensures events == old(events) + [Allocated(sizeMessage + 1)]
    {
      message := new byte[sizeMessage + 1];
      events := events + [Allocated(sizeMessage + 1)];
      gettingHeader := false;
      gettingMsg := true;
      sigCount := 0;
    }

    method HandleHeader(signal: Signal)
      requires Ok() && gettingHeader && actualPid != 0
      modifies this
      ensures Bounded()
      ensures State() == ServerSpec.HandleHeader(old(State()), BitValue(signal)).state
      ensures Ok()
      ensures events == old(events) + ServerSpec.HandleHeader(old(State()), BitValue(signal)).events
      ensures message == null || fresh(message)
    {
      hide LowZero, OrBit, Pow2;
      if sigCount == 0 {
        sizeMessage := 0;
      }
      if sigCount < HEADER_SIZE {
        if BitValue(signal) {
          sizeMessage := OrBit(sizeMessage, HEADER_SIZE - 1 - sigCount);
        }
        sigCount := sigCount + 1;
      }
      if sigCount == HEADER_SIZE {
        if !ValidMessageSize(sizeMessage) {
          ResetClientState();
        } else {
          MemoryReserve();
        }
      }
    }

    method HandleCompleteMessage()
      requires message != null && msgPos < message.Length && sizeMessage == msgPos
      modifies this, message
      ensures Bounded()
      ensures message == null
      ensures State() == ServerSpec.HandleCompleteMessage(old(State())).state
      ensures events == old(events) + ServerSpec.HandleCompleteMessage(old(State())).events
    {
      var owner := actualPid;
      message[msgPos] := 0;
      events := events + [Printed(owner, message[..sizeMessage])];
      var client := clientPid;
      FreeMessage();
      if client > 0 {
        Kill(client, SIGUSR1);
      }
      ResetClientState();
      assert events == old(events) + ServerSpec.HandleCompleteMessage(old(State())).events;
    }

    method HandleMsg(signal: Signal)
      requires Ok() && gettingMsg && actualPid != 0
      modifies this, message
      ensures Bounded()
      ensures State() == ServerSpec.HandleMsg(old(State()), BitValue(signal)).state
      ensures Ok()
      ensures events == old(events) + ServerSpec.HandleMsg(old(State()), BitValue(signal)).events
      ensures message == null || message == old(message)
    {
      ghost var s := State();
      ReadyToStore(s, BitValue(signal));
      hide LowZero, OrBit, Assemble, ServerSpec.StoreCharacter, ServerSpec.HandleMsg, ValidHeader, ValidBody, Valid;
      AssembleBit(signal);
      if sigCount % 8 == 0 {
        StoreCharacter();
      }
    }

    /** The bit goes into the character under assembly, which starts afresh every eighth bit. */
    method AssembleBit(signal: Signal)
      requires Bounded()
      modifies this`charValue, this`sigCount
      ensures Bounded()
      ensures State() == old(State()).(charValue := Assemble(old(State()), BitValue(signal)), sigCount := old(sigCount) + 1)
    {
      hide OrBit;
      var bitPos := sigCount % 8;
      if bitPos == 0 {
        charValue := 0;
      }
      if BitValue(signal) {
        charValue := OrBit(charValue, 7 - bitPos);
      }
      sigCount := sigCount + 1;
    }

    method StoreCharacter()
      requires message != null && msgPos < sizeMessage && message.Length == sizeMessage + 1 && charValue < 256
      requires gettingMsg && !gettingHeader && actualPid != 0 && transmissionActive && clientPid == actualPid
      requires sizeMessage <= MAX_MESSAGE && sigCount % 8 == 0 && msgPos == sigCount / 8 - 1
      modifies this, message
      ensures Bounded()
      ensures State() == ServerSpec.StoreCharacter(old(State())).state
      ensures events == old(events) + ServerSpec.StoreCharacter(old(State())).events
      ensures message == null || message == old(message)
    {
      hide Valid;
      message[msgPos] := charValue as byte;
      msgPos := msgPos + 1;
      assert message[..msgPos] == old(message[..msgPos]) + [charValue as byte];
      assert State() == old(State()).(msgPos := msgPos,
        buffer := Buffer(message.Length, old(State()).buffer.content + [charValue as byte]));
      if msgPos >= sizeMessage {
        HandleCompleteMessage();
      }
    }

    method ProcessDataSignal(signal: Signal)
      requires Ok() && actualPid != 0
      modifies Repr()
      ensures Bounded()
      ensures State() == ServerSpec.ProcessDataSignal(old(State()), signal).state
      ensures Ok()
      ensures events == old(events) + ServerSpec.ProcessDataSignal(old(State()), signal).events
      ensures fresh(Repr() - old(Repr()))
    {
      hide ServerSpec.HandleMsg, ServerSpec.HandleHeader;
      if gettingMsg {
        HandleMsg(signal);
      } else if gettingHeader {
        HandleHeader(signal);
      }
      Kill(clientPid, SIGUSR2);
    }

    /** handle_new_client, when there is no client. */
    method HandleNewClient(sender: Pid)
      requires Bounded()
      modifies this
      ensures Bounded()
      ensures State() == ServerSpec.Pong(old(State()).(clientPid := sender), sender).state
      ensures events == old(events) + ServerSpec.Pong(old(State()).(clientPid := sender), sender).events
      ensures message == null || message == old(message)
    {
      hide Valid, ServerSpec.Pong;
      clientPid := sender;
      Pong(clientPid);
    }

    /** The owner's signal. */
    method HandleActive(sender: Pid, signal: Signal)
      requires Ok() && Valid(State().(clientPid := sender, clientActivity := true)) && actualPid == sender != 0
      modifies Repr()
      ensures Bounded()
      ensures var taken := old(State()).(clientPid := sender, clientActivity := true);
        && State() == ServerSpec.ProcessDataSignal(taken, signal).state
        && events == old(events) + ServerSpec.ProcessDataSignal(taken, signal).events
      ensures fresh(Repr() - old(Repr()))
    {
      hide ServerSpec.ProcessDataSignal, Valid;
      clientPid := sender;
      clientActivity := true;
      ProcessDataSignal(signal);
    }

    /** The signal handler, refining the handler function of ServerSpec. */
    method SignalHandler(signal: Signal, from: Pid)
      requires Ok()
      modifies Repr()
      ensures Bounded()
      ensures State() == HandleSignal(old(State()), pid, signal, from).state
      ensures Ok()
      ensures events == old(events) + HandleSignal(old(State()), pid, signal, from).events
      ensures fresh(Repr() - old(Repr()))
    {
      HandlerCases(State(), pid, signal, from);
      hide ServerSpec.ProcessDataSignal, Valid, ServerSpec.Pong, HandleSignal;
      var sender := from;
      if sender == 0 {
        sender := actualPid;
      }
      if sender == pid {
        return;
      }
      if actualPid == 0 {
        HandleNewClient(sender);
        return;
      }
      if actualPid != sender {
        Kill(sender, SIGUSR2);
        return;
      }
      HandleActive(sender, signal);
    }

    /** The process is where the run of `trace` from `x` ends, and has added that run's events
        to `base`. */
    ghost predicate Follows(x: R.System, base: seq<Event>, trace: seq<R.Action>, m: R.Monitor)
      reads this, Repr()
    {
      && Ok() && Valid(x.server)
      && var r := R.Run(x, pid, trace);
         r.system == R.System(State(), m) && events == base + r.events
    }

    method Interrupt(arrivals: seq<(Signal, Pid)>, k: nat,
                     ghost x: R.System, ghost base: seq<Event>, ghost trace: seq<R.Action>, ghost m: R.Monitor)
      requires k < |arrivals| && Follows(x, base, trace + R.Arrivals(arrivals[..k]), m)
      modifies Repr()
      ensures Follows(x, base, trace + R.Arrivals(arrivals[..k + 1]), m)
      ensures fresh(Repr() - old(Repr()))
    {
      hide HandleSignal, Valid, R.Run;
      SignalHandler(arrivals[k].0, arrivals[k].1);
      R.OneMoreArrival(x, pid, trace, arrivals, k);
    }

    /** The signals that arrive while the main thread sleeps once. */
    method Sleep(arrivals: seq<(Signal, Pid)>,
                 ghost x: R.System, ghost base: seq<Event>, ghost trace: seq<R.Action>, ghost m: R.Monitor)
      requires Follows(x, base, trace, m)
      modifies Repr()
      ensures Follows(x, base, trace + R.Arrivals(arrivals), m)
      ensures arrivals == [] ==> clientActivity == old(clientActivity)
      ensures fresh(Repr() - old(Repr()))
    {
      hide Valid, R.Run, Ok, State;
      assert arrivals[..0] == [];
      assert trace + R.Arrivals([]) == trace;
      var k := 0;
      while k < |arrivals|
        invariant k <= |arrivals| && (k == 0 ==> clientActivity == old(clientActivity))
        invariant fresh(Repr() - old(Repr()))
        invariant Follows(x, base, trace + R.Arrivals(arrivals[..k]), m)
      {
        Interrupt(arrivals, k, x, base, trace, m);
        k := k + 1;
      }
      assert arrivals[..k] == arrivals;
    }

    lemma StartFollows(m: R.Monitor)
      requires Ok()
      ensures Follows(R.System(State(), m), events, [], m)
    {
      hide Valid, HandleSignal;
      R.RunNothing(R.System(State(), m), pid);
    }

    /** One round of the monitor's loop. */
    method PollOnce(arrivals: seq<(Signal, Pid)>, i: nat, ghost x: R.System, ghost base: seq<Event>, ghost trace: seq<R.Action>)
      returns (gone: bool, next: nat)
      requires i < R.TIMEOUT && Follows(x, base, trace, R.Watching(i))
      modifies Repr()
      ensures fresh(Repr() - old(Repr()))
      ensures gone ==> actualPid == 0 && Follows(x, base, trace + R.Arrivals(arrivals) + [R.Poll], R.Resting)
      ensures !gone ==> next <= R.TIMEOUT && Follows(x, base, trace + R.Arrivals(arrivals) + [R.Poll],
                                                    if next < R.TIMEOUT then R.Watching(next) else R.Leaving)
      ensures !gone ==> !clientActivity && (next == i + 1 || (next == 0 && (arrivals == [] ==> old(clientActivity))))
    {
      hide Valid, HandleSignal, R.Run, R.Arrivals;
      Sleep(arrivals, x, base, trace, R.Watching(i));
      R.OneMoreWake(x, pid, trace + R.Arrivals(arrivals));
      gone, next := actualPid == 0, i;
      if gone {
        return;
      }
      var active;
      active, next := CheckClientActivity(i);
      if !active {
        next := i + 1;
      }
    }

    /** monitor_client_timeout: `naps[k]` arrives during the k-th usleep, nothing after the last, and
        `late` between the end of the loop and the clean-up. The loop always ends, and with the
        clean-up it is a run of the monitor. */
    method MonitorClientTimeout(naps: seq<seq<(Signal, Pid)>>, late: seq<(Signal, Pid)>)
      returns (ghost polls: nat, ghost gaveUp: bool)
      requires Ok()
      modifies Repr()
      ensures Follows(R.System(old(State()), R.Watching(0)), old(events),
                      R.Schedule(naps, polls) + (if gaveUp then R.Arrivals(late) + [R.Poll] else []), R.Resting)
      ensures actualPid == 0 && fresh(Repr() - old(Repr()))
    {
      hide Valid, HandleSignal, R.Run, R.Schedule, R.Arrivals, State, Follows;
      ghost var x := R.System(State(), R.Watching(0));
      ghost var base := events;
      StartFollows(R.Watching(0));
      R.ScheduleStart(naps);
      polls, gaveUp := 0, false;
      var i: nat, k: nat := 0, 0;
      while i < R.TIMEOUT
        invariant i <= R.TIMEOUT && fresh(Repr() - old(Repr())) && polls == k
        invariant Follows(x, base, R.Schedule(naps, k), if i < R.TIMEOUT then R.Watching(i) else R.Leaving)
        decreases if k < |naps| then |naps| - k else 0, if clientActivity then 1 else 0, R.TIMEOUT - i
      {
        R.ScheduleNext(naps, k);
        var arrivals := R.NapAt(naps, k);
        var gone;
        gone, i := PollOnce(arrivals, i, x, base, R.Schedule(naps, k));
        k := k + 1;
        polls := k;
        if gone {
          assert R.Schedule(naps, k) + [] == R.Schedule(naps, k);
          return;
        }
      }
      gaveUp := true;
      Leave(late, i, x, base, R.Schedule(naps, k));
    }

    /** From the end of the loop to the return. */
    method Leave(late: seq<(Signal, Pid)>, i: nat, ghost x: R.System, ghost base: seq<Event>, ghost trace: seq<R.Action>)
      requires i == R.TIMEOUT && Follows(x, base, trace, R.Leaving)
      modifies Repr()
      ensures Follows(x, base, trace + (R.Arrivals(late) + [R.Poll]), R.Resting)
      ensures actualPid == 0 && fresh(Repr() - old(Repr()))
    {
      hide Valid, HandleSignal, R.Run, R.Arrivals;
      Sleep(late, x, base, trace, R.Leaving);
      CleanUp(i, x, base, trace + R.Arrivals(late));
      assert trace + R.Arrivals(late) + [R.Poll] == trace + (R.Arrivals(late) + [R.Poll]);
    }

    /** The call of handle_timeout, as a step of the monitor. */
    method CleanUp(i: nat, ghost x: R.System, ghost base: seq<Event>, ghost trace: seq<R.Action>)
      requires i == R.TIMEOUT && Follows(x, base, trace, R.Leaving)
      modifies this
      ensures Follows(x, base, trace + [R.Poll], R.Resting) && actualPid == 0
      ensures message == null || message == old(message)
    {
      hide HandleSignal, R.Run, R.Wake;
      R.OneMoreWake(x, pid, trace);
      R.WakeLeaving(State());
      HandleTimeout(i);
    }


    method CheckClientActivity(i: nat) returns (active: bool, count: nat)
      requires Bounded()
      modifies this`clientActivity
      ensures active == old(clientActivity) && !clientActivity
      ensures count == if active then 0 else i
      ensures Bounded() && State() == old(State()).(clientActivity := false)
    {
      active, count := clientActivity, i;
      if clientActivity {
        clientActivity := false;
        count := 0;
      }
    }

    method HandleTimeout(i: nat)
      requires Ok()
      modifies this
      ensures Bounded()
      ensures if i >= R.TIMEOUT && old(actualPid) > 0
              then State() == IDLE && events == old(events) + ServerSpec.CleanGlobal(old(State())).events
              else State() == old(State()) && events == old(events)
      ensures message == null || message == old(message)
    {
      if i >= R.TIMEOUT && actualPid > 0 {
        CleanGlobal();
      }
    }
  }

  /** The handler's function, case by case. */
  lemma HandlerCases(s: ServerState, self: Pid, signal: Signal, from: Pid)
    requires Valid(s)
    ensures var r := HandleSignal(s, self, signal, from);
      var sender := Sender(s, from);
      var taken := s.(clientPid := sender, clientActivity := true);
      if sender == self then r == Outcome(s, [])
      else if s.actualPid == 0 then r == ServerSpec.Pong(s.(clientPid := sender), sender)
      else if s.actualPid != sender then r == Outcome(s, [Sent(sender, SIGUSR2)])
      else Valid(taken) && r == ServerSpec.ProcessDataSignal(taken, signal)
  {
    hide LowZero, ServerSpec.Pong, ServerSpec.ProcessDataSignal;
  }

  /** A full character may be stored. */
  lemma ReadyToStore(s: ServerState, bit: bool)
    requires Valid(s) && s.gettingMsg && s.actualPid != 0
    ensures !s.gettingHeader && s.transmissionActive && s.clientPid == s.actualPid && s.buffer.Buffer?
    ensures s.buffer.capacity == s.sizeMessage + 1 && 0 < s.sizeMessage <= MAX_MESSAGE && s.msgPos < s.sizeMessage
    ensures Assemble(s, bit) < 256 && |s.buffer.content| == s.msgPos
    ensures (s.sigCount + 1) % 8 == 0 ==> s.msgPos == (s.sigCount + 1) / 8 - 1
    ensures var s' := s.(charValue := Assemble(s, bit), sigCount := s.sigCount + 1);
      ServerSpec.HandleMsg(s, bit) == if (s.sigCount + 1) % 8 != 0 then Outcome(s', []) else ServerSpec.StoreCharacter(s')
  {
    hide LowZero, OrBit, Assemble, ServerSpec.StoreCharacter;
    BodyBitKeeps(s, bit);
    NextPosition(s.sigCount);
  }
}
