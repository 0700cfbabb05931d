/** The client process in given surroundings. Signals arrive at any time, from anybody; exit() is a
    change of `status`, after which nothing more is done. */
module ClientProcess {
  import opened Bits
  import opened Signals
  import opened ClientSpec
  import opened ClientHistory

  class Client {
    const pid: Pid
    const server: LivePid
    const msg: seq<byte>
    const world: World

    var isReady: bool
    var readyToProceed: bool
    var transmissionActive: bool
    var currentClientPid: Pid
    var transmissionId: nat
    var handler: Handler
    var status: Status
    var clock: nat              // the moments that have passed
    var history: seq<Entry>

    function State(): ClientState
      reads this
    {
      ClientState(server, isReady, readyToProceed, transmissionActive, currentClientPid, transmissionId,
                  handler, status)
    }

    constructor (pid: Pid, server: LivePid, msg: seq<byte>, world: World)
      ensures this.pid == pid && this.server == server && this.msg == msg && this.world == world
      ensures State() == Fresh(server) && clock == 0 && history == []
    {
      this.pid, this.server, this.msg, this.world := pid, server, msg, world;
      isReady, readyToProceed, transmissionActive := false, false, false;
      currentClientPid, transmissionId := 0, 0;
      handler, status := PingHandler, Running;
      clock, history := 0, [];
    }

    /** The history fits the surroundings, and the acknowledgment flag fits the history. */
    ghost predicate Faithful()
      reads this
    {
      && Recorded(history, server, world, clock, status)
      && (handler == DataHandler && status == Running ==> readyToProceed == AckPending(history, server))
    }

    ghost predicate Transmitting()
      reads this
    {
      handler == DataHandler && IsTransmissionOwner(State(), pid)
    }

    /** ping_handler or signal_handler, whichever is installed. */
    method OnSignal(signal: Signal, from: Pid)
      requires status == Running
      modifies this`isReady, this`readyToProceed, this`status, this`history
      ensures State() == Receive(old(State()), pid, signal, from)
      ensures history == old(history) + [Took(signal, from)]
    {
      history := history + [Took(signal, from)];
      match handler
      case PingHandler =>
        if from == pid {
          status := Failure;
          return;
        }
        if server != 0 && from != server {
          return;
        }
        if transmissionActive {
          return;
        }
        if signal == SIGUSR1 {
          isReady := true;
        } else {
          isReady := false;
        }
      case DataHandler =>
        if server != 0 && from != server {
          return;
        }
        if signal == SIGUSR2 {
          readyToProceed := true;
        } else {
          status := Success;
        }
    }

    /** Some signals have been taken since the state was `before`, when it was running. */
    ghost predicate Effect(before: ClientState, arrivals: seq<(Signal, Pid)>)
      reads this
    {
      && State() == before.(isReady := isReady, readyToProceed := readyToProceed, status := status)
      && match handler
         case PingHandler =>
           && readyToProceed == before.readyToProceed
           && status == (if (SIGUSR1, pid) in arrivals || (SIGUSR2, pid) in arrivals then Failure else Running)
           && (status == Running ==>
                 isReady == if before.transmissionActive then before.isReady
                            else LastWord(before.isReady, server, arrivals))
         case DataHandler =>
           && isReady == before.isReady
           && status == (if (SIGUSR1, server) in arrivals then Success else Running)
           && (status == Running ==> readyToProceed == (before.readyToProceed || (SIGUSR2, server) in arrivals))
    }

    /** One signal more. */
    method TakeOne(arrivals: seq<(Signal, Pid)>, i: nat, ghost before: ClientState)
      requires i < |arrivals| && status == Running && Effect(before, arrivals[..i])
      modifies this`isReady, this`readyToProceed, this`status, this`history
      ensures Effect(before, arrivals[..i + 1])
      ensures history == old(history) + [Took(arrivals[i].0, arrivals[i].1)]
    {
      hide LastWord;
      var (signal, from) := arrivals[i];
      Members(arrivals, i, (SIGUSR1, pid));
      Members(arrivals, i, (SIGUSR2, pid));
      Members(arrivals, i, (SIGUSR1, server));
      Members(arrivals, i, (SIGUSR2, server));
      LastWordNext(before.isReady, server, arrivals, i);
      assert arrivals[i] == (signal, from) && (signal.SIGUSR1? || signal.SIGUSR2?);
      OnSignal(signal, from);
    }

    /** Signals that are taken one after the other, until one of them ends the process. */
    method TakeAll(arrivals: seq<(Signal, Pid)>)
      requires status == Running && Earned(history, server) && Reached(history, world)
      requires handler == DataHandler ==> readyToProceed == AckPending(history, server)
      modifies this`isReady, this`readyToProceed, this`status, this`history
      ensures Effect(old(State()), arrivals)
      ensures Earned(history, server) && Reached(history, world)
      ensures handler == DataHandler && status == Running ==> readyToProceed == AckPending(history, server)
      ensures Moments(history) == old(Moments(history)) && Acts(history) == old(Acts(history))
      ensures Heard(history) <= old(Heard(history)) + arrivals
      ensures status == Running ==> Heard(history) == old(Heard(history)) + arrivals
    {
      hide AckPending, Earned, Reached, Acts, Heard, Moments, LastWord;
      ghost var before, heard := State(), Heard(history);
      var i := 0;
      NothingTaken(before.isReady, server);
      assert arrivals[..0] == [] && heard + [] == heard;
      while i < |arrivals| && status == Running
        invariant i <= |arrivals| && Effect(before, arrivals[..i])
        invariant Heard(history) == heard + arrivals[..i]
        invariant Moments(history) == old(Moments(history)) && Acts(history) == old(Acts(history))
        invariant Earned(history, server) && Reached(history, world)
        invariant handler == DataHandler && status == Running ==> readyToProceed == AckPending(history, server)
      {
        Appended(history, Took(arrivals[i].0, arrivals[i].1), server, world);
        OneMore(heard, arrivals, i);
        TakeOne(arrivals, i, before);
        i := i + 1;
      }
      Whole(arrivals, i);
      Part(heard, arrivals, i);
    }

    /** The signals of one moment: while the process sleeps, or between two of its own actions. */
    method TakeSignals()
      requires status == Running && Faithful()
      modifies this`isReady, this`readyToProceed, this`status, this`history, this`clock
      ensures Faithful() && clock == old(clock) + 1 && Acts(history) == old(Acts(history))
      ensures Effect(old(State()), world(old(clock)).arrivals)
    {
      hide AckPending, Earned, Reached, Acts, Heard, Moments, LastWord, Incoming;
      NextMoment(world, clock);
      TakeAll(world(clock).arrivals);
      Appended(history, Passed, server, world);
      history := history + [Passed];
      clock := clock + 1;
    }

    method CheckTransmissionOwnership()
      requires status == Running
      modifies this`status
      ensures status == if IsTransmissionOwner(old(State()), pid) then Running else Failure
    {
      if !(transmissionActive && currentClientPid == pid) {
        status := Failure;
      }
    }

    /** Waits for the acknowledgment, to the moment that brings it, and uses it up. */
    method WaitForServerAck() returns (polls: nat)
      requires status == Running && Transmitting() && Faithful()
      modifies this`readyToProceed, this`isReady, this`status, this`history, this`clock
      ensures Transmitting() && Faithful() && isReady == old(isReady) && clock == old(clock) + polls
      ensures Waited(world, server, old(clock), clock, old(readyToProceed), status)
      ensures status == Running ==> !readyToProceed
      ensures Acts(history) == old(Acts(history)) + if status == Running then [Acknowledged] else []
    {
      hide AckPending, Earned, Reached, Acts, Heard, Moments, LastWord, Incoming;
      polls := 0;
      var maxTimeout := 50_000;
      while !readyToProceed
        invariant clock == old(clock) + polls && polls <= MAX_TIMEOUT && isReady == old(isReady)
        invariant status == Running && Transmitting() && Faithful()
        invariant Acts(history) == old(Acts(history))
        invariant if old(readyToProceed) then polls == 0 && readyToProceed
                  else if readyToProceed then Waited(world, server, old(clock), clock, false, Running)
                  else Silent(world, server, old(clock), clock)
        decreases MAX_TIMEOUT - polls
      {
        TakeSignals();
        polls := polls + 1;
        if status != Running {
          return;
        }
        if polls % 50_000 == 0 {
          CheckTransmissionOwnership();
        }
        if polls > maxTimeout {
          status := Failure;
          return;
        }
      }
      Appended(history, Act(Acknowledged), server, world);
      readyToProceed := false;
      history := history + [Act(Acknowledged)];
    }

    /** send_data_bit and send_signal: SIGUSR2 for a 1, SIGUSR1 for a 0; fails when the server is
        gone. */
    method SendDataBit(bit: bool)
      requires status == Running && Faithful()
      modifies this`status, this`history
      ensures Faithful() && (status == Running <==> world(clock).reachable) && status != Success
      ensures Acts(history) == old(Acts(history))
        + if status != Running then [] else if bit then [Raised(SIGUSR2)] else [Raised(SIGUSR1)]
    {
      hide AckPending, Earned, Reached, Acts, Heard, Moments, Incoming;
      if !world(clock).reachable {
        status := Failure;
        return;
      }
      var signal := SIGUSR1;
      if bit {
        signal := SIGUSR2;
      }
      Appended(history, Act(Raised(signal)), server, world);
      history := history + [Act(Raised(signal))];
    }

    /** One bit, with signals arriving before it is sent, between the kill and the first look at the
        flag, and in every sleep. */
    method SendBit(value: nat, i: nat) returns (acts: nat)
      requires status == Running && Transmitting() && Faithful()
      modifies this`readyToProceed, this`isReady, this`status, this`history, this`clock
      ensures Transmitting() && Faithful() && isReady == old(isReady) && acts <= 2
      ensures Acts(history) == old(Acts(history)) + Exchange(Bit(value, i))[..acts]
      ensures BitPassed(world, server, old(clock), clock, old(readyToProceed), acts, status)
      ensures status == Running ==> !readyToProceed
    {
      hide AckPending, Earned, Reached, Acts, Heard, Moments, LastWord, Incoming, Bit;
      acts := 0;
      var bit := false;
      if Bit(value, i) {
        bit := true;
      }
      TakeSignals();
      if status == Running {
        SendDataBit(bit);
      }
      if status == Running {
        acts := 1;
        TakeSignals();
        if status == Running {
          var polls := WaitForServerAck();
          acts := if status == Running then 2 else 1;
        }
      }
    }

    /** A part of the transmission that began at `from`, when `before` had been done. */
    ghost predicate Sent(from: nat, before: seq<Action>, plan: seq<Action>)
      reads this
    {
      Carried(world, server, from, clock, before, Acts(history), plan, status)
    }

    /** Sends the `length` low bits of `value`, most significant first. */
    method SendSignals(value: nat, length: nat)
      requires status == Running && Transmitting() && Faithful()
      modifies this`readyToProceed, this`isReady, this`status, this`history, this`clock
      ensures Transmitting() && Faithful() && isReady == old(isReady)
      ensures Sent(old(clock), old(Acts(history)), Paced(ToBits(value, length)))
      ensures GoesThrough(world, server, old(clock), clock, status)
    {
      hide Bit, ToBits, Paced, Exchange, Acts, Recorded, AckPending, BitPassed, Carried, GoesThrough;
      ghost var bits, from, before := ToBits(value, length), clock, Acts(history);
      var i := length - 1;
      NothingCarried(world, server, from, before);
      PacedNothing(bits);
      while i >= 0
        invariant -1 <= i < length && Transmitting() && Faithful() && status == Running && isReady == old(isReady)
        invariant Sent(from, before, Paced(bits[..length - 1 - i]))
      {
        ghost var k, mid, middle, ready := length - 1 - i, clock, Acts(history), readyToProceed;
        ToBitsAt(value, length, k);
        PacedNext(bits, k);
        var acts := SendBit(value, i);
        BitCarried(world, server, mid, clock, ready, middle, Acts(history), bits[k], acts, status);
        CarriedOn(world, server, from, mid, clock, before, middle, Acts(history),
                  Paced(bits[..k]), Exchange(bits[k]), status);
        if status != Running {
          EndedWithin(world, server, from, clock, before, Acts(history), Paced(bits[..k + 1]), Paced(bits), status);
          NeverGivenUp(world, server, from, clock, before, Acts(history), Paced(bits), status);
          return;
        }
        i := i - 1;
      }
      assert bits[..length] == bits;
      NeverGivenUp(world, server, from, clock, before, Acts(history), Paced(bits), status);
    }

    /** Each character of the message; the terminating NUL of the C string ends the loop. */
    method SendMessage()
      requires status == Running && Transmitting() && Faithful()
      modifies this`readyToProceed, this`isReady, this`status, this`history, this`clock
      ensures Transmitting() && Faithful() && isReady == old(isReady)
      ensures Sent(old(clock), old(Acts(history)), Paced(TextBits(msg)))
      ensures GoesThrough(world, server, old(clock), clock, status)
    {
      hide ToBits, TextBits, Paced, Acts, Recorded, AckPending, Carried, GoesThrough;
      ghost var from, before := clock, Acts(history);
      var i := 0;
      NothingCarried(world, server, from, before);
      TextPlanStarts(msg);
      while i < |msg|
        invariant i <= |msg| && Transmitting() && Faithful() && status == Running && isReady == old(isReady)
        invariant Sent(from, before, Paced(TextBits(msg[..i])))
      {
        ghost var mid, middle := clock, Acts(history);
        CharacterPlan(msg, i);
        TextPlanPrefix(msg, i + 1);
        CheckTransmissionOwnership();
        SendSignals(msg[i] as nat, 8);
        CarriedOn(world, server, from, mid, clock, before, middle, Acts(history),
                  Paced(TextBits(msg[..i])), Paced(ToBits(msg[i] as nat, 8)), status);
        if status != Running {
          EndedWithin(world, server, from, clock, before, Acts(history),
                      Paced(TextBits(msg[..i + 1])), Paced(TextBits(msg)), status);
          NeverGivenUp(world, server, from, clock, before, Acts(history), Paced(TextBits(msg)), status);
          return;
        }
        i := i + 1;
      }
      assert msg[..i] == msg;
      NeverGivenUp(world, server, from, clock, before, Acts(history), Paced(TextBits(msg)), status);
    }

    method SetTransmissionActive()
      modifies this`transmissionActive, this`currentClientPid, this`transmissionId
      ensures transmissionActive && currentClientPid == pid && transmissionId == old(transmissionId) + 1
    {
      transmissionActive := true;
      currentClientPid := pid;
      transmissionId := transmissionId + 1;
    }

    /** wait_for_transmission_slot: a free slot, or one's own, is taken; one held by another process
        is waited for in vain, since nothing this process runs ever releases it, until the
        confirmation comes, a probe of the server fails, or MAX_SLOT_WAIT is exceeded. */
    method WaitForTransmissionSlot() returns (waitCount: nat)
      requires status == Running && handler == DataHandler && Faithful()
      modifies this`isReady, this`readyToProceed, this`transmissionActive, this`currentClientPid,
               this`transmissionId, this`status, this`history, this`clock
      ensures Faithful() && Acts(history) == old(Acts(history)) && clock == old(clock) + waitCount
      ensures var free := !old(transmissionActive) || old(currentClientPid) == pid;
        if free then State() == Begin(old(State()), pid) && waitCount == 0 && history == old(history)
        else
          && State() == old(State()).(readyToProceed := readyToProceed, status := status)
          && 0 < waitCount <= MAX_SLOT_WAIT + 1
          && Unconfirmed(world, server, old(clock), clock - 1)
          && status == (if Confirmed(world, server, clock - 1) then Success else Failure)
          && (status == Failure ==>
                waitCount > MAX_SLOT_WAIT || (waitCount % 3000 == 0 && !world(clock).reachable))
    {
      hide AckPending, Earned, Reached, Acts, Heard, Moments, Incoming;
      waitCount := 0;
      if !transmissionActive || currentClientPid == pid {
        SetTransmissionActive();
        return;
      }
      while transmissionActive && !(transmissionActive && currentClientPid == pid)
        invariant waitCount <= MAX_SLOT_WAIT && status == Running && Faithful()
        invariant transmissionActive && currentClientPid == old(currentClientPid) && isReady == old(isReady)
        invariant transmissionId == old(transmissionId)
        invariant clock == old(clock) + waitCount && Unconfirmed(world, server, old(clock), clock)
        invariant Acts(history) == old(Acts(history))
        decreases MAX_SLOT_WAIT - waitCount
      {
        TakeSignals();
        waitCount := waitCount + 1;
        if status != Running {
          return;
        }
        if waitCount % 3000 == 0 {
          if !world(clock).reachable {
            status := Failure;
            return;
          }
        }
        if waitCount > 60_000 {
          status := Failure;
          return;
        }
      }
      assert false;  // the slot is never seen free
    }

    /** prepare_transmission, from a ready server to the last bit: what goes out is the wire of the
        message, under the stop-and-wait discipline, whatever signals arrive in between. */
    method PrepareTransmission()
      requires status == Running && handler == PingHandler && Faithful()
      requires !transmissionActive && !readyToProceed
      modifies this
      ensures Transmitting() && Faithful()
      ensures isReady == old(isReady) && transmissionId == old(transmissionId) + 1
      ensures Sent(old(clock), old(Acts(history)), Paced(Wire(msg)))
      ensures GoesThrough(world, server, old(clock), clock, status)
    {
      hide ToBits, TextBits, Paced, Acts, Heard, Moments, AckPending, Earned, Reached, Incoming,
           Carried, GoesThrough;
      ghost var from, before := clock, Acts(history);
      ghost var header, text := Paced(ToBits(|msg|, 32)), Paced(TextBits(msg));
      PacedConcat(ToBits(|msg|, 32), TextBits(msg));
      Appended(history, Began, server, world);
      handler := DataHandler;
      history := history + [Began];
      var waitCount := WaitForTransmissionSlot();
      SendSignals(|msg|, 32);
      if status != Running {
        EndedWithin(world, server, from, clock, before, Acts(history), header, header + text, status);
        return;
      }
      ghost var mid, middle := clock, Acts(history);
      SendMessage();
      CarriedOn(world, server, from, mid, clock, before, middle, Acts(history), header, text, status);
      NeverGivenUp(world, server, from, clock, before, Acts(history), header + text, status);
    }

    // ----- pinging -----

    /** Polls the ready flag until TOTAL_SLEEP has passed, or a poll sees it. */
    method CheckServerAndSleep() returns (ready: bool, polls: nat)
      requires status == Running && handler == PingHandler && !transmissionActive && Faithful()
      modifies this`isReady, this`readyToProceed, this`status, this`history, this`clock
      ensures Faithful() && Acts(history) == old(Acts(history)) && readyToProceed == old(readyToProceed)
      ensures clock == old(clock) + polls && 1 <= polls <= TOTAL_SLEEP / SLEEP_TIME + 1
      ensures Unharmed(world, pid, old(clock), clock - 1)
      ensures status == if SelfSignalled(world, pid, clock - 1) then Failure else Running
      ensures status == Running ==> Unharmed(world, pid, old(clock), clock)
      ensures status == Running ==> isReady == ReadyAfter(world, server, old(isReady), old(clock), polls)
      ensures NeverReady(world, server, old(isReady), old(clock), polls)
      ensures ready == (status == Running && isReady)
      ensures !ready && status == Running ==> polls == TOTAL_SLEEP / SLEEP_TIME + 1
    {
      hide Recorded, AckPending, Acts, LastWord;
      var i := 0;
      polls, ready := 0, false;
      while i <= TOTAL_SLEEP
        invariant i == polls * SLEEP_TIME && polls <= TOTAL_SLEEP / SLEEP_TIME + 1 && !ready
        invariant status == Running && Faithful() && Acts(history) == old(Acts(history))
        invariant readyToProceed == old(readyToProceed) && clock == old(clock) + polls
        invariant isReady == ReadyAfter(world, server, old(isReady), old(clock), polls)
        invariant NeverReady(world, server, old(isReady), old(clock), polls + 1)
        invariant Unharmed(world, pid, old(clock), clock)
        decreases TOTAL_SLEEP + SLEEP_TIME - i
      {
        TakeSignals();
        polls := polls + 1;
        if status != Running {
          return;
        }
        if isReady {
          ready := true;
          return;
        }
        i := i + SLEEP_TIME;
      }
    }

    /** validate_process_exists and send_ping_signal. */
    method SendPing() returns (raised: bool)
      requires status == Running && Faithful()
      modifies this`history
      ensures Faithful() && raised == world(clock).reachable
      ensures Acts(history) == old(Acts(history)) + if raised then [Pinged] else []
    {
      hide AckPending, Earned, Reached, Acts, Heard, Moments, Incoming;
      raised := world(clock).reachable;
      if raised {
        Appended(history, Act(Pinged), server, world);
        history := history + [Act(Pinged)];
      }
    }

    /** attempt_ping: -1 exactly when the server cannot be signalled, 1 exactly when a poll saw the
        ready flag, and 0 otherwise, after a further delay in which the flag may still be set,
        unseen. */
    method AttemptPing() returns (result: int, polls: nat)
      requires status == Running && handler == PingHandler && !transmissionActive && Faithful()
      modifies this`isReady, this`readyToProceed, this`status, this`history, this`clock
      ensures Faithful() && readyToProceed == old(readyToProceed) && status != Success
      ensures Acts(history) == old(Acts(history)) + if world(old(clock)).reachable then [Pinged] else []
      ensures result in {-1, 0, 1} && (result == -1 <==> !world(old(clock)).reachable)
      ensures result == -1 ==> status == Running && clock == old(clock) && isReady == old(isReady)
      ensures result == 1 ==>
                && status == Running && isReady && clock == old(clock) + polls
                && 1 <= polls < ATTEMPT && ReadyAfter(world, server, old(isReady), old(clock), polls)
                && Unharmed(world, pid, old(clock), clock) && NeverReady(world, server, old(isReady), old(clock), polls)
      ensures result == 0 ==>
                && old(clock) < clock <= old(clock) + ATTEMPT
                && NeverReady(world, server, old(isReady), old(clock), clock - old(clock))
                && Unharmed(world, pid, old(clock), clock - 1)
                && status == (if SelfSignalled(world, pid, clock - 1) then Failure else Running)
                && (status == Running ==>
                      && polls == ATTEMPT - 1 && clock == old(clock) + ATTEMPT
                      && Unharmed(world, pid, old(clock), clock)
                      && isReady == ReadyAfter(world, server, old(isReady), old(clock), ATTEMPT))
    {
      hide Recorded, AckPending, Acts, LastWord, ReadyAfter, NeverReady, Unharmed;
      polls := 0;
      var raised := SendPing();
      if !raised {
        return -1, polls;
      }
      var ready;
      ready, polls := CheckServerAndSleep();
      if ready {
        return 1, polls;
      }
      if status == Running {
        AfterDelay(world, server, pid, old(isReady), old(clock), polls);
        TakeSignals();
      }
      return 0, polls;
    }

    /** handle_timeouts: at most RETRY_TIMES pings, fewer only when one succeeded, the server could not
        be signalled or the process ended; success exactly when some poll sees the ready flag, at the
        first one that does. */
    method HandleTimeouts() returns (ok: bool, attempts: nat, gone: bool)
      requires status == Running && handler == PingHandler && !isReady && !transmissionActive && Faithful()
      modifies this`isReady, this`readyToProceed, this`status, this`history, this`clock
      ensures Faithful() && status != Success && readyToProceed == old(readyToProceed) && old(clock) <= clock
      ensures attempts <= 20 && Acts(history) == old(Acts(history)) + Pings(attempts)
      ensures ok <==> EverSeen(world, server, pid, old(clock))
      ensures ok ==>
                && status == Running && isReady
                && SeenReady(world, server, pid, old(clock), clock - old(clock))
                && attempts == (clock - old(clock)) / ATTEMPT + 1
                && NotSeenBefore(world, server, pid, old(clock), clock - old(clock))
      ensures gone ==> !ok && attempts < 20 && clock == old(clock) + ATTEMPT * attempts && !world(clock).reachable
      ensures status == Failure ==> !ok && clock > old(clock) && SelfSignalled(world, pid, clock - 1)
      ensures !ok && !gone && status == Running ==> attempts == 20 && clock == old(clock) + 20 * ATTEMPT
    {
      hide Recorded, AckPending, Acts, SelfSignalled, ReadyAfter, Undisturbed, NeverReady, SeenReady, EverSeen,
           NotSeenBefore, Unharmed;
      attempts, ok, gone := 0, false, false;
      ghost var from := clock;
      NothingSeen(world, server, pid, from);
      assert Acts(history) + [] == Acts(history);
      while attempts < RETRY_TIMES
        invariant attempts <= RETRY_TIMES && status == Running && Faithful() && readyToProceed == old(readyToProceed)
        invariant Acts(history) == old(Acts(history)) + Pings(attempts) && !ok && !gone
        invariant clock == from + ATTEMPT * attempts && Undisturbed(world, pid, from, ATTEMPT * attempts)
        invariant isReady == ReadyAfter(world, server, false, from, ATTEMPT * attempts)
        invariant NotSeenBefore(world, server, pid, from, ATTEMPT * attempts)
      {
        ghost var start := clock;
        var result, polls := AttemptPing();
        if result == -1 {
          Remainder(attempts, start - from);
          NeverSeen(world, server, pid, from, start - from, start);
          gone := true;
          return;
        }
        NextPing(old(Acts(history)), attempts);
        attempts := attempts + 1;
        StillNotSeen(world, server, pid, from, attempts - 1, clock - start);
        if result == 0 && status == Failure {
          NeverSeen(world, server, pid, from, clock - from, clock - 1);
          return;
        }
        StillUndisturbed(world, pid, from, attempts - 1, clock - start);
        ReadyLater(world, server, false, from, start - from, clock - start);
        if result == 1 {
          FirstSeen(world, server, pid, from, attempts - 1, clock - start);
          ok := true;
          return;
        }
      }
      AttemptsUsedUp(world, server, pid, from);
    }

    /** ping: a clean record, then the attempts. */
    method Ping() returns (ok: bool, attempts: nat, gone: bool)
      requires status == Running && handler == PingHandler && Faithful()
      modifies this`isReady, this`readyToProceed, this`transmissionActive, this`currentClientPid,
               this`transmissionId, this`status, this`history, this`clock
      ensures Faithful() && status != Success && old(clock) <= clock
      ensures State() == Fresh(server).(isReady := isReady, status := status)
      ensures attempts <= 20 && Acts(history) == old(Acts(history)) + Pings(attempts)
      ensures ok <==> EverSeen(world, server, pid, old(clock))
      ensures ok ==>
                && status == Running && isReady
                && SeenReady(world, server, pid, old(clock), clock - old(clock))
                && attempts == (clock - old(clock)) / ATTEMPT + 1
                && NotSeenBefore(world, server, pid, old(clock), clock - old(clock))
      ensures gone ==> !ok && attempts < 20 && clock == old(clock) + ATTEMPT * attempts && !world(clock).reachable
      ensures status == Failure ==> !ok && clock > old(clock) && SelfSignalled(world, pid, clock - 1)
      ensures !ok && !gone && status == Running ==> attempts == 20 && clock == old(clock) + 20 * ATTEMPT
    {
      hide Recorded, AckPending, Acts, SelfSignalled, SeenReady, EverSeen, NotSeenBefore;
      isReady, readyToProceed, transmissionActive := false, false, false;
      currentClientPid, transmissionId := 0, 0;
      ok, attempts, gone := HandleTimeouts();
    }

    /** establish_connection: a probe of the server, then the pings; the process goes on exactly when
        some poll sees the ready flag. */
    method EstablishConnection() returns (attempts: nat)
      requires status == Running && handler == PingHandler && Faithful()
      modifies this`isReady, this`readyToProceed, this`transmissionActive, this`currentClientPid,
               this`transmissionId, this`status, this`history, this`clock
      ensures Faithful()
      ensures attempts <= RETRY_TIMES && Acts(history) == old(Acts(history)) + Pings(attempts)
      ensures status == if EverSeen(world, server, pid, old(clock)) then Running else Failure
      ensures status == Running ==>
                && State() == Fresh(server).(isReady := true) && old(clock) <= clock
                && SeenReady(world, server, pid, old(clock), clock - old(clock))
                && NotSeenBefore(world, server, pid, old(clock), clock - old(clock))
    {
      hide AckPending, Acts, Heard, Moments, Earned, Reached, Incoming, SeenReady, EverSeen, NotSeenBefore;
      if !world(clock).reachable {
        Unreachable(world, server, pid, clock);
        status, attempts := Failure, 0;
        return;
      }
      var ok, gone;
      ok, attempts, gone := Ping();
      if !ok {
        status := Failure;
      }
    }

    /** main: connect, then transmit. What went out is some pings and then, from the first moment at
        which the ready flag was seen, a prefix of the plan for the message. */
    method Run() returns (attempts: nat, start: nat, sent: seq<Action>)
      requires State() == Fresh(server) && clock == 0 && history == []
      modifies this
      ensures Faithful() && attempts <= RETRY_TIMES && Acts(history) == Pings(attempts) + sent
      ensures !EverSeen(world, server, pid, 0) ==> status == Failure && sent == []
      ensures EverSeen(world, server, pid, 0) ==>
                && SeenReady(world, server, pid, 0, start) && NotSeenBefore(world, server, pid, 0, start)
                && Carried(world, server, start, clock, [], sent, Paced(Wire(msg)), status)
                && GoesThrough(world, server, start, clock, status)
    {
      hide Wire, Paced, SeenReady, NotSeenBefore, EverSeen, Carried, GoesThrough, AckPending, Acts, Heard, Moments,
           Earned, Reached, Incoming;
      NothingRecorded(server, world);
      attempts := EstablishConnection();
      ghost var pings := Pings(attempts);
      assert [] + pings == pings;
      start, sent := clock, [];
      if status != Running {
        return;
      }
      PrepareTransmission();
      CarriedAfter(world, server, start, clock, pings, Acts(history), Paced(Wire(msg)), status);
      sent := Acts(history)[attempts..];
    }
  }

  lemma TextPlanStarts(msg: seq<byte>)
    ensures Paced(TextBits(msg[..0])) == []
  {
    assert msg[..0] == [];
  }

  lemma NothingTaken(ready: bool, server: Pid)
    ensures LastWord(ready, server, []) == ready
  {
  }

  lemma LastWordNext(ready: bool, server: Pid, arrivals: seq<(Signal, Pid)>, i: nat)
    requires i < |arrivals|
    ensures LastWord(ready, server, arrivals[..i + 1])
         == if arrivals[i].1 == server then arrivals[i].0 == SIGUSR1 else LastWord(ready, server, arrivals[..i])
  {
    assert arrivals[..i + 1][..i] == arrivals[..i];
  }

  lemma Members<T>(s: seq<T>, i: nat, x: T)
    requires i < |s|
    ensures x in s[..i + 1] <==> x in s[..i] || x == s[i]
  {
    assert s[..i + 1] == s[..i] + [s[i]];
  }

  lemma OneMore<T>(before: seq<T>, s: seq<T>, i: nat)
    requires i < |s|
    ensures (before + s[..i]) + [s[i]] == before + s[..i + 1]
  {
  }

  lemma Whole<T>(s: seq<T>, i: nat)
    requires i <= |s|
    ensures i == |s| ==> s[..i] == s
    ensures forall x :: x in s[..i] ==> x in s
  {
  }

  lemma Part<T>(before: seq<T>, s: seq<T>, i: nat)
    requires i <= |s|
    ensures before + s[..i] <= before + s
  {
  }

  lemma NextMoment(w: World, clock: nat)
    ensures Incoming(w, clock + 1) == Incoming(w, clock) + w(clock).arrivals
  {
  }
}
