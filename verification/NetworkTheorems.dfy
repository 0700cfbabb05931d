/** What holds in every run of the system. */
module NetworkTheorems {
  import opened Bits
  import opened Signals
  import opened ServerSpec
  import opened Network
  import opened NetworkProofs
  import C = ClientSpec

  /** The processes can take the steps one after the other from an initial state. */
  ghost predicate Feasible(net: Net, steps: seq<Step>)
    decreases |steps|, 0
  {
    if steps == [] then Init(net)
    else
      var n := |steps| - 1;
      Feasible(net, steps[..n]) && Able(After(net, steps[..n]), steps[n])
  }

  ghost function After(net: Net, steps: seq<Step>): (net': Net)
    requires Feasible(net, steps)
    ensures Valid(net'.server) && net'.clients.Keys == net.clients.Keys
    decreases |steps|, 1
  {
    if steps == [] then
      FreshStatesValid(0);
      net
    else
      var n := |steps| - 1;
      var before := After(net, steps[..n]);
      StepIsSafe(before, steps[n]);
      Apply(before, steps[n])
  }

  /** A run in which the environment is as assumed throughout. */
  ghost predicate Possible(net: Net, steps: seq<Step>): (possible: bool)
    ensures possible ==> Feasible(net, steps)
    decreases |steps|
  {
    && Feasible(net, steps)
    && (steps != [] ==>
          var n := |steps| - 1;
          Possible(net, steps[..n]) && Timely(After(net, steps[..n]), steps[n]))
  }

  lemma StepIsSafe(net: Net, step: Step)
    requires Valid(net.server) && Able(net, step)
    ensures Valid(Apply(net, step).server) && Apply(net, step).clients.Keys == net.clients.Keys
  {
    hide Valid, HandleSignal, C.Wire, C.Receive, Raise, SignalsTo;
    FreshStatesValid(0);
  }

  /** A run and one step more. */
  lemma Extend(net: Net, steps: seq<Step>, step: Step)
    requires Feasible(net, steps) && Able(After(net, steps), step)
    ensures Feasible(net, steps + [step]) && After(net, steps + [step]) == Apply(After(net, steps), step)
    ensures Possible(net, steps) && Timely(After(net, steps), step) ==> Possible(net, steps + [step])
  {
    hide Valid, Able, Timely, Apply, Init;
    assert (steps + [step])[..|steps|] == steps;
  }

  /** Every run keeps the invariant. */
  lemma {:induction false} RunKeeps(net: Net, steps: seq<Step>)
    requires Possible(net, steps)
    ensures Inv(After(net, steps)) && SameMessages(net, After(net, steps))
    decreases |steps|
  {
    hide Inv, Init, Able, Timely, Apply;
    if steps == [] {
      InitGood(net);
    } else {
      var n := |steps| - 1;
      var before := After(net, steps[..n]);
      RunKeeps(net, steps[..n]);
      StepKeeps(before, steps[n]);
      StepKeepsMessages(before, steps[n]);
    }
  }

  /** No step adds or removes a client or changes what it wants to send. */
  ghost predicate SameMessages(net: Net, net': Net) {
    && net'.self == net.self
    && net'.clients.Keys == net.clients.Keys
    && forall c :: c in net.clients ==> net'.clients[c].msg == net.clients[c].msg
  }

  lemma StepKeepsMessages(net: Net, step: Step)
    requires Valid(net.server) && Able(net, step)
    ensures SameMessages(net, Apply(net, step))
  {
    hide Valid, HandleSignal, C.Wire, C.Receive, C.IsTransmissionOwner, Raise, SignalsTo, CleanGlobal;
    StepIsSafe(net, step);
  }

  lemma InitGood(net: Net)
    requires Init(net)
    ensures Inv(net)
  {
    hide LowZero, ToBits, C.Wire;
    FreshStatesValid(0);
    forall c | c in net.clients ensures Good(ViewOf(net, c), net.self, c) {
      assert ViewOf(net, c) == View(net.clients[c], false, [], {}, []);
    }
  }

  function SentBits(pc: Pc): nat {
    match pc
    case Pinging => 0
    case Sending(k) => k
    case Waiting(k) => k
  }

  /** Delivery: in every run, with any number of clients, any interleaving, any loss of pending
      signals and signals from anybody, the server's session holds a prefix of its owner's wire, and whatever was printed
      for a client is that client's message, printed once. */
  lemma DeliverySafety(net: Net, steps: seq<Step>, c: Pid)
    requires Possible(net, steps) && c in net.clients
    ensures var now := After(net, steps);
            var msg := net.clients[c].msg;
            && (now.server.actualPid == c ==> Received(now.server) <= C.Wire(msg))
            && Texts(now.events, c) in {[], [msg]}
  {
    hide Valid, Received, C.Wire, Possible, Feasible, After;
    RunKeeps(net, steps);
    var now := After(net, steps);
    assert Good(ViewOf(now, c), now.self, c);
  }

  /** Agreement: a client that reports "Message was received" has had exactly its own whole message
      printed, and the server has let it go. */
  lemma Agreement(net: Net, steps: seq<Step>, c: Pid)
    requires Possible(net, steps) && c in net.clients
    ensures var now := After(net, steps);
            now.clients[c].state.status == C.Success ==>
              Texts(now.events, c) == [net.clients[c].msg] && now.server.actualPid != c
  {
    hide Valid, Received, C.Wire, Possible, Feasible, After;
    RunKeeps(net, steps);
    var now := After(net, steps);
    assert Good(ViewOf(now, c), now.self, c);
  }

  /** Lock-step: the owner is never more than one bit ahead of the server, and between the two at
      most one signal of the session is pending, so its own signals never merge. */
  lemma LockStep(net: Net, steps: seq<Step>, c: Pid)
    requires Possible(net, steps) && c in net.clients
    ensures var now := After(net, steps);
            var cl := now.clients[c];
            var v := ViewOf(now, c);
            now.server.actualPid == c ==>
            && |Received(now.server)| <= SentBits(cl.pc) <= |Received(now.server)| + 1
            && |v.flight| <= 1
            && (cl.state.status == C.Running ==> |v.flight| + |cl.inbox| <= 1)
  {
    hide Valid, Received, C.Wire, Possible, Feasible, After;
    RunKeeps(net, steps);
    var now := After(net, steps);
    assert Good(ViewOf(now, c), now.self, c);
    AtMostOne(now.clients[c].inbox, SIGUSR1);
    AtMostOne(now.clients[c].inbox, SIGUSR2);
  }

  lemma AtMostOne(inbox: set<Signal>, signal: Signal)
    ensures inbox <= {signal} ==> |inbox| <= 1
  {
    if inbox <= {signal} && inbox != {} {
      assert inbox == {signal};
    }
  }

  /** A client that is transmitting keeps the slot it took: the ownership checks never fail. */
  lemma OwnershipKept(net: Net, steps: seq<Step>, c: Pid)
    requires Possible(net, steps) && c in net.clients
    ensures var cl := After(net, steps).clients[c];
            cl.pc != Pinging ==> C.IsTransmissionOwner(cl.state, c)
  {
    hide Valid, Received, C.Wire, Possible, Feasible, After;
    RunKeeps(net, steps);
    var now := After(net, steps);
    assert Good(ViewOf(now, c), now.self, c);
  }

  // ----- signals from strangers -----

  /** A signal at a client from a process that is neither the server nor the client itself. */
  predicate FromStranger(step: Step) {
    step.Foreign? && step.p != step.c
  }

  function WithoutStrangers(steps: seq<Step>): seq<Step> {
    if steps == [] then []
    else
      var n := |steps| - 1;
      WithoutStrangers(steps[..n]) + (if FromStranger(steps[n]) then [] else [steps[n]])
  }

  /** Signals that strangers send to clients have no effect at all: without them, every run is a run
      with the same end. */
  lemma {:induction false} StrangersIgnored(net: Net, steps: seq<Step>)
    requires Possible(net, steps)
    ensures Possible(net, WithoutStrangers(steps))
    ensures After(net, WithoutStrangers(steps)) == After(net, steps)
    decreases |steps|
  {
    hide Inv, Init, Able, Timely, Apply, Possible, Feasible, After;
    if steps != [] {
      var n := |steps| - 1;
      LastStep(net, steps);
      StrangersIgnored(net, steps[..n]);
      if FromStranger(steps[n]) {
        assert WithoutStrangers(steps) == WithoutStrangers(steps[..n]);
        RunKeeps(net, steps[..n]);
        ForeignKeeps(After(net, steps[..n]), steps[n].c, steps[n].p, steps[n].signal);
      } else {
        Extend(net, WithoutStrangers(steps[..n]), steps[n]);
      }
    }
  }

  /** A run that is possible is one step more than a run that is. */
  lemma LastStep(net: Net, steps: seq<Step>)
    requires Possible(net, steps) && steps != []
    ensures var n := |steps| - 1;
      && Possible(net, steps[..n]) && Enabled(After(net, steps[..n]), steps[n])
      && Valid(After(net, steps[..n]).server)
      && After(net, steps) == Apply(After(net, steps[..n]), steps[n])
  {
    hide Able, Timely, Apply, Init, Valid;
  }

  // ----- what a client can tell -----

  /** A client that is still pinging has a session of its own exactly when it can see the ready
      reply: the flag is set, or the signal is pending. */
  lemma OwnSessionIff(net: Net, steps: seq<Step>, c: Pid)
    requires Possible(net, steps) && c in net.clients
    ensures var now := After(net, steps);
            var cl := now.clients[c];
            cl.pc == Pinging && cl.state.status == C.Running ==>
              (now.server.actualPid == c <==> cl.state.isReady || SIGUSR1 in cl.inbox)
  {
    hide Valid, Received, C.Wire, Possible, Feasible, After;
    RunKeeps(net, steps);
    var now := After(net, steps);
    assert Good(ViewOf(now, c), now.self, c);
  }

  /** A ping handled by the server opens a session or changes nothing exactly when its sender, still
      pinging, sees no ready reply; otherwise it is taken for a header bit. */
  lemma PingHarmlessIff(net: Net, steps: seq<Step>, c: Pid)
    requires Possible(net, steps) && c in net.clients
    ensures var now := After(net, steps);
            var cl := now.clients[c];
            cl.pc == Pinging && cl.state.status == C.Running ==>
              (HandleSignal(now.server, now.self, SIGUSR1, c).state
                 == (if now.server.actualPid == 0 then Accepted(c) else now.server)
               <==> !cl.state.isReady && SIGUSR1 !in cl.inbox)
  {
    hide Valid, Received, C.Wire, Possible, Feasible, After, Good;
    RunKeeps(net, steps);
    OwnSessionIff(net, steps, c);
    PingTaken(After(net, steps).server, net.self, c);
  }

  lemma PingTaken(s: ServerState, self: Pid, c: Pid)
    requires Valid(s) && c != 0 && c != self
    ensures HandleSignal(s, self, SIGUSR1, c).state == (if s.actualPid == 0 then Accepted(c) else s)
       <==> s.actualPid != c
  {
    if s.actualPid == c {
      hide HandleSignal, Received, Valid;
      OwnerSignal(s, self, SIGUSR1);
    } else {
      hide ProcessDataSignal, LowZero;
    }
  }
}
