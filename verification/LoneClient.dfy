/** One client, an idle server, and nobody who fails or interferes: the transmission always ends,
    in an exact number of steps and signals. */
module LoneClient {
  import opened Bits
  import opened Signals
  import opened ServerSpec
  import opened Network
  import opened NetworkProofs
  import opened NetworkTheorems
  import C = ClientSpec
  import P = ClientHistory

  ghost predicate Calm(step: Step) {
    !step.Exit? && !step.Stray? && !step.Foreign? && !step.Lose? && !step.Expire?
  }

  function WireLength(cl: Client): nat {
    |C.Wire(cl.msg)|
  }

  /** How far the transmission has come. */
  ghost function Rank(v: View): nat {
    var cl := v.client;
    if cl.state.status != C.Running then 4 * WireLength(cl) + 3
    else match cl.pc
      case Pinging =>
        if cl.state.isReady then 3
        else if SIGUSR1 in cl.inbox then 2
        else if SIGUSR1 in v.flight then 1
        else 0
      case Sending(k) => 4 * k + 4
      case Waiting(k) =>
        if !v.owned then 4 * WireLength(cl) + 2
        else if cl.state.readyToProceed then 4 * k + 3
        else if SIGUSR2 in cl.inbox then 4 * k + 2
        else 4 * k + 1
  }

  /** The acknowledgments and the SIGUSR1 replies that the server has sent to `c`. */
  ghost function Acks(events: seq<Event>, c: Pid): nat {
    multiset(events)[Sent(c, SIGUSR2)]
  }

  ghost function Confirmations(events: seq<Event>, c: Pid): nat {
    multiset(events)[Sent(c, SIGUSR1)]
  }

  /** No signal of the client was lost and no reply to it, and the server's replies are as many as
      the bits it has received. */
  ghost predicate Steady(v: View, acks: nat, confirmations: nat) {
    var cl := v.client;
    && |cl.msg| <= MAX_MESSAGE
    && cl.state.status != C.Failure
    && (cl.pc == Pinging && !v.owned ==> cl.inbox == {})
    && (cl.pc.Waiting? && v.owned && v.flight == {} ==>
          && 0 < cl.pc.sent <= WireLength(cl) && Acknowledged(v, cl.pc.sent)
          && (cl.state.status == C.Running ==> cl.inbox == if cl.state.readyToProceed then {} else {SIGUSR2}))
    && (cl.pc.Waiting? && !v.owned && cl.state.status == C.Running ==> cl.inbox == {SIGUSR1})
    && (if v.owned then acks == |v.received| && confirmations == 1
        else if cl.pc == Pinging then acks == 0 && confirmations == 0
        else acks == WireLength(cl) - 1 && confirmations == 2)
  }

  ghost predicate Alone(net: Net, c: Pid) {
    && Inv(net) && net.clients.Keys == {c}
    && (forall signal :: signal in net.inbox ==> net.inbox[signal] == c)
    && (net.server.actualPid == c || net.server == IDLE)
    && Steady(ViewOf(net, c), Acks(net.events, c), Confirmations(net.events, c))
  }

  ghost function RankOf(net: Net, c: Pid): nat
    requires Alone(net, c)
  {
    Rank(ViewOf(net, c))
  }

  lemma AloneInit(net: Net, c: Pid)
    requires Init(net) && net.clients.Keys == {c} && |net.clients[c].msg| <= MAX_MESSAGE
    ensures Alone(net, c) && RankOf(net, c) == 0
  {
    hide LowZero, ToBits, C.Wire, Good;
    InitGood(net);
    assert c in net.clients;
    assert ViewOf(net, c) == View(net.clients[c], false, [], {}, []);
  }

  lemma Parts(net: Net, c: Pid)
    requires Alone(net, c)
    ensures c in net.clients && c != 0 && c != net.self && net.self != 0
    ensures Valid(net.server) && Good(ViewOf(net, c), net.self, c)
    ensures ViewOf(net, c).client == net.clients[c]
    ensures forall signal :: signal in net.inbox <==> signal in ViewOf(net, c).flight
  {
    hide Valid, Good, Steady, Received;
    assert c in net.clients.Keys;
  }

  // ----- the steps of the client -----

  /** Each calm step is one step forward, except a ping repeated while the first is pending, which
      changes nothing. */
  lemma AloneStep(net: Net, c: Pid, step: Step)
    requires Alone(net, c) && Calm(step) && Enabled(net, step)
    ensures var net' := Apply(net, step);
            && Alone(net', c)
            && (RankOf(net', c) == RankOf(net, c) + 1 || (step == Ping(c) && net' == net))
  {
    hide Inv, Good, Steady, Rank, Enabled, Apply, Valid, Received;
    StepKeeps(net, step);
    ItsStep(net, c, step);
    match step
    case Ping(d) => AlonePing(net, c);
    case Begin(d) => AloneBegin(net, c);
    case SendBit(d) => AloneSend(net, c);
    case Resume(d) => AloneResume(net, c);
    case Deliver(d, signal) => AloneDeliver(net, c, signal);
    case Handle(signal) => AloneHandle(net, c, signal);
  }

  lemma ItsStep(net: Net, c: Pid, step: Step)
    requires net.clients.Keys == {c} && Enabled(net, step)
    ensures match step
            case Ping(d) => d == c
            case Begin(d) => d == c
            case SendBit(d) => d == c
            case Resume(d) => d == c
            case Deliver(d, _) => d == c
            case _ => true
  {
    match step
    case Ping(d) => assert d in net.clients.Keys;
    case Begin(d) => assert d in net.clients.Keys;
    case SendBit(d) => assert d in net.clients.Keys;
    case Resume(d) => assert d in net.clients.Keys;
    case Deliver(d, _) => assert d in net.clients.Keys;
    case _ =>
  }

  lemma AlonePing(net: Net, c: Pid)
    requires Alone(net, c) && Enabled(net, Ping(c)) && Inv(Apply(net, Ping(c)))
    ensures var net' := Apply(net, Ping(c));
            Alone(net', c) && (RankOf(net', c) == RankOf(net, c) + 1 || net' == net)
  {
    hide Valid, Received, C.Wire, GoodSending, GoodWaiting;
    var net' := Apply(net, Ping(c));
    var v := ViewOf(net, c);
    assert Good(v, net.self, c) && !v.owned;
    RaisedView(net, net', c, SIGUSR1, c);
    if SIGUSR1 !in net.inbox {
      assert SIGUSR1 in ViewOf(net', c).flight && SIGUSR1 !in v.flight;
    }
  }

  lemma AloneSend(net: Net, c: Pid)
    requires Alone(net, c) && Enabled(net, SendBit(c)) && Inv(Apply(net, SendBit(c)))
    ensures var net' := Apply(net, SendBit(c));
            Alone(net', c) && RankOf(net', c) == RankOf(net, c) + 1
  {
    hide Valid, Received, C.Wire, GoodPinging, GoodWaiting;
    var net' := Apply(net, SendBit(c));
    var v := ViewOf(net, c);
    assert Good(v, net.self, c) && v.owned && v.flight == {};
    var signal := BitSignal(C.Wire(v.client.msg)[v.client.pc.sent]);
    assert signal in net.inbox ==> signal in v.flight;
    RaisedView(net, net', c, signal, c);
    assert signal in ViewOf(net', c).flight;
  }

  /** A step inside the client's own process. */
  lemma AloneLocal(net: Net, c: Pid, client: Client)
    requires Alone(net, c) && Inv(Update(net, c, client))
    requires Steady(ViewOf(net, c).(client := client), Acks(net.events, c), Confirmations(net.events, c))
    ensures Alone(Update(net, c, client), c)
    ensures ViewOf(Update(net, c, client), c) == ViewOf(net, c).(client := client)
  {
    hide Inv, Steady, Valid, Received;
    Parts(net, c);
    SameView(net, Update(net, c, client), c);
  }

  lemma AloneBegin(net: Net, c: Pid)
    requires Alone(net, c) && Enabled(net, Begin(c)) && Inv(Apply(net, Begin(c)))
    ensures var net' := Apply(net, Begin(c));
            Alone(net', c) && RankOf(net', c) == RankOf(net, c) + 1
  {
    hide Valid, Received, C.Wire, GoodSending, GoodWaiting;
    var v := ViewOf(net, c);
    assert Good(v, net.self, c) && v.owned;
    AloneLocal(net, c, v.client.(state := C.Begin(v.client.state, c), pc := Sending(0)));
  }

  lemma AloneResume(net: Net, c: Pid)
    requires Alone(net, c) && Enabled(net, Resume(c))
    ensures var net' := Apply(net, Resume(c));
            Alone(net', c) && RankOf(net', c) == RankOf(net, c) + 1
  {
    hide Valid, Received, C.Wire, GoodSending, GoodPinging;
    ResumeKeeps(net, c);
    var v := ViewOf(net, c);
    assert Good(v, net.self, c) && v.owned;
    AloneLocal(net, c, v.client.(state := v.client.state.(readyToProceed := false), pc := Sending(v.client.pc.sent)));
  }

  lemma AloneDeliver(net: Net, c: Pid, signal: Signal)
    requires Alone(net, c) && Enabled(net, Deliver(c, signal)) && Inv(Apply(net, Deliver(c, signal)))
    ensures var net' := Apply(net, Deliver(c, signal));
            Alone(net', c) && RankOf(net', c) == RankOf(net, c) + 1
  {
    hide Inv, Valid, Received, C.Wire, Good, Steady, Rank;
    Parts(net, c);
    var v := ViewOf(net, c);
    var cl := v.client.(state := C.Receive(v.client.state, c, signal, net.self), inbox := v.client.inbox - {signal});
    AloneReceives(net, c, signal, v, cl);
    AloneLocal(net, c, cl);
  }

  lemma AloneReceives(net: Net, c: Pid, signal: Signal, v: View, cl: Client)
    requires Alone(net, c) && Enabled(net, Deliver(c, signal)) && v == ViewOf(net, c)
    requires cl == v.client.(state := C.Receive(v.client.state, c, signal, net.self),
                             inbox := v.client.inbox - {signal})
    ensures Steady(v.(client := cl), Acks(net.events, c), Confirmations(net.events, c))
    ensures Rank(v.(client := cl)) == Rank(v) + 1
  {
    hide Inv, Valid, Received, C.Wire, Good, Acks, Confirmations, Rank, Steady;
    Parts(net, c);
    if v.client.pc == Pinging {
      ReadyReceived(v, cl, net.self, c, signal, Acks(net.events, c), Confirmations(net.events, c));
    } else {
      ReplyReceived(v, cl, net.self, c, signal, Acks(net.events, c), Confirmations(net.events, c));
    }
  }

  lemma ReadyReceived(v: View, cl: Client, self: Pid, c: Pid, signal: Signal, acks: nat, confirmations: nat)
    requires Good(v, self, c) && c != self && v.client.pc == Pinging && Steady(v, acks, confirmations)
    requires v.client.state.status == C.Running && signal in v.client.inbox
    requires cl == v.client.(state := C.Receive(v.client.state, c, signal, self), inbox := v.client.inbox - {signal})
    ensures Steady(v.(client := cl), acks, confirmations) && Rank(v.(client := cl)) == Rank(v) + 1
  {
    hide C.Wire, GoodSending, GoodWaiting;
    assert v.owned && signal == SIGUSR1;
  }

  lemma ReplyReceived(v: View, cl: Client, self: Pid, c: Pid, signal: Signal, acks: nat, confirmations: nat)
    requires Good(v, self, c) && v.client.pc != Pinging && Steady(v, acks, confirmations)
    requires v.client.state.status == C.Running && signal in v.client.inbox
    requires cl == v.client.(state := C.Receive(v.client.state, c, signal, self), inbox := v.client.inbox - {signal})
    ensures Steady(v.(client := cl), acks, confirmations) && Rank(v.(client := cl)) == Rank(v) + 1
  {
    hide C.Wire, GoodPinging;
    assert v.client.pc.Waiting?;
    if v.owned {
      assert Acknowledged(v, v.client.pc.sent);
    }
  }

  // ----- the server's handler -----

  lemma AloneHandle(net: Net, c: Pid, signal: Signal)
    requires Alone(net, c) && Enabled(net, Handle(signal)) && Inv(Apply(net, Handle(signal)))
    ensures var net' := Apply(net, Handle(signal));
            Alone(net', c) && RankOf(net', c) == RankOf(net, c) + 1
  {
    hide Received, C.Wire, LowZero, Good, HandleSignal, Texts, SignalsTo, Steady, Rank, Inv, Valid, Apply, ViewOf,
         Acks, Confirmations, Answer;
    Parts(net, c);
    var from := net.inbox[signal];
    assert from == c;
    var r := HandleSignal(net.server, net.self, signal, c);
    AnsweredParts(net, signal);
    AnswerView(net, c, signal, r);
    SumsOf(net.events, r.events, c);
    if net.server.actualPid == c {
      AloneBit(net, c, signal, r);
    } else {
      AloneAccepted(net, c, signal, r);
    }
  }

  lemma AnsweredParts(net: Net, signal: Signal)
    requires Valid(net.server) && Able(net, Handle(signal))
    ensures var net' := Apply(net, Handle(signal));
            var r := HandleSignal(net.server, net.self, signal, net.inbox[signal]);
            && net'.server == r.state && net'.inbox == net.inbox - {signal} && net'.events == net.events + r.events
            && net'.self == net.self && net'.clients.Keys == net.clients.Keys
  {
    hide HandleSignal, Valid, SignalsTo;
  }

  /** The sender's view, as HandleSender describes it. */
  lemma AnswerView(net: Net, c: Pid, signal: Signal, r: Outcome)
    requires Inv(net) && Enabled(net, Handle(signal)) && net.inbox[signal] == c && c in net.clients
    requires r == HandleSignal(net.server, net.self, signal, c)
    ensures c in Apply(net, Handle(signal)).clients && Valid(Apply(net, Handle(signal)).server)
    ensures ViewOf(Apply(net, Handle(signal)), c) == Answer(ViewOf(net, c), r, signal, c)
  {
    hide Received, Good, HandleSignal, Texts, SignalsTo, Valid, Apply, ViewOf;
    HandleSender(net, signal, r);
    ViewClient(net, c);
  }

  lemma ViewClient(net: Net, c: Pid)
    requires c in net.clients && Valid(net.server)
    ensures ViewOf(net, c).client == net.clients[c]
  {
  }

  lemma SumsOf(a: seq<Event>, b: seq<Event>, c: Pid)
    ensures Acks(a + b, c) == Acks(a, c) + Acks(b, c)
    ensures Confirmations(a + b, c) == Confirmations(a, c) + Confirmations(b, c)
  {
  }

  /** The view that HandleSender describes. */
  ghost function Answer(v: View, r: Outcome, signal: Signal, c: Pid): View
    requires Valid(r.state)
  {
    View(if v.client.state.status == C.Running
         then v.client.(inbox := v.client.inbox + SignalsTo(r.events, c)) else v.client,
         r.state.actualPid == c,
         if r.state.actualPid == c then Received(r.state) else [],
         v.flight - {signal},
         v.texts + Texts(r.events, c))
  }

  lemma AloneAccepted(net: Net, c: Pid, signal: Signal, r: Outcome)
    requires Alone(net, c) && Enabled(net, Handle(signal)) && net.server.actualPid != c
    requires r == HandleSignal(net.server, net.self, signal, c)
    ensures r.state.actualPid == c
    ensures var v := ViewOf(net, c);
            var v' := Answer(v, r, signal, c);
            && Rank(v') == Rank(v) + 1
            && Steady(v', Acks(net.events, c) + Acks(r.events, c),
                      Confirmations(net.events, c) + Confirmations(r.events, c))
  {
    hide Valid, Received, C.Wire, HandleSignal, Texts, SignalsTo;
    var v := ViewOf(net, c);
    assert Good(v, net.self, c) && signal in v.flight;
    assert v.client.pc == Pinging && v.client.state.status == C.Running;
    PingAnswer(net.server, net.self, signal, c);
    PingCounts(net.self, signal, c);
  }

  lemma PingCounts(self: Pid, signal: Signal, c: Pid)
    requires Valid(IDLE) && c != 0 && c != self
    ensures HandleSignal(IDLE, self, signal, c) == Outcome(Accepted(c), [Sent(c, SIGUSR1)])
  {
  }

  lemma AloneBit(net: Net, c: Pid, signal: Signal, r: Outcome)
    requires Alone(net, c) && Enabled(net, Handle(signal)) && net.server.actualPid == c
    requires r == HandleSignal(net.server, net.self, signal, c)
    ensures r.state.actualPid == c || r.state == IDLE
    ensures var v := ViewOf(net, c);
            var v' := Answer(v, r, signal, c);
            && Rank(v') == Rank(v) + 1
            && Steady(v', Acks(net.events, c) + Acks(r.events, c),
                      Confirmations(net.events, c) + Confirmations(r.events, c))
  {
    hide Valid, Received, C.Wire, HandleSignal, Texts, SignalsTo, GoodSending, GoodPinging, GoodWaiting;
    var v := ViewOf(net, c);
    PendingBit(v, net.self, c, signal);
    var k := v.client.pc.sent;
    BitAnswer(net.server, net.self, signal, v.client.msg, k);
    BitCounts(net.server, net.self, signal);
    assert v.flight - {signal} == {};
    if r.state.actualPid == c {
      assert Acknowledged(Answer(v, r, signal, c), k);
    }
  }

  /** An owner's bit is acknowledged once, or its message confirmed once. */
  lemma BitCounts(s: ServerState, self: Pid, signal: Signal)
    requires Valid(s) && s.actualPid != 0 && s.actualPid != self
    ensures var c := s.actualPid;
            var r := HandleSignal(s, self, signal, c);
            && (r.state.actualPid == c || r.state == IDLE)
            && (r.state.actualPid == c ==> Acks(r.events, c) == 1 && Confirmations(r.events, c) == 0)
            && (Texts(r.events, c) != [] ==> Acks(r.events, c) == 0 && Confirmations(r.events, c) == 1)
  {
    hide HandleSignal, Valid, Received, ToBits, TextBits, Texts, ValidMessageSize, Acks, Confirmations;
    var c := s.actualPid;
    var r := HandleSignal(s, self, signal, c);
    var bit := BitValue(signal);
    OwnerSignal(s, self, signal);
    EventCounts(s, r, bit);
    if Continues(s, r, bit) || Rejects(s, r, bit) {
      NoTexts(r.events, c);
    }
  }

  lemma EventCounts(s: ServerState, r: Outcome, bit: bool)
    requires Valid(s) && Valid(r.state)
    ensures var c := s.actualPid;
            && (Continues(s, r, bit) ==> Acks(r.events, c) == 1 && Confirmations(r.events, c) == 0)
            && (c != 0 && Completes(s, r, bit) ==> Acks(r.events, c) == 0 && Confirmations(r.events, c) == 1)
  {
    hide Valid, Received, ToBits, TextBits, Acks, Confirmations;
    var c := s.actualPid;
    AckCounts(c, r.state.sizeMessage + 1);
    if c != 0 && Completes(s, r, bit) {
      var text :| r.events == [Printed(c, text), Freed, Sent(c, SIGUSR1), Sent(0, SIGUSR2)];
      CompletionCounts(c, text);
    }
  }

  lemma AckCounts(c: Pid, size: nat)
    ensures Acks([Sent(c, SIGUSR2)], c) == 1 && Confirmations([Sent(c, SIGUSR2)], c) == 0
    ensures Acks([Allocated(size), Sent(c, SIGUSR2)], c) == 1 && Confirmations([Allocated(size), Sent(c, SIGUSR2)], c) == 0
  {
  }

  lemma CompletionCounts(c: Pid, text: seq<byte>)
    requires c != 0
    ensures var events := [Printed(c, text), Freed, Sent(c, SIGUSR1), Sent(0, SIGUSR2)];
            Acks(events, c) == 0 && Confirmations(events, c) == 1
  {
  }

  // ----- the whole run -----

  /** A transmission that has not ended can go on, one step forward. */
  lemma AloneProgress(net: Net, c: Pid) returns (step: Step)
    requires Alone(net, c) && ViewOf(net, c).client.state.status == C.Running
    ensures Calm(step) && Enabled(net, step) && Apply(net, step) != net
  {
    hide Apply, Rank, Steady, Good, Valid, Received;
    step := AloneChoice(net, c);
    AloneStep(net, c, step);
    if step == Ping(c) { FirstPingMoves(net, c); }
  }

  lemma AloneChoice(net: Net, c: Pid) returns (step: Step)
    requires Alone(net, c) && ViewOf(net, c).client.state.status == C.Running
    ensures Calm(step) && Enabled(net, step)
    ensures step == Ping(c) ==> SIGUSR1 !in net.inbox
  {
    hide Inv, Apply, Rank, Valid, Received, C.Wire, Good, Steady;
    Parts(net, c);
    var v := ViewOf(net, c);
    if signal :| signal in net.inbox {
      step := Handle(signal);
    } else if signal :| signal in v.client.inbox {
      step := Deliver(c, signal);
    } else {
      assert v.flight == {} && v.client.inbox == {};
      NothingPending(v, net.self, c, Acks(net.events, c), Confirmations(net.events, c));
      step := match v.client.pc
        case Pinging => if v.client.state.isReady then Begin(c) else Ping(c)
        case Sending(_) => SendBit(c)
        case Waiting(_) => Resume(c);
    }
  }

  lemma NothingPending(v: View, self: Pid, c: Pid, acks: nat, confirmations: nat)
    requires Good(v, self, c) && Steady(v, acks, confirmations) && v.client.state.status == C.Running
    requires v.flight == {} && v.client.inbox == {}
    ensures v.client.pc.Waiting? ==> v.client.state.readyToProceed
    ensures v.client.pc.Sending? ==>
              C.IsTransmissionOwner(v.client.state, c) && v.client.pc.sent < |C.Wire(v.client.msg)|
  {
    hide C.Wire, GoodPinging;
  }

  lemma FirstPingMoves(net: Net, c: Pid)
    requires Valid(net.server) && Enabled(net, Ping(c)) && SIGUSR1 !in net.inbox
    ensures Apply(net, Ping(c)) != net
  {
    assert SIGUSR1 in Apply(net, Ping(c)).inbox;
  }

  /** The steps that changed something: all but the repeated pings. */
  ghost function Moves(net: Net, steps: seq<Step>): nat
    requires Possible(net, steps)
    decreases |steps|
  {
    if steps == [] then 0
    else
      var n := |steps| - 1;
      Moves(net, steps[..n]) + (if After(net, steps) == After(net, steps[..n]) then 0 else 1)
  }

  lemma {:induction false} LoneRank(net: Net, steps: seq<Step>, c: Pid)
    requires Possible(net, steps) && net.clients.Keys == {c} && |net.clients[c].msg| <= MAX_MESSAGE
    requires forall step :: step in steps ==> Calm(step)
    ensures Alone(After(net, steps), c) && RankOf(After(net, steps), c) == Moves(net, steps)
    decreases |steps|
  {
    hide Alone, Rank, Inv, Init, Able, Timely, Apply;
    if steps == [] {
      AloneInit(net, c);
    } else {
      var n := |steps| - 1;
      LoneRank(net, steps[..n], c);
      AloneStep(After(net, steps[..n]), c, steps[n]);
    }
  }

  /** The exact lossless run: whatever the order of events, a lone client's transmission of an
      n-byte message is stuck only when it has succeeded; it has then taken exactly
      4 * (32 + 8n) + 3 effective steps and 32 + 8n data signals, was acknowledged 31 + 8n times
      and confirmed once after the ready reply, the message is printed and the server is idle. */
  lemma LosslessRun(net: Net, steps: seq<Step>, c: Pid)
    requires Possible(net, steps) && net.clients.Keys == {c} && |net.clients[c].msg| <= MAX_MESSAGE
    requires forall step :: step in steps ==> Calm(step)
    ensures var now := After(net, steps);
            var bits := 32 + 8 * |net.clients[c].msg|;
            && Moves(net, steps) <= 4 * bits + 3
            && (now.clients[c].state.status == C.Running ==>
                  exists step :: Calm(step) && Enabled(now, step) && Apply(now, step) != now)
            && (now.clients[c].state.status != C.Running ==>
                  && now.clients[c].state.status == C.Success
                  && Moves(net, steps) == 4 * bits + 3
                  && SentBits(now.clients[c].pc) == bits
                  && Acks(now.events, c) == bits - 1 && Confirmations(now.events, c) == 2
                  && Texts(now.events, c) == [net.clients[c].msg]
                  && now.server == IDLE)
  {
    hide Valid, Received, After, Possible, Feasible, Apply, Enabled, Good, Rank;
    LoneRank(net, steps, c);
    RunKeeps(net, steps);
    var now := After(net, steps);
    RankBound(now, c);
    if now.clients[c].state.status == C.Running {
      var step := AloneProgress(now, c);
    } else {
      Agreement(net, steps, c);
    }
  }

  function PingCount(steps: seq<Step>): nat {
    if steps == [] then 0
    else PingCount(steps[..|steps| - 1]) + (if steps[|steps| - 1].Ping? then 1 else 0)
  }

  /** Before the first ping nothing can happen, and the first ping is not lost. */
  lemma FirstIsPing(net: Net, c: Pid, step: Step)
    requires Init(net) && Valid(net.server) && net.clients.Keys == {c} && Calm(step) && Enabled(net, step)
    ensures step.Ping? && Apply(net, step) != net
  {
    hide Valid, C.Wire, HandleSignal;
    ItsStep(net, c, step);
    assert c in net.clients;
    if step.Ping? { assert SIGUSR1 in Apply(net, step).inbox; }
  }

  /** Only repeated pings are not moves. */
  lemma {:induction false} StepsAreMovesOrPings(net: Net, steps: seq<Step>, c: Pid)
    requires Possible(net, steps) && net.clients.Keys == {c} && |net.clients[c].msg| <= MAX_MESSAGE
    requires forall step :: step in steps ==> Calm(step)
    ensures steps != [] ==> PingCount(steps) > 0 && |steps| <= Moves(net, steps) + PingCount(steps) - 1
    decreases |steps|
  {
    hide Alone, Rank, Inv, Init, Able, Timely, Apply;
    if steps != [] {
      var n := |steps| - 1;
      var before := After(net, steps[..n]);
      StepsAreMovesOrPings(net, steps[..n], c);
      if n == 0 {
        FirstIsPing(net, c, steps[0]);
      } else {
        LoneRank(net, steps[..n], c);
        AloneStep(before, c, steps[n]);
        RankTells(before, Apply(before, steps[n]), c);
      }
    }
  }

  lemma RankTells(net: Net, net': Net, c: Pid)
    requires Alone(net, c) && Alone(net', c)
    ensures RankOf(net', c) != RankOf(net, c) ==> net' != net
  {
  }

  /** With no more pings than a client sends, an undisturbed run has a longest length. */
  lemma RunLength(net: Net, steps: seq<Step>, c: Pid)
    requires Possible(net, steps) && net.clients.Keys == {c} && |net.clients[c].msg| <= MAX_MESSAGE
    requires (forall step :: step in steps ==> Calm(step)) && PingCount(steps) <= P.RETRY_TIMES
    ensures |steps| <= 4 * (32 + 8 * |net.clients[c].msg|) + 3 + (P.RETRY_TIMES - 1)
  {
    hide Valid, After, Possible, Feasible, Apply, Able, Timely, Moves, PingCount;
    LosslessRun(net, steps, c);
    StepsAreMovesOrPings(net, steps, c);
  }

  lemma OneStepMore(net: Net, steps: seq<Step>, step: Step)
    requires Possible(net, steps) && Enabled(After(net, steps), step)
    ensures Possible(net, steps + [step]) && After(net, steps + [step]) == Apply(After(net, steps), step)
    ensures Apply(After(net, steps), step) != After(net, steps) ==> Moves(net, steps + [step]) == Moves(net, steps) + 1
  {
    hide Valid, Able, Timely, Apply, Init, Feasible;
    Extend(net, steps, step);
    assert (steps + [step])[..|steps|] == steps;
  }

  /** Every undisturbed run can be continued to a successful end. */
  lemma {:induction false} CanFinish(net: Net, steps: seq<Step>, c: Pid) returns (all: seq<Step>)
    requires Possible(net, steps) && net.clients.Keys == {c} && |net.clients[c].msg| <= MAX_MESSAGE
    requires forall step :: step in steps ==> Calm(step)
    ensures Possible(net, all) && steps <= all && forall step :: step in all ==> Calm(step)
    ensures After(net, all).clients[c].state.status == C.Success
    decreases 4 * (32 + 8 * |net.clients[c].msg|) + 3 - Moves(net, steps)
  {
    hide Valid, After, Possible, Feasible, Apply, Able, Timely, Moves;
    LosslessRun(net, steps, c);
    var now := After(net, steps);
    if now.clients[c].state.status == C.Running {
      var step :| Calm(step) && Enabled(now, step) && Apply(now, step) != now;
      OneStepMore(net, steps, step);
      all := CanFinish(net, steps + [step], c);
    } else {
      all := steps;
    }
  }

  lemma RankBound(net: Net, c: Pid)
    requires Alone(net, c)
    ensures var v := ViewOf(net, c);
            && RankOf(net, c) <= 4 * WireLength(v.client) + 3
            && (v.client.state.status != C.Running ==>
                  RankOf(net, c) == 4 * WireLength(v.client) + 3 && !v.owned
                  && v.client.pc == Waiting(WireLength(v.client)))
  {
    hide Valid, Received, C.Wire, Inv;
    Parts(net, c);
  }
}
