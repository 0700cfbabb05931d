/** The clients of the network do what the client program does: send the wire of their message,
    each bit acknowledged before the next. */
module ClientRefinement {
  import opened Bits
  import opened Signals
  import opened ServerSpec
  import opened Network
  import opened NetworkTheorems
  import C = ClientSpec
  import P = ClientHistory

  lemma {:induction false} PacedAt(bits: seq<bool>, k: nat)
    requires k < |bits|
    ensures P.Paced(bits)[2 * k] == P.Raised(BitSignal(bits[k])) && P.Paced(bits)[2 * k + 1] == P.Acknowledged
  {
    if k < |bits| - 1 { PacedAt(bits[..|bits| - 1], k); }
  }

  /** What a step is to the main thread of `c`. */
  ghost function DoneBy(net: Net, step: Step, c: Pid): seq<P.Action>
    requires Valid(net.server) && Able(net, step) && c in net.clients
  {
    if step == SendBit(c) then [P.Raised(BitSignal(C.Wire(net.clients[c].msg)[net.clients[c].pc.sent]))]
    else if step == Resume(c) then [P.Acknowledged]
    else []
  }

  /** What the main thread of `c` has done in a run, once its pings were answered. */
  ghost function History(net: Net, steps: seq<Step>, c: Pid): seq<P.Action>
    requires Possible(net, steps) && c in net.clients
    decreases |steps|
  {
    if steps == [] then []
    else
      var n := |steps| - 1;
      assert c in After(net, steps[..n]).clients.Keys;
      History(net, steps[..n], c) + DoneBy(After(net, steps[..n]), steps[n], c)
  }

  function Progress(pc: Pc): nat {
    match pc
    case Pinging => 0
    case Sending(k) => 2 * k
    case Waiting(k) => if k == 0 then 0 else 2 * k - 1
  }

  /** One step of the network is at most one step of the program of `c`. */
  lemma StepIsProgress(net: Net, step: Step, c: Pid)
    requires Inv(net) && Enabled(net, step) && c in net.clients
    ensures c in Apply(net, step).clients
    ensures Advances(C.Wire(net.clients[c].msg), net.clients[c].pc, Apply(net, step).clients[c].pc, DoneBy(net, step, c))
  {
    CounterBounds(net, c);
    StepIsSafe(net, step);
    OwnSteps(net, step, c);
    DoneIs(net, step, c);
    hide Apply, Able, Timely, Inv, C.Wire, Valid, DoneBy, Advances;
    var pc, wire := net.clients[c].pc, C.Wire(net.clients[c].msg);
    if step == SendBit(c) {
      SendAdvances(wire, pc.sent);
    } else if step == Resume(c) {
      ResumeAdvances(wire, pc.sent);
    } else {
      NothingAdvances(wire, pc, Apply(net, step).clients[c].pc);
    }
  }

  /** What was done leads the plan from one program counter to the next. */
  ghost predicate Advances(wire: seq<bool>, before: Pc, after: Pc, done: seq<P.Action>) {
    var plan := P.Paced(wire);
    Progress(before) <= Progress(after) <= |plan| && done == plan[Progress(before)..Progress(after)]
  }

  lemma SendAdvances(wire: seq<bool>, k: nat)
    requires k < |wire|
    ensures Advances(wire, Sending(k), Waiting(k + 1), [P.Raised(BitSignal(wire[k]))])
  {
    hide P.Paced;
    SentSlice(wire, k);
  }

  lemma ResumeAdvances(wire: seq<bool>, k: nat)
    requires 0 < k <= |wire|
    ensures Advances(wire, Waiting(k), Sending(k), [P.Acknowledged])
  {
    hide P.Paced;
    AcknowledgedSlice(wire, k - 1);
  }

  lemma NothingAdvances(wire: seq<bool>, before: Pc, after: Pc)
    requires Progress(before) == Progress(after) <= 2 * |wire|
    ensures Advances(wire, before, after, [])
  {
    hide P.Paced;
  }

  lemma DoneIs(net: Net, step: Step, c: Pid)
    requires Valid(net.server) && Able(net, step) && c in net.clients
    ensures var pc, wire := net.clients[c].pc, C.Wire(net.clients[c].msg);
      step == SendBit(c) ==>
        pc.Sending? && pc.sent < |wire| && DoneBy(net, step, c) == [P.Raised(BitSignal(wire[pc.sent]))]
    ensures step == Resume(c) ==> DoneBy(net, step, c) == [P.Acknowledged]
    ensures step != SendBit(c) && step != Resume(c) ==> DoneBy(net, step, c) == []
  {
    hide Valid, C.Wire;
  }

  lemma SentSlice(bits: seq<bool>, k: nat)
    requires k < |bits|
    ensures P.Paced(bits)[2 * k..2 * k + 1] == [P.Raised(BitSignal(bits[k]))]
  {
    hide P.Paced;
    PacedAt(bits, k);
    Cell(P.Paced(bits), 2 * k);
  }

  lemma Cell<T>(s: seq<T>, i: nat)
    requires i < |s|
    ensures s[i..i + 1] == [s[i]]
  {
  }

  lemma AcknowledgedSlice(bits: seq<bool>, k: nat)
    requires k < |bits|
    ensures P.Paced(bits)[2 * k + 1..2 * k + 2] == [P.Acknowledged]
  {
    hide P.Paced;
    PacedAt(bits, k);
    Cell(P.Paced(bits), 2 * k + 1);
  }

  /** Only three steps move a client's program counter. */
  lemma OwnSteps(net: Net, step: Step, c: Pid)
    requires Valid(net.server) && Able(net, step) && c in net.clients
    ensures c in Apply(net, step).clients
    ensures var pc, next := net.clients[c].pc, Apply(net, step).clients[c].pc;
      && (step == SendBit(c) ==> pc.Sending? && pc.sent < |C.Wire(net.clients[c].msg)| && next == Waiting(pc.sent + 1))
      && (step == Resume(c) ==> pc.Waiting? && next == Sending(pc.sent))
      && (step == Begin(c) ==> pc == Pinging && next == Sending(0))
      && (step != SendBit(c) && step != Resume(c) && step != Begin(c) ==> next == pc)
  {
    hide Valid, HandleSignal, C.Wire, C.Receive, SignalsTo, Raise;
    if step != SendBit(c) && step != Resume(c) && step != Begin(c) {
      OtherSteps(net, step, c);
    }
  }

  lemma CounterBounds(net: Net, c: Pid)
    requires Inv(net) && c in net.clients
    ensures var pc, n := net.clients[c].pc, |C.Wire(net.clients[c].msg)|;
      Valid(net.server) && (pc.Sending? ==> pc.sent < n) && (pc.Waiting? ==> 0 < pc.sent <= n)
  {
    hide Valid, Received, C.Wire;
    assert Good(ViewOf(net, c), net.self, c);
  }

  lemma OtherSteps(net: Net, step: Step, c: Pid)
    requires Valid(net.server) && Able(net, step) && c in net.clients
    requires step != SendBit(c) && step != Resume(c) && step != Begin(c)
    ensures c in Apply(net, step).clients && Apply(net, step).clients[c].pc == net.clients[c].pc
  {
    hide Valid, HandleSignal, C.Wire, C.Receive, SignalsTo, Raise;
  }

  /** In every run, what a client has done is a prefix of the plan of the client program for its
      message, as long as its program counter says. */
  lemma {:induction false} ClientFollowsProgram(net: Net, steps: seq<Step>, c: Pid)
    requires Possible(net, steps) && c in net.clients
    ensures c in After(net, steps).clients
    ensures var plan := P.Paced(C.Wire(net.clients[c].msg));
            var progress := Progress(After(net, steps).clients[c].pc);
            progress <= |plan| && History(net, steps, c) == plan[..progress]
    decreases |steps|
  {
    hide Inv, Apply, Able, Timely, DoneBy, P.Paced, C.Wire, Valid, Init;
    if steps == [] {
      assert Init(net);
      InitPinging(net, c);
    } else {
      var n := |steps| - 1;
      var before := After(net, steps[..n]);
      ClientFollowsProgram(net, steps[..n], c);
      RunKeeps(net, steps[..n]);
      StepIsProgress(before, steps[n], c);
    }
  }

  lemma InitPinging(net: Net, c: Pid)
    requires Init(net) && c in net.clients
    ensures net.clients[c].pc == Pinging
  {
  }
}
