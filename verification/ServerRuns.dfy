/** Runs of the server: every interleaving of incoming signals with the monitor's polls. */
module ServerRuns {
  import opened Bits
  import opened Signals
  import opened ServerSpec

  const TIMEOUT: nat := 50_000

  /** The main thread: asleep between two polls of monitor_client_timeout, whose counter is `i`; past
      the last of them, about to clean up; or asleep in check_clean_status because no client is
      connected. Signals may arrive in each of these places. */
  datatype Monitor = Resting | Watching(i: nat) | Leaving

  datatype Action =
    | Arrive(signal: Signal, from: Pid)   // the handler runs
    | Poll                                // the main thread goes on

  datatype System = System(server: ServerState, monitor: Monitor)

  datatype Result = Result(system: System, events: seq<Event>)

  const INITIAL: System := System(IDLE, Resting)

  /** What the main thread does next, up to the next place where signals may arrive. */
  function Wake(x: System): (r: Result) {
    var s := x.server;
    match x.monitor
    case Resting =>
      Result(System(s, if s.actualPid == 0 then Resting else Watching(0)), [])
    case Watching(i) =>
      if s.actualPid == 0 then
        Result(System(s, Resting), [])
      else if s.clientActivity then
        Result(System(s.(clientActivity := false), Watching(0)), [])
      else if i + 1 < TIMEOUT then
        Result(System(s, Watching(i + 1)), [])
      else
        Result(System(s, Leaving), [])
    case Leaving =>
      if s.actualPid == 0 then
        Result(System(s, Resting), [])
      else
        var r := CleanGlobal(s);
        Result(System(r.state, Resting), r.events)
  }

  function Step(x: System, self: Pid, a: Action): (r: Result)
    requires Valid(x.server)
    ensures Valid(r.system.server)
  {
    match a
    case Arrive(signal, from) =>
      var r := HandleSignal(x.server, self, signal, from);
      Result(System(r.state, x.monitor), r.events)
    case Poll =>
      FreshStatesValid(0);
      Wake(x)
  }

  function Run(x: System, self: Pid, trace: seq<Action>): (r: Result)
    requires Valid(x.server)
    ensures Valid(r.system.server)
  {
    if trace == [] then Result(x, [])
    else
      var r := Run(x, self, trace[..|trace| - 1]);
      var t := Step(r.system, self, trace[|trace| - 1]);
      Result(t.system, r.events + t.events)
  }

  lemma {:induction false} RunConcat(x: System, self: Pid, a: seq<Action>, b: seq<Action>)
    requires Valid(x.server)
    ensures var r := Run(x, self, a);
            var t := Run(r.system, self, b);
            Run(x, self, a + b) == Result(t.system, r.events + t.events)
  {
    hide Step, Valid;
    if b == [] {
      assert a + b == a;
    } else {
      var n := |b| - 1;
      assert (a + b)[..|a + b| - 1] == a + b[..n];
      RunConcat(x, self, a, b[..n]);
    }
  }

  /** The signals that arrive during one sleep of the main thread. */
  function Arrivals(arrivals: seq<(Signal, Pid)>): (trace: seq<Action>)
    ensures |trace| == |arrivals|
  {
    seq(|arrivals|, k requires 0 <= k < |arrivals| => Arrive(arrivals[k].0, arrivals[k].1))
  }

  function NapAt(naps: seq<seq<(Signal, Pid)>>, k: nat): (nap: seq<(Signal, Pid)>)
    ensures k >= |naps| ==> nap == []
  {
    if k < |naps| then naps[k] else []
  }

  /** `n` polls of the monitor, each after the sleep before it. */
  function Schedule(naps: seq<seq<(Signal, Pid)>>, n: nat): seq<Action> {
    if n == 0 then [] else Schedule(naps, n - 1) + Arrivals(NapAt(naps, n - 1)) + [Poll]
  }

  lemma ScheduleStart(naps: seq<seq<(Signal, Pid)>>)
    ensures Schedule(naps, 0) == []
  {
  }

  lemma ScheduleNext(naps: seq<seq<(Signal, Pid)>>, k: nat)
    ensures Schedule(naps, k + 1) == Schedule(naps, k) + Arrivals(NapAt(naps, k)) + [Poll]
  {
  }

  lemma RunNothing(x: System, self: Pid)
    requires Valid(x.server)
    ensures Run(x, self, []) == Result(x, [])
  {
  }

  lemma OneMoreArrival(x: System, self: Pid, trace: seq<Action>, arrivals: seq<(Signal, Pid)>, k: nat)
    requires Valid(x.server) && k < |arrivals|
    ensures var r := Run(x, self, trace + Arrivals(arrivals[..k]));
            var t := HandleSignal(r.system.server, self, arrivals[k].0, arrivals[k].1);
            Run(x, self, trace + Arrivals(arrivals[..k + 1]))
            == Result(System(t.state, r.system.monitor), r.events + t.events)
  {
    hide HandleSignal, Valid;
    var u := trace + Arrivals(arrivals[..k]);
    assert (trace + Arrivals(arrivals[..k + 1])) == u + [Arrive(arrivals[k].0, arrivals[k].1)];
    assert (u + [Arrive(arrivals[k].0, arrivals[k].1)])[..|u|] == u;
  }

  lemma OneMoreWake(x: System, self: Pid, trace: seq<Action>)
    requires Valid(x.server)
    ensures var r := Run(x, self, trace);
            var t := Wake(r.system);
            Run(x, self, trace + [Poll]) == Result(t.system, r.events + t.events)
  {
    hide HandleSignal, Valid, Wake;
    assert (trace + [Poll])[..|trace|] == trace;
  }

  lemma WakeLeaving(s: ServerState)
    ensures Wake(System(s, Leaving)) ==
      if s.actualPid == 0 then Result(System(s, Resting), [])
      else Result(System(CleanGlobal(s).state, Resting), CleanGlobal(s).events)
  {
  }

  // ----- the heap -----

  datatype Heap = Empty | Block | Misused

  /** malloc while a block is held loses it; free or print without a block is an error. */
  function HeapStep(h: Heap, e: Event): Heap {
    match e
    case Sent(_, _) => h
    case Printed(_, _) => if h == Block then Block else Misused
    case Allocated(_) => if h == Empty then Block else Misused
    case Freed => if h == Block then Empty else Misused
  }

  function HeapAfter(h: Heap, events: seq<Event>): Heap
    decreases |events|
  {
    if events == [] then h else HeapAfter(HeapStep(h, events[0]), events[1..])
  }

  lemma {:induction false} HeapConcat(h: Heap, a: seq<Event>, b: seq<Event>)
    ensures HeapAfter(h, a + b) == HeapAfter(HeapAfter(h, a), b)
    decreases |a|
  {
    if a == [] {
      assert a + b == b;
    } else {
      assert (a + b)[1..] == a[1..] + b;
      HeapConcat(HeapStep(h, a[0]), a[1..], b);
    }
  }

  function HeapOf(s: ServerState): Heap {
    if s.buffer.Buffer? then Block else Empty
  }

  lemma HeapOneEvent(h: Heap, e: Event)
    ensures HeapAfter(h, [e]) == HeapStep(h, e)
  {
    assert [e][1..] == [];
    assert HeapAfter(HeapStep(h, e), [e][1..]) == HeapStep(h, e);
  }

  lemma HeapTwoEvents(h: Heap, d: Event, e: Event)
    ensures HeapAfter(h, [d, e]) == HeapStep(HeapStep(h, d), e)
  {
    assert [d, e][1..] == [e];
    HeapOneEvent(HeapStep(h, d), e);
  }

  lemma HeapAfterSignal(s: ServerState, self: Pid, signal: Signal, from: Pid)
    requires Valid(s)
    ensures var r := HandleSignal(s, self, signal, from);
            HeapAfter(HeapOf(s), r.events) == HeapOf(r.state)
  {
    var sender := Sender(s, from);
    var r := HandleSignal(s, self, signal, from);
    if sender != self {
      if s.actualPid == 0 || s.actualPid != sender {
        HeapOneEvent(HeapOf(s), r.events[0]);
      } else {
        assert r == HandleSignal(s, self, signal, s.actualPid);
        HeapAfterOwner(s, self, signal);
      }
    }
  }

  lemma HeapAfterOwner(s: ServerState, self: Pid, signal: Signal)
    requires Valid(s) && s.actualPid != 0 && s.actualPid != self
    ensures var r := HandleSignal(s, self, signal, s.actualPid);
            HeapAfter(HeapOf(s), r.events) == HeapOf(r.state)
  {
    hide HandleSignal, LowZero, Received, ToBits, TextBits;
    var r := HandleSignal(s, self, signal, s.actualPid);
    OwnerSignal(s, self, signal);
    if Continues(s, r, BitValue(signal)) {
      HeapContinues(s, self, signal);
    } else if Completes(s, r, BitValue(signal)) {
      var e := r.events;
      assert e == [e[0], e[1]] + [e[2], e[3]];
      HeapConcat(Block, [e[0], e[1]], [e[2], e[3]]);
      HeapTwoEvents(Block, e[0], e[1]);
      HeapTwoEvents(Empty, e[2], e[3]);
    } else {
      HeapOneEvent(Empty, r.events[0]);
    }
  }

  /** The buffer appears in the state exactly at the signal that allocates it. */
  lemma HeapContinues(s: ServerState, self: Pid, signal: Signal)
    requires Valid(s) && s.actualPid != 0 && s.actualPid != self
    requires Continues(s, HandleSignal(s, self, signal, s.actualPid), BitValue(signal))
    ensures var r := HandleSignal(s, self, signal, s.actualPid);
            HeapAfter(HeapOf(s), r.events) == HeapOf(r.state)
  {
    var s' := s.(clientActivity := true);
    var bit := BitValue(signal);
    OwnerStep(s, self, signal);
    hide HandleSignal, ProcessDataSignal, LowZero, OrBit, Received, ToBits, TextBits, Pow2, Assemble, HeapAfter,
         ValidMessageSize;
    var r := HandleSignal(s, self, signal, s.actualPid);
    if s.gettingMsg {
      BodyOutcome(s', bit);
    } else {
      HeaderOutcome(s', bit, if bit then OrBit(s.sizeMessage, HEADER_SIZE - 1 - s.sigCount) else s.sizeMessage);
    }
    if |r.events| == 1 {
      HeapOneEvent(HeapOf(s), r.events[0]);
    } else {
      HeapTwoEvents(HeapOf(s), r.events[0], r.events[1]);
    }
  }

  /** The handler on a signal of the owner. */
  lemma OwnerStep(s: ServerState, self: Pid, signal: Signal)
    requires Valid(s) && s.actualPid != 0 && s.actualPid != self
    ensures Valid(s.(clientActivity := true))
    ensures HandleSignal(s, self, signal, s.actualPid)
         == ProcessDataSignal(s.(clientActivity := true), BitSignal(BitValue(signal)))
  {
    hide ProcessDataSignal, LowZero, Pong;
  }

  /** Buffer conservation: over every run, blocks are allocated one at a time, printed only while
      held, freed exactly once, and the state points to a block exactly while one is held. */
  lemma {:induction false} BufferConservation(self: Pid, trace: seq<Action>)
    requires Valid(INITIAL.server)
    ensures var r := Run(INITIAL, self, trace);
            HeapAfter(Empty, r.events) == HeapOf(r.system.server)
  {
    hide HandleSignal, Valid;
    if trace != [] {
      var n := |trace| - 1;
      var r := Run(INITIAL, self, trace[..n]);
      BufferConservation(self, trace[..n]);
      var t := Step(r.system, self, trace[n]);
      HeapConcat(Empty, r.events, t.events);
      match trace[n]
      case Arrive(signal, from) => HeapAfterSignal(r.system.server, self, signal, from);
      case Poll =>
        if t.events != [] { HeapOneEvent(Block, Freed); }
    }
  }

  // ----- signals that are turned away -----

  /** The server's own signals, and those of any process but the owner while there is one. */
  predicate TurnedAway(s: ServerState, self: Pid, a: Action) {
    a.Arrive? &&
    var sender := Sender(s, a.from);
    sender == self || (s.actualPid != 0 && sender != s.actualPid)
  }

  /** The trace without the signals that the server turns away. */
  function Kept(x: System, self: Pid, trace: seq<Action>): seq<Action>
    requires Valid(x.server)
  {
    if trace == [] then []
    else
      var n := |trace| - 1;
      var x' := Run(x, self, trace[..n]).system;
      Kept(x, self, trace[..n]) + (if TurnedAway(x'.server, self, trace[n]) then [] else [trace[n]])
  }

  ghost predicate NeverTurnedAway(x: System, self: Pid, trace: seq<Action>, p: Pid)
    requires Valid(x.server)
  {
    forall k :: 0 <= k < |trace| && trace[k].Arrive? && trace[k].from == p ==>
      !TurnedAway(Run(x, self, trace[..k]).system.server, self, trace[k])
  }

  /** Non-interference: without the signals that are turned away, the run ends in the same state
      and prints and allocates the same things. */
  lemma {:induction false} NonInterference(x: System, self: Pid, trace: seq<Action>)
    requires Valid(x.server)
    ensures var r := Run(x, self, trace);
            var k := Run(x, self, Kept(x, self, trace));
            k.system == r.system && Internal(k.events) == Internal(r.events)
  {
    hide Step, TurnedAway, Valid, Internal;
    if trace != [] {
      var n := |trace| - 1;
      NonInterference(x, self, trace[..n]);
      var r := Run(x, self, trace[..n]);
      var t := Step(r.system, self, trace[n]);
      InternalConcat(r.events, t.events);
      var kept := Kept(x, self, trace[..n]);
      if TurnedAway(r.system.server, self, trace[n]) {
        TurnedAwayStep(r.system, self, trace[n], 1);
        assert Kept(x, self, trace) == kept;
      } else {
        assert (kept + [trace[n]])[..|kept|] == kept;
        InternalConcat(Run(x, self, kept).events, t.events);
      }
    }
  }

  /** Non-interference, seen from outside: a process none of whose signals was turned away gets
      the same replies whether or not the others' rejected signals ever arrived. */
  lemma {:induction false} SameReplies(x: System, self: Pid, trace: seq<Action>, p: Pid)
    requires Valid(x.server) && p != 0 && NeverTurnedAway(x, self, trace, p)
    ensures SentTo(Run(x, self, Kept(x, self, trace)).events, p) == SentTo(Run(x, self, trace).events, p)
  {
    hide Step, TurnedAway, Valid, SentTo;
    if trace != [] {
      var n := |trace| - 1;
      NeverBefore(x, self, trace, p);
      NonInterference(x, self, trace[..n]);
      SameReplies(x, self, trace[..n], p);
      var r := Run(x, self, trace[..n]);
      var t := Step(r.system, self, trace[n]);
      SentToConcat(r.events, t.events, p);
      var kept := Kept(x, self, trace[..n]);
      if TurnedAway(r.system.server, self, trace[n]) {
        TurnedAwayStep(r.system, self, trace[n], p);
        assert Kept(x, self, trace) == kept;
      } else {
        assert (kept + [trace[n]])[..|kept|] == kept;
        SentToConcat(Run(x, self, kept).events, t.events, p);
      }
    }
  }

  lemma NeverBefore(x: System, self: Pid, trace: seq<Action>, p: Pid)
    requires Valid(x.server) && trace != [] && NeverTurnedAway(x, self, trace, p)
    ensures NeverTurnedAway(x, self, trace[..|trace| - 1], p)
  {
    hide Run, TurnedAway;
    var n := |trace| - 1;
    forall k | 0 <= k < n && trace[..n][k].Arrive? && trace[..n][k].from == p
      ensures !TurnedAway(Run(x, self, trace[..n][..k]).system.server, self, trace[..n][k])
    {
      assert trace[..n][..k] == trace[..k];
    }
  }

  lemma TurnedAwayStep(x: System, self: Pid, a: Action, p: Pid)
    requires Valid(x.server) && p != 0 && TurnedAway(x.server, self, a)
    ensures var t := Step(x, self, a);
            && a.Arrive?
            && t.system == x
            && Internal(t.events) == []
            && (a.from != p ==> SentTo(t.events, p) == [])
  {
    var t := Step(x, self, a);
    if t.events != [] {
      assert t.events[1..] == [];
    }
  }

  // ----- the idle streak -----

  function Polls(trace: seq<Action>): (n: nat)
    ensures n <= |trace|
  {
    if trace == [] then 0
    else Polls(trace[..|trace| - 1]) + (if trace[|trace| - 1].Poll? then 1 else 0)
  }

  /** From position `k` on, every poll found a client connected but inactive, and every signal
      was turned away: none of the owner's was handled. */
  ghost predicate QuietFrom(self: Pid, trace: seq<Action>, k: nat) {
    Valid(INITIAL.server) &&
    forall j :: k <= j < |trace| ==>
      QuietAction(Run(INITIAL, self, trace[..j]).system.server, self, trace[j])
  }

  /** The monitor's counter is the length of the current quiet streak, in polls. */
  lemma {:induction false} CounterIsStreak(self: Pid, trace: seq<Action>)
    requires Valid(INITIAL.server)
    ensures var x := Run(INITIAL, self, trace).system;
            x.monitor.Watching? && x.server.actualPid != 0 && !x.server.clientActivity ==>
              exists k :: 0 <= k <= |trace| && QuietFrom(self, trace, k) && Polls(trace[k..]) == x.monitor.i
  {
    hide Step, Valid, QuietFrom;
    var x := Run(INITIAL, self, trace).system;
    if trace != [] && x.monitor.Watching? && x.server.actualPid != 0 && !x.server.clientActivity {
      var n := |trace| - 1;
      var before := Run(INITIAL, self, trace[..n]).system;
      CounterIsStreak(self, trace[..n]);
      SettledStep(before, self, trace[n]);
      if before.server.clientActivity || before.monitor.Resting? {
        assert trace[n + 1..] == [];
        QuietAtEnd(self, trace);
      } else {
        var k :| 0 <= k <= n && QuietFrom(self, trace[..n], k) && Polls(trace[..n][k..]) == before.monitor.i;
        ExtendQuiet(self, trace, k);
      }
    }
  }

  lemma QuietAtEnd(self: Pid, trace: seq<Action>)
    requires Valid(INITIAL.server)
    ensures QuietFrom(self, trace, |trace|)
  {
  }

  /** A step that leaves the client connected and inactive, and the monitor watching, either
      found it so, or restarted the count. */
  lemma SettledStep(x: System, self: Pid, a: Action)
    requires Valid(x.server)
    requires var y := Step(x, self, a).system;
             y.monitor.Watching? && y.server.actualPid != 0 && !y.server.clientActivity
    ensures var y := Step(x, self, a).system;
            if x.monitor.Resting? || x.server.clientActivity then
              y.monitor.i == 0
            else
              && x.monitor.Watching? && x.server.actualPid != 0
              && (if a.Poll? then y.monitor.i == x.monitor.i + 1
                  else TurnedAway(x.server, self, a) && y.monitor.i == x.monitor.i)
  {
    if a.Arrive? && !TurnedAway(x.server, self, a) {
      HandledSetsActivity(x.server, self, a.signal, a.from);
    }
  }

  lemma HandledSetsActivity(s: ServerState, self: Pid, signal: Signal, from: Pid)
    requires Valid(s) && !TurnedAway(s, self, Arrive(signal, from))
    ensures var s' := HandleSignal(s, self, signal, from).state;
            s'.clientActivity || s'.actualPid == 0
  {
  }

  /** What QuietFrom asks of one action in one state. */
  ghost predicate QuietAction(s: ServerState, self: Pid, a: Action) {
    if a.Poll? then s.actualPid != 0 && !s.clientActivity else TurnedAway(s, self, a)
  }

  lemma ExtendQuiet(self: Pid, trace: seq<Action>, k: nat)
    requires |trace| > 0 && k < |trace| && Valid(INITIAL.server)
    requires QuietFrom(self, trace[..|trace| - 1], k)
    requires QuietAction(Run(INITIAL, self, trace[..|trace| - 1]).system.server, self, trace[|trace| - 1])
    ensures QuietFrom(self, trace, k)
    ensures Polls(trace[k..]) == Polls(trace[..|trace| - 1][k..]) + (if trace[|trace| - 1].Poll? then 1 else 0)
  {
    hide Run, QuietAction;
    var n := |trace| - 1;
    forall j | k <= j < n
      ensures QuietAction(Run(INITIAL, self, trace[..j]).system.server, self, trace[j])
    {
      assert trace[..n][..j] == trace[..j] && trace[..n][j] == trace[j];
    }
    assert trace[k..][..|trace[k..]| - 1] == trace[..n][k..];
  }

  /** The monitor's last look was the action before position `m`, the last of TIMEOUT polls in a row
      that saw the client connected and inactive, with no signal of the owner handled since the
      first of them; only signals have come since. */
  ghost predicate LookedAway(self: Pid, trace: seq<Action>, m: int) {
    && 0 < m <= |trace| && (forall j :: m <= j < |trace| ==> trace[j].Arrive?)
    && exists k :: 0 <= k < m && QuietFrom(self, trace[..m], k) && Polls(trace[..m][k..]) >= TIMEOUT
  }

  ghost predicate HasLookedAway(self: Pid, trace: seq<Action>) {
    exists m :: LookedAway(self, trace, m)
  }

  lemma {:induction false} LeavingSince(self: Pid, trace: seq<Action>)
    requires Valid(INITIAL.server) && Run(INITIAL, self, trace).system.monitor.Leaving?
    ensures HasLookedAway(self, trace)
  {
    hide Step, Valid, QuietFrom, HandleSignal, Polls;
    assert trace != [];
    var n := |trace| - 1;
    var x := Run(INITIAL, self, trace[..n]).system;
    LeavingStep(x, self, trace[n]);
    if x.monitor.Leaving? {
      LeavingSince(self, trace[..n]);
      var m :| LookedAway(self, trace[..n], m);
      assert trace[..n][..m] == trace[..m];
      assert LookedAway(self, trace, m);
    } else {
      CounterIsStreak(self, trace[..n]);
      var k :| 0 <= k <= n && QuietFrom(self, trace[..n], k) && Polls(trace[..n][k..]) == x.monitor.i;
      ExtendQuiet(self, trace, k);
      assert trace[..n + 1] == trace;
      assert LookedAway(self, trace, n + 1);
    }
  }

  lemma LeavingStep(x: System, self: Pid, a: Action)
    requires Valid(x.server) && Step(x, self, a).system.monitor.Leaving?
    ensures if a.Arrive? then x.monitor.Leaving?
      else x.monitor.Watching? && x.server.actualPid != 0 && !x.server.clientActivity && x.monitor.i + 1 >= TIMEOUT
  {
    hide HandleSignal;
  }

  /** The action of the monitor that gives a session up comes after TIMEOUT quiet polls in a row.
      Signals handled between the last of them and the clean-up do not save the session. */
  lemma DiscardNeedsQuiet(self: Pid, trace: seq<Action>)
    requires Valid(INITIAL.server)
    requires trace != [] && trace[|trace| - 1].Poll?
    requires Run(INITIAL, self, trace[..|trace| - 1]).system.server.actualPid != 0
    requires Run(INITIAL, self, trace).system.server.actualPid == 0
    ensures HasLookedAway(self, trace[..|trace| - 1])
  {
    LeavingSince(self, trace[..|trace| - 1]);
  }

  /** Whatever arrives after the last poll, the clean-up leaves nobody connected: not the owner who
      has just sent a bit, nor a client accepted in the meantime. */
  lemma LateSignalsLost(x: System, self: Pid, arrivals: seq<(Signal, Pid)>)
    requires Valid(x.server) && x.monitor.Leaving?
    ensures Run(x, self, Arrivals(arrivals) + [Poll]).system.server.actualPid == 0
  {
    hide HandleSignal, Valid;
    var trace := Arrivals(arrivals);
    assert (trace + [Poll])[..|trace|] == trace;
    StillLeaving(x, self, arrivals);
  }

  lemma {:induction false} StillLeaving(x: System, self: Pid, arrivals: seq<(Signal, Pid)>)
    requires Valid(x.server)
    ensures Run(x, self, Arrivals(arrivals)).system.monitor == x.monitor
  {
    hide HandleSignal, Valid;
    if arrivals != [] {
      var n := |arrivals| - 1;
      StillLeaving(x, self, arrivals[..n]);
      assert Arrivals(arrivals)[..n] == Arrivals(arrivals[..n]);
    }
  }

  function Rests(n: nat): (polls: seq<Action>)
    ensures |polls| == n
  {
    seq(n, _ => Poll)
  }

  /** How often the monitor still goes on before a session is gone, when no more signals arrive. */
  function Patience(x: System): nat {
    if x.server.actualPid == 0 then 0
    else if x.monitor.Leaving? then 1
    else if x.monitor.Resting? then
      (if x.server.clientActivity then TIMEOUT + 3 else TIMEOUT + 2)
    else if x.server.clientActivity then TIMEOUT + 2
    else if x.monitor.i < TIMEOUT then TIMEOUT - x.monitor.i + 1
    else 2
  }

  /** Once signals stop, the monitor gives the session up: after exactly Patience steps of its own. */
  lemma {:induction false} QuietEnds(x: System, self: Pid, n: nat)
    requires Valid(x.server)
    ensures Run(x, self, Rests(n)).system.server.actualPid == 0 <==> n >= Patience(x)
    decreases n
  {
    hide Step, Valid, Patience;
    PatienceIsPositive(x);
    if n > 0 {
      var y := Step(x, self, Poll).system;
      assert Rests(n) == [Poll] + Rests(n - 1);
      RunConcat(x, self, [Poll], Rests(n - 1));
      assert Run(x, self, [Poll]).system == y by { assert [Poll][..0] == []; }
      QuietEnds(y, self, n - 1);
      PatienceStep(x, self);
    }
  }

  lemma PatienceIsPositive(x: System)
    ensures Patience(x) == 0 <==> x.server.actualPid == 0
  {
  }

  lemma PatienceStep(x: System, self: Pid)
    requires Valid(x.server)
    ensures var y := Step(x, self, Poll).system;
            if x.server.actualPid == 0 then Patience(y) == 0 else Patience(y) == Patience(x) - 1
  {
    hide Valid, HandleSignal;
  }
}
