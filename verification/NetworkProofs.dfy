/** Every step of the system keeps the invariant. */
module NetworkProofs {
  import opened Bits
  import opened Signals
  import opened ServerSpec
  import opened Network
  import C = ClientSpec

  // ----- one signal at the server -----

  /** The handler answers only its sender (or nobody), prints only for it, and leaves the session
      of any other process alone. */
  ghost predicate Framed(s: ServerState, r: Outcome, from: Pid) {
    && (forall e :: e in r.events ==>
         (e.Sent? ==> e.target == from || e.target == 0) && (e.Printed? ==> e.owner == from))
    && (r.state.actualPid == s.actualPid || r.state.actualPid == 0 || r.state.actualPid == from)
    && (s.actualPid != 0 && s.actualPid != from ==> r.state == s)
  }

  lemma HandleFramed(s: ServerState, self: Pid, signal: Signal, from: Pid)
    requires Valid(s) && from != 0 && from != self
    ensures Framed(s, HandleSignal(s, self, signal, from), from)
  {
    var r := HandleSignal(s, self, signal, from);
    if s.actualPid == from {
      OwnerFramed(s, self, signal);
    }
  }

  lemma OwnerFramed(s: ServerState, self: Pid, signal: Signal)
    requires Valid(s) && s.actualPid != 0 && s.actualPid != self
    ensures Framed(s, HandleSignal(s, self, signal, s.actualPid), s.actualPid)
  {
    hide HandleSignal, Valid, Received, ToBits, TextBits;
    OwnerSignal(s, self, signal);
  }

  lemma {:induction false} TextsConcat(a: seq<Event>, b: seq<Event>, c: Pid)
    ensures Texts(a + b, c) == Texts(a, c) + Texts(b, c)
  {
    if a == [] {
      assert a + b == b;
    } else {
      assert (a + b)[1..] == a[1..] + b;
      TextsConcat(a[1..], b, c);
    }
  }

  lemma {:induction false} NoTexts(events: seq<Event>, c: Pid)
    requires forall e :: e in events && e.Printed? ==> e.owner != c
    ensures Texts(events, c) == []
  {
    if events != [] { NoTexts(events[1..], c); }
  }

  // ----- bits of an incomplete session -----

  /** A header that agrees with the wire announces the message's length. */
  lemma AnnouncedLength(size: nat, rest: seq<bool>, msg: seq<byte>, k: nat)
    requires size < Pow2(32) && |msg| <= C.MAX_INT
    requires k <= |C.Wire(msg)| && ToBits(size, 32) + rest == C.Wire(msg)[..k]
    ensures size == |msg| && rest == C.Wire(msg)[32..k]
  {
    hide ToBits, TextBits;
    Pow2Word();
    var wire := C.Wire(msg);
    assert k == 32 + |rest|;
    assert wire[..k][..32] == wire[..32] == ToBits(|msg|, 32);
    assert (ToBits(size, 32) + rest)[..32] == ToBits(size, 32);
    ToBitsInjective(size, |msg|, 32);
    assert (ToBits(size, 32) + rest)[32..] == rest;
    assert wire[..k][32..] == wire[32..k];
  }

  /** A session that is still running has not received the whole wire. */
  lemma StillShort(s: ServerState, msg: seq<byte>, k: nat)
    requires Valid(s) && 0 < |msg| <= C.MAX_INT
    requires k <= |C.Wire(msg)| && Received(s) == C.Wire(msg)[..k]
    ensures k < |C.Wire(msg)|
  {
    hide ToBits, TextBits, LowZero, Pow2;
    if s.gettingMsg {
      var rest := TextBits(s.buffer.content) + ToBits(s.charValue, 8)[..s.sigCount % 8];
      assert Received(s) == ToBits(s.sizeMessage, 32) + rest;
      Pow2Word();
      AnnouncedLength(s.sizeMessage, rest, msg, k);
      assert k == 32 + |rest|;
    }
  }

  /** A session that completes on the client's bits prints the client's message. */
  lemma CompletedText(size: nat, text: seq<byte>, msg: seq<byte>, k: nat)
    requires size <= MAX_MESSAGE && |text| == size && |msg| <= C.MAX_INT
    requires k <= |C.Wire(msg)| && ToBits(size, 32) + TextBits(text) == C.Wire(msg)[..k]
    ensures text == msg && k == |C.Wire(msg)|
  {
    hide ToBits, TextBits;
    Pow2Word();
    AnnouncedLength(size, TextBits(text), msg, k);
    assert k == |C.Wire(msg)|;
    assert C.Wire(msg)[32..k] == TextBits(msg);
    TextBitsInjective(text, msg);
  }

  /** A rejected header of a real client announced a message above the limit. */
  lemma RejectedLength(size: nat, msg: seq<byte>, k: nat)
    requires size < Pow2(32) && !ValidMessageSize(size) && 0 < |msg| <= C.MAX_INT
    requires k <= |C.Wire(msg)| && ToBits(size, 32) == C.Wire(msg)[..k]
    ensures k == 32 && |msg| > MAX_MESSAGE
  {
    hide ToBits, TextBits;
    assert ToBits(size, 32) + [] == ToBits(size, 32);
    AnnouncedLength(size, [], msg, k);
  }

  // ----- views -----

  lemma SameView(net: Net, net': Net, c: Pid)
    requires c in net.clients && Valid(net.server) && c in net'.clients
    requires net'.server == net.server && net'.inbox == net.inbox && net'.events == net.events
    ensures Valid(net'.server)
    ensures ViewOf(net', c) == ViewOf(net, c).(client := net'.clients[c])
  {
  }

  /** Raising a signal at the server changes the sender's flight only, and only by that signal. */
  lemma RaisedView(net: Net, net': Net, p: Pid, signal: Signal, c: Pid)
    requires c in net.clients && Valid(net.server) && c in net'.clients
    requires net'.server == net.server && net'.events == net.events
    requires net'.inbox == Raise(net.inbox, signal, p)
    ensures Valid(net'.server)
    ensures var flight := ViewOf(net, c).flight;
            var flight' := ViewOf(net', c).flight;
            && ViewOf(net', c) == ViewOf(net, c).(client := net'.clients[c], flight := flight')
            && (flight' == flight || (c == p && flight' == flight + {signal}))
  {
    hide Valid, Received;
    if signal !in net.inbox {
      var flight := ViewOf(net, c).flight;
      var flight' := ViewOf(net', c).flight;
      if c == p {
        assert flight' == flight + {signal};
      } else {
        assert flight' == flight;
      }
    }
  }

  // ----- the steps -----

  /** A step that leaves a client's view alone keeps it good. */
  lemma Unmoved(net: Net, net': Net, c: Pid)
    requires Inv(net) && c in net.clients && c in net'.clients && Valid(net'.server) && net'.self == net.self
    requires ViewOf(net', c) == ViewOf(net, c)
    ensures Good(ViewOf(net', c), net'.self, c)
  {
  }

  lemma PingKeeps(net: Net, c: Pid)
    requires Inv(net) && Enabled(net, Ping(c))
    ensures Inv(Apply(net, Ping(c)))
  {
    hide Valid, Received, GoodSending, GoodWaiting;
    var net' := Apply(net, Ping(c));
    forall d | d in net'.clients ensures Good(ViewOf(net', d), net.self, d) {
      RaisedView(net, net', c, SIGUSR1, d);
      var v, v' := ViewOf(net, d), ViewOf(net', d);
      if d != c {
        assert v' == v;
        Unmoved(net, net', d);
      } else {
        assert !v.owned && v.client.pc == Pinging;
        assert v'.flight <= {SIGUSR1};
        assert GoodPinging(v');
      }
    }
  }

  lemma StrayKeeps(net: Net, p: Pid, signal: Signal)
    requires Inv(net) && Enabled(net, Stray(p, signal))
    ensures Inv(Apply(net, Stray(p, signal)))
  {
    hide Valid, Received, Good;
    var net' := Apply(net, Stray(p, signal));
    forall d | d in net'.clients ensures Good(ViewOf(net', d), net.self, d) {
      RaisedView(net, net', p, signal, d);
      assert ViewOf(net', d) == ViewOf(net, d);
    }
  }

  lemma SendBitKeeps(net: Net, c: Pid)
    requires Inv(net) && Enabled(net, SendBit(c))
    ensures Inv(Apply(net, SendBit(c)))
  {
    hide Valid, Received, C.Wire, Good;
    var net' := Apply(net, SendBit(c));
    var k := net.clients[c].pc.sent;
    var signal := BitSignal(C.Wire(net.clients[c].msg)[k]);
    forall d | d in net'.clients ensures Good(ViewOf(net', d), net.self, d) {
      RaisedView(net, net', c, signal, d);
      var v, v' := ViewOf(net, d), ViewOf(net', d);
      if d != c {
        assert v' == v;
        Unmoved(net, net', d);
      } else {
        BitRaised(v, v', net.self, c, k, signal);
      }
    }
  }

  lemma BitRaised(v: View, v': View, self: Pid, c: Pid, k: nat, signal: Signal)
    requires Good(v, self, c) && v.client.state.status == C.Running && v.client.pc == Sending(k)
    requires k < |C.Wire(v.client.msg)| && signal == BitSignal(C.Wire(v.client.msg)[k])
    requires v' == v.(client := v.client.(pc := Waiting(k + 1)), flight := v'.flight)
    requires v'.flight == v.flight || v'.flight == v.flight + {signal}
    ensures Good(v', self, c)
  {
    hide GoodPinging, C.Wire;
    assert InFlight(v', k + 1);
  }

  /** A step of one client that touches nothing but its own process. */
  lemma LocalKeeps(net: Net, c: Pid, client: Client)
    requires Inv(net) && c in net.clients
    requires Good(ViewOf(net, c).(client := client), net.self, c)
    ensures Inv(Update(net, c, client))
  {
    hide Valid, Received, Good;
    var net' := Update(net, c, client);
    forall d | d in net'.clients ensures Good(ViewOf(net', d), net.self, d) {
      SameView(net, net', d);
      if d != c {
        assert ViewOf(net', d) == ViewOf(net, d);
      }
    }
  }

  lemma BeginKeeps(net: Net, c: Pid)
    requires Inv(net) && Enabled(net, Begin(c))
    ensures Inv(Apply(net, Begin(c)))
  {
    hide Valid, Received, C.Wire;
    var v := ViewOf(net, c);
    var cl := v.client.(state := C.Begin(v.client.state, c), pc := Sending(0));
    assert v.owned && v.received == [] && C.Wire(cl.msg)[..0] == [];
    assert GoodSending(v.(client := cl), 0);
    LocalKeeps(net, c, cl);
  }

  lemma ResumeKeeps(net: Net, c: Pid)
    requires Inv(net) && Enabled(net, Resume(c))
    ensures Inv(Apply(net, Resume(c)))
  {
    hide Valid, Received, C.Wire;
    var v := ViewOf(net, c);
    var k := v.client.pc.sent;
    var cl := v.client.(state := v.client.state.(readyToProceed := false), pc := Sending(k));
    assert v.owned && Acknowledged(v, k);
    assert GoodSending(v.(client := cl), k);
    LocalKeeps(net, c, cl);
  }

  lemma ExitKeeps(net: Net, c: Pid)
    requires Inv(net) && Enabled(net, Exit(c))
    ensures Inv(Apply(net, Exit(c)))
  {
    hide Valid, Received, C.Wire;
    var v := ViewOf(net, c);
    var cl := v.client.(state := v.client.state.(status := C.Failure));
    LocalKeeps(net, c, cl);
  }

  lemma DeliverKeeps(net: Net, c: Pid, signal: Signal)
    requires Inv(net) && Enabled(net, Deliver(c, signal))
    ensures Inv(Apply(net, Deliver(c, signal)))
  {
    hide Valid, Received, C.Wire;
    var v := ViewOf(net, c);
    var cl := v.client.(state := C.Receive(v.client.state, c, signal, net.self),
                        inbox := v.client.inbox - {signal});
    assert Good(v, net.self, c) && c != net.self;
    if v.client.pc == Pinging {
      assert GoodPinging(v.(client := cl));
    } else {
      assert v.client.pc.Waiting?;
      var k := v.client.pc.sent;
      assert GoodWaiting(v.(client := cl), k);
    }
    LocalKeeps(net, c, cl);
  }

  /** Whoever else signals a client that knows its server: nothing, or the end of the process. */
  lemma ForeignKeeps(net: Net, c: Pid, p: Pid, signal: Signal)
    requires Inv(net) && Enabled(net, Foreign(c, p, signal))
    ensures Inv(Apply(net, Foreign(c, p, signal)))
    ensures p != c ==> Apply(net, Foreign(c, p, signal)) == net
  {
    hide Valid, Received, C.Wire, C.Receive;
    var v := ViewOf(net, c);
    var cl := v.client.(state := C.Receive(v.client.state, c, signal, p));
    assert Good(v, net.self, c);
    C.OthersIgnored(v.client.state, c, signal, p);
    assert net.clients[c := net.clients[c]] == net.clients;
    LocalKeeps(net, c, cl);
  }

  lemma LoseKeeps(net: Net, c: Pid, signal: Signal)
    requires Inv(net) && Enabled(net, Lose(c, signal))
    ensures Inv(Apply(net, Lose(c, signal)))
  {
    hide Valid, Received, C.Wire;
    var v := ViewOf(net, c);
    var cl := v.client.(inbox := v.client.inbox - {signal});
    assert Good(v, net.self, c);
    if v.client.pc == Pinging {
      assert GoodPinging(v.(client := cl));
    } else {
      assert v.client.pc.Waiting?;
      assert GoodWaiting(v.(client := cl), v.client.pc.sent);
    }
    LocalKeeps(net, c, cl);
  }

  lemma ExpireKeeps(net: Net)
    requires Inv(net) && Enabled(net, Expire)
    ensures Inv(Apply(net, Expire))
  {
    hide Received, C.Wire, LowZero, Valid, HandleSignal, Texts;
    FreshStatesValid(0);
    var net' := Apply(net, Expire);
    assert net'.server == IDLE;
    forall d | d in net'.clients ensures Good(ViewOf(net', d), net.self, d) {
      var v, v' := ViewOf(net, d), ViewOf(net', d);
      if v.owned {
        assert v.flight == {};
        assert v' == v.(owned := false, received := []);
      } else {
        assert v' == v;
      }
    }
  }

  // ----- the server's handler -----

  /** A client that did not send the handled signal sees nothing of it. */
  lemma HandleOther(net: Net, signal: Signal, d: Pid)
    requires Inv(net) && Enabled(net, Handle(signal)) && d in net.clients && d != net.inbox[signal]
    ensures Valid(Apply(net, Handle(signal)).server)
    ensures ViewOf(Apply(net, Handle(signal)), d) == ViewOf(net, d)
  {
    hide Valid, Received, Good, HandleSignal;
    var from := net.inbox[signal];
    var r := HandleSignal(net.server, net.self, signal, from);
    var net' := Apply(net, Handle(signal));
    HandleFramed(net.server, net.self, signal, from);
    assert SignalsTo(r.events, d) == {};
    assert net'.clients[d] == net.clients[d];
    TextsConcat(net.events, r.events, d);
    NoTexts(r.events, d);
    assert ViewOf(net', d).flight == ViewOf(net, d).flight;
  }

  /** The sender's view after its signal was handled. */
  lemma HandleSender(net: Net, signal: Signal, r: Outcome)
    requires Inv(net) && Enabled(net, Handle(signal)) && net.inbox[signal] in net.clients
    requires r == HandleSignal(net.server, net.self, signal, net.inbox[signal])
    ensures var c := net.inbox[signal];
            var net' := Apply(net, Handle(signal));
            var v := ViewOf(net, c);
            && signal in v.flight
            && net'.clients.Keys == net.clients.Keys && Valid(net'.server)
            && ViewOf(net', c) == View(
                 if v.client.state.status == C.Running
                 then v.client.(inbox := v.client.inbox + SignalsTo(r.events, c)) else v.client,
                 r.state.actualPid == c,
                 if r.state.actualPid == c then Received(r.state) else [],
                 v.flight - {signal},
                 v.texts + Texts(r.events, c))
  {
    hide Valid, Received, Good, HandleSignal;
    var c := net.inbox[signal];
    var net' := Apply(net, Handle(signal));
    TextsConcat(net.events, r.events, c);
    assert ViewOf(net', c).flight == ViewOf(net, c).flight - {signal};
  }

  /** A ping: accepted when the server is idle, answered "busy" otherwise. */
  lemma PingHandled(net: Net, signal: Signal, c: Pid)
    requires Inv(net) && Enabled(net, Handle(signal)) && c == net.inbox[signal] && c in net.clients
    requires net.server.actualPid != c
    ensures Good(ViewOf(Apply(net, Handle(signal)), c), net.self, c)
  {
    hide Valid, C.Wire, HandleSignal, Texts, SignalsTo, Received, Inv, Apply, ViewOf, Good;
    HandledParts(net, signal, c);
    var r := HandleSignal(net.server, net.self, signal, c);
    var v := ViewOf(net, c);
    HandleSender(net, signal, r);
    PingingSender(v, net.self, c, signal);
    PingAnswer(net.server, net.self, signal, c);
    assert v.flight - {signal} == {};
    PingAnswered(v, ViewOf(Apply(net, Handle(signal)), c), net.self, c);
  }

  lemma HandledParts(net: Net, signal: Signal, c: Pid)
    requires Inv(net) && Enabled(net, Handle(signal)) && c == net.inbox[signal] && c in net.clients
    ensures Valid(net.server) && c != 0 && c != net.self && Good(ViewOf(net, c), net.self, c)
    ensures ViewOf(net, c).owned == (net.server.actualPid == c)
  {
    hide Valid, Good;
  }

  /** A client without a session whose signal is pending is pinging. */
  lemma PingingSender(v: View, self: Pid, c: Pid, signal: Signal)
    requires Good(v, self, c) && !v.owned && signal in v.flight
    ensures v.client.pc == Pinging && signal == SIGUSR1 && v.flight == {SIGUSR1} && v.texts == []
  {
    hide C.Wire;
    assert v.client.pc == Pinging;
  }

  /** The two answers to a ping leave the client pinging, as expected. */
  lemma PingAnswered(v: View, v': View, self: Pid, c: Pid)
    requires Good(v, self, c) && !v.owned && v.client.pc == Pinging && v.flight == {SIGUSR1}
    requires v'.flight == {} && v'.texts == [] && v'.client == v.client.(inbox := v'.client.inbox)
    requires v'.owned ==> v'.received == []
    requires v.client.state.status == C.Running ==>
      v'.client.inbox == v.client.inbox + (if v'.owned then {SIGUSR1} else {SIGUSR2})
    ensures Good(v', self, c)
  {
    hide C.Wire, GoodSending, GoodWaiting;
  }

  lemma PingAnswer(s: ServerState, self: Pid, signal: Signal, c: Pid)
    requires Valid(s) && c != 0 && c != self && s.actualPid != c
    ensures var r := HandleSignal(s, self, signal, c);
            && Texts(r.events, c) == []
            && (if s.actualPid == 0 then
                  r.state.actualPid == c && Received(r.state) == [] && SignalsTo(r.events, c) == {SIGUSR1}
                else
                  r.state.actualPid != c && SignalsTo(r.events, c) == {SIGUSR2})
  {
    hide LowZero, ToBits;
    var r := HandleSignal(s, self, signal, c);
    NoTexts(r.events, c);
    var answer := r.events[0];
    assert r.events == [answer];
    assert answer in r.events;
    assert SignalsTo(r.events, c) == {answer.signal};
  }

  /** An owner's signal pending at the server is the bit it is waiting for. */
  lemma PendingBit(v: View, self: Pid, c: Pid, signal: Signal)
    requires Good(v, self, c) && v.owned && signal in v.flight
    ensures v.client.pc.Waiting?
    ensures var k := v.client.pc.sent;
            && 0 < k <= |C.Wire(v.client.msg)| && InFlight(v, k)
            && signal == BitSignal(C.Wire(v.client.msg)[k - 1]) && v.flight == {signal}
  {
    hide C.Wire;
  }

  /** The three answers to the k-th bit leave the client waiting in one of the expected ways. */
  lemma BitAnswered(v: View, v': View, self: Pid, c: Pid, k: nat)
    requires Good(v, self, c) && v.client.pc == Waiting(k) && 0 < k <= |C.Wire(v.client.msg)| && InFlight(v, k)
    requires v'.flight == {} && v'.client.inbox >= v.client.inbox && v'.client == v.client.(inbox := v'.client.inbox)
    requires var replies := if v.client.state.status == C.Running then v'.client.inbox else {};
             var wire := C.Wire(v.client.msg);
             var running := v.client.state.status == C.Running;
             || (v'.owned && v'.received == wire[..k] && k < |wire| && v'.texts == []
                 && (running ==> replies == {SIGUSR2}))
             || (!v'.owned && k == |wire| && v'.texts == [v.client.msg] && (running ==> replies == {SIGUSR1}))
             || (!v'.owned && k == HEADER_SIZE && |v.client.msg| > MAX_MESSAGE && v'.texts == []
                 && (running ==> replies == {}))
    ensures Good(v', self, c)
  {
    hide C.Wire, GoodPinging, GoodSending;
    if v'.owned {
      assert Acknowledged(v', k);
    } else if v'.texts != [] {
      assert Finished(v', k);
    } else {
      assert TooLong(v', k);
    }
  }

  /** A data bit of the owner. */
  lemma BitHandled(net: Net, signal: Signal, c: Pid)
    requires Inv(net) && Enabled(net, Handle(signal)) && c == net.inbox[signal] && c in net.clients
    requires net.server.actualPid == c
    ensures Good(ViewOf(Apply(net, Handle(signal)), c), net.self, c)
  {
    hide Valid, C.Wire, HandleSignal, SignalsTo, Received, Texts, GoodPinging, GoodSending, GoodWaiting, Apply;
    var r := HandleSignal(net.server, net.self, signal, c);
    var v := ViewOf(net, c);
    HandleSender(net, signal, r);
    PendingBit(v, net.self, c, signal);
    BitAnswer(net.server, net.self, signal, v.client.msg, v.client.pc.sent);
    BitAnswered(v, ViewOf(Apply(net, Handle(signal)), c), net.self, c, v.client.pc.sent);
  }

  /** What the owner's k-th bit does: received, or the message is finished, or it is too long. */
  lemma BitAnswer(s: ServerState, self: Pid, signal: Signal, msg: seq<byte>, k: nat)
    requires Valid(s) && s.actualPid != 0 && s.actualPid != self && 0 < |msg| <= C.MAX_INT
    requires 0 < k <= |C.Wire(msg)| && Received(s) == C.Wire(msg)[..k - 1]
    requires signal == BitSignal(C.Wire(msg)[k - 1])
    ensures var c := s.actualPid;
            var r := HandleSignal(s, self, signal, c);
            || (r.state.actualPid == c && Received(r.state) == C.Wire(msg)[..k] && k < |C.Wire(msg)|
                && SignalsTo(r.events, c) == {SIGUSR2} && Texts(r.events, c) == [])
            || (r.state.actualPid == 0 && k == |C.Wire(msg)|
                && SignalsTo(r.events, c) == {SIGUSR1} && Texts(r.events, c) == [msg])
            || (r.state.actualPid == 0 && k == HEADER_SIZE && |msg| > MAX_MESSAGE
                && SignalsTo(r.events, c) == {} && Texts(r.events, c) == [])
  {
    hide Received, C.Wire, HandleSignal, LowZero, SignalsTo, Texts, ToBits, TextBits, ValidMessageSize;
    var c := s.actualPid;
    var r := HandleSignal(s, self, signal, c);
    var bit := BitValue(signal);
    assert C.Wire(msg)[..k] == Received(s) + [bit];
    OwnerSignal(s, self, signal);
    AnswerEvents(s, r, bit);
    if Continues(s, r, bit) {
      StillShort(r.state, msg, k);
    } else if Completes(s, r, bit) {
      var text: seq<byte> :|
        && |text| == s.sizeMessage
        && Received(s) + [bit] == ToBits(s.sizeMessage, HEADER_SIZE) + TextBits(text)
        && r.events == [Printed(c, text), Freed, Sent(c, SIGUSR1), Sent(0, SIGUSR2)];
      CompletedText(s.sizeMessage, text, msg, k);
    } else {
      var size: nat :|
        && size < Pow2(HEADER_SIZE)
        && !ValidMessageSize(size)
        && Received(s) + [bit] == ToBits(size, HEADER_SIZE);
      RejectedLength(size, msg, k);
    }
  }

  /** The signals and texts in the three kinds of answer. */
  lemma AnswerEvents(s: ServerState, r: Outcome, bit: bool)
    requires Valid(s) && Valid(r.state) && s.actualPid != 0
    ensures var c := s.actualPid;
            && (Continues(s, r, bit) ==> SignalsTo(r.events, c) == {SIGUSR2} && Texts(r.events, c) == [])
            && (Rejects(s, r, bit) ==> SignalsTo(r.events, c) == {} && Texts(r.events, c) == [])
    ensures forall text :: r.events == [Printed(s.actualPid, text), Freed, Sent(s.actualPid, SIGUSR1), Sent(0, SIGUSR2)] ==>
              SignalsTo(r.events, s.actualPid) == {SIGUSR1} && Texts(r.events, s.actualPid) == [text]
  {
    hide Received, Valid, ToBits, TextBits, ValidMessageSize, SignalsTo, Texts;
    var c := s.actualPid;
    if Continues(s, r, bit) {
      AckEvents(r.events, c, r.state.sizeMessage + 1);
    }
    if Rejects(s, r, bit) {
      OneSignal(0, SIGUSR2, c);
    }
    forall text | r.events == [Printed(c, text), Freed, Sent(c, SIGUSR1), Sent(0, SIGUSR2)]
      ensures SignalsTo(r.events, c) == {SIGUSR1} && Texts(r.events, c) == [text]
    {
      CompletionEvents(c, text);
    }
  }

  lemma OneSignal(target: Pid, signal: Signal, c: Pid)
    ensures Texts([Sent(target, signal)], c) == []
    ensures SignalsTo([Sent(target, signal)], c) == if target == c then {signal} else {}
  {
    var events := [Sent(target, signal)];
    NoTexts(events, c);
    assert events[0] in events;
    assert target == c ==> SignalsTo(events, c) == {signal};
    assert target != c ==> SignalsTo(events, c) == {};
  }

  lemma AckEvents(events: seq<Event>, c: Pid, size: nat)
    requires events in {[Sent(c, SIGUSR2)], [Allocated(size), Sent(c, SIGUSR2)]}
    ensures SignalsTo(events, c) == {SIGUSR2} && Texts(events, c) == []
  {
    NoTexts(events, c);
    assert events[|events| - 1] == Sent(c, SIGUSR2);
    assert Sent(c, SIGUSR2) in events;
  }

  lemma CompletionEvents(c: Pid, text: seq<byte>)
    requires c != 0
    ensures var events := [Printed(c, text), Freed, Sent(c, SIGUSR1), Sent(0, SIGUSR2)];
      SignalsTo(events, c) == {SIGUSR1} && Texts(events, c) == [text]
  {
    var events := [Printed(c, text), Freed, Sent(c, SIGUSR1), Sent(0, SIGUSR2)];
    assert events[2] in events;
    assert events[1..] == [Freed, Sent(c, SIGUSR1), Sent(0, SIGUSR2)];
    NoTexts(events[1..], c);
  }

  lemma HandleKeeps(net: Net, signal: Signal)
    requires Inv(net) && Enabled(net, Handle(signal))
    ensures Inv(Apply(net, Handle(signal)))
  {
    hide Valid, Received, Good, HandleSignal;
    var from := net.inbox[signal];
    var net' := Apply(net, Handle(signal));
    HandleFramed(net.server, net.self, signal, from);
    forall d | d in net'.clients ensures Good(ViewOf(net', d), net.self, d) {
      if d != from {
        HandleOther(net, signal, d);
        Unmoved(net, net', d);
      } else if net.server.actualPid == d {
        BitHandled(net, signal, d);
      } else {
        PingHandled(net, signal, d);
      }
    }
  }

  lemma StepKeeps(net: Net, step: Step)
    requires Inv(net) && Enabled(net, step)
    ensures Inv(Apply(net, step))
  {
    hide Inv, Enabled, Apply;
    match step
    case Ping(c) => PingKeeps(net, c);
    case Begin(c) => BeginKeeps(net, c);
    case SendBit(c) => SendBitKeeps(net, c);
    case Resume(c) => ResumeKeeps(net, c);
    case Deliver(c, signal) => DeliverKeeps(net, c, signal);
    case Foreign(c, p, signal) => ForeignKeeps(net, c, p, signal);
    case Lose(c, signal) => LoseKeeps(net, c, signal);
    case Exit(c) => ExitKeeps(net, c);
    case Stray(p, signal) => StrayKeeps(net, p, signal);
    case Handle(signal) => HandleKeeps(net, signal);
    case Expire => ExpireKeeps(net);
  }
}
