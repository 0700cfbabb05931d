/** What a client process does and hears, moment by moment, and how its waits may end. */
module ClientHistory {
  import opened Bits
  import opened Signals
  import opened ClientSpec

  const MAX_TIMEOUT: nat := 50_000
  const RETRY_TIMES: nat := 20
  const MAX_SLOT_WAIT: nat := 60_000
  const TOTAL_SLEEP: nat := 1_000_000
  const SLEEP_TIME: nat := 10_000

  /** init_data refuses a server pid that is not positive. */
  type LivePid = p: Pid | p > 0 witness 1

  // ----- the surroundings -----

  /** A stretch of time between two looks of the main thread at its flags, a sleep as a rule:
      whether kill() reaches the server when it begins, and the signals that arrive in its course,
      each with its sender, in order. */
  datatype Moment = Moment(reachable: bool, arrivals: seq<(Signal, Pid)>)

  type World = nat -> Moment

  /** All signals of the first `clock` moments. */
  ghost function Incoming(w: World, clock: nat): seq<(Signal, Pid)> {
    if clock == 0 then [] else Incoming(w, clock - 1) + w(clock - 1).arrivals
  }

  predicate Confirmed(w: World, server: Pid, t: nat) {
    (SIGUSR1, server) in w(t).arrivals
  }

  predicate Acked(w: World, server: Pid, t: nat) {
    (SIGUSR2, server) in w(t).arrivals
  }

  predicate SelfSignalled(w: World, self: Pid, t: nat) {
    (SIGUSR1, self) in w(t).arrivals || (SIGUSR2, self) in w(t).arrivals
  }

  ghost predicate Unconfirmed(w: World, server: Pid, from: nat, to: int) {
    forall t :: from <= t < to ==> !Confirmed(w, server, t)
  }

  ghost predicate Silent(w: World, server: Pid, from: nat, to: int) {
    forall t :: from <= t < to ==> !Confirmed(w, server, t) && !Acked(w, server, t)
  }

  ghost predicate Unharmed(w: World, self: Pid, from: nat, to: int) {
    forall t :: from <= t < to ==> !SelfSignalled(w, self, t)
  }

  // ----- the history -----

  /** What the main thread does. */
  datatype Action =
    | Pinged
    | Raised(signal: Signal)      // a data bit: kill(server, signal)
    | Acknowledged                // wait_for_server_ack returns

  datatype Entry =
    | Act(action: Action)
    | Took(signal: Signal, from: Pid)   // the handler runs
    | Began                       // the data handler is installed
    | Passed                      // the end of a moment

  /** The main thread's part of a history. */
  function Acts(h: seq<Entry>): seq<Action> {
    if h == [] then []
    else
      var n := |h| - 1;
      Acts(h[..n]) + (if h[n].Act? then [h[n].action] else [])
  }

  /** The handler's part. */
  function Heard(h: seq<Entry>): seq<(Signal, Pid)> {
    if h == [] then []
    else
      var n := |h| - 1;
      Heard(h[..n]) + (if h[n].Took? then [(h[n].signal, h[n].from)] else [])
  }

  function Moments(h: seq<Entry>): nat {
    if h == [] then 0
    else
      var n := |h| - 1;
      Moments(h[..n]) + (if h[n].Passed? then 1 else 0)
  }

  /** An acknowledgment of the server has been taken and not yet used up. */
  predicate AckPending(h: seq<Entry>, server: Pid) {
    if h == [] then false
    else
      var n := |h| - 1;
      match h[n]
      case Act(Acknowledged) => false
      case Began => false
      case Took(signal, from) => (signal == SIGUSR2 && from == server) || AckPending(h[..n], server)
      case _ => AckPending(h[..n], server)
  }

  /** No wait for an acknowledgment has returned without one of its own. */
  predicate Earned(h: seq<Entry>, server: Pid) {
    if h == [] then true
    else
      var n := |h| - 1;
      Earned(h[..n], server) && (h[n] == Act(Acknowledged) ==> AckPending(h[..n], server))
  }

  /** Whatever was sent went out at a moment when the server could be reached. */
  predicate Reached(h: seq<Entry>, w: World) {
    if h == [] then true
    else
      var n := |h| - 1;
      && Reached(h[..n], w)
      && (h[n].Act? && h[n].action != Acknowledged ==> w(Moments(h[..n])).reachable)
  }

  lemma Appended(h: seq<Entry>, e: Entry, server: Pid, w: World)
    ensures Acts(h + [e]) == if e.Act? then Acts(h) + [e.action] else Acts(h)
    ensures Heard(h + [e]) == if e.Took? then Heard(h) + [(e.signal, e.from)] else Heard(h)
    ensures Moments(h + [e]) == Moments(h) + if e.Passed? then 1 else 0
    ensures AckPending(h + [e], server)
         == if e == Act(Acknowledged) || e == Began then false
            else (e == Took(SIGUSR2, server) || AckPending(h, server))
    ensures Earned(h + [e], server) == (Earned(h, server) && (e == Act(Acknowledged) ==> AckPending(h, server)))
    ensures Reached(h + [e], w)
         == (Reached(h, w) && (e.Act? && e.action != Acknowledged ==> w(Moments(h)).reachable))
  {
    assert (h + [e])[..|h|] == h;
  }

  /** The history is the one that belongs to these surroundings: all signals that arrived were
      taken, in order, as long as the process was running, acknowledgments were earned, and signals
      were raised only at a server that could be reached. */
  ghost predicate Recorded(h: seq<Entry>, server: Pid, w: World, clock: nat, status: Status) {
    && Moments(h) == clock
    && Heard(h) <= Incoming(w, clock) && (status == Running ==> Heard(h) == Incoming(w, clock))
    && Earned(h, server) && Reached(h, w)
  }

  lemma NothingRecorded(server: Pid, w: World)
    ensures Recorded([], server, w, 0, Running) && Acts([]) == []
  {
  }

  /** Every acknowledgment in a history is preceded, after the previous one and after the beginning
      of the transmission, by a SIGUSR2 of its own from the server. */
  lemma {:induction false} EachAckEarned(h: seq<Entry>, server: Pid, k: nat) returns (j: nat)
    requires Earned(h, server) && k < |h| && h[k] == Act(Acknowledged)
    ensures j < k && h[j] == Took(SIGUSR2, server)
    ensures forall i :: j < i < k ==> h[i] != Act(Acknowledged) && h[i] != Began
  {
    var n := |h| - 1;
    if k < n {
      j := EachAckEarned(h[..n], server, k);
    } else {
      j := LastAck(h[..n], server);
    }
  }

  lemma {:induction false} LastAck(h: seq<Entry>, server: Pid) returns (j: nat)
    requires AckPending(h, server)
    ensures j < |h| && h[j] == Took(SIGUSR2, server)
    ensures forall i :: j < i < |h| ==> h[i] != Act(Acknowledged) && h[i] != Began
  {
    var n := |h| - 1;
    if h[n] == Took(SIGUSR2, server) {
      j := n;
    } else {
      j := LastAck(h[..n], server);
    }
  }

  // ----- the plan of a transmission -----

  /** Sending `bits` under the stop-and-wait discipline: each one is acknowledged before the next. */
  function Paced(bits: seq<bool>): (plan: seq<Action>)
    ensures |plan| == 2 * |bits|
  {
    if bits == [] then []
    else Paced(bits[..|bits| - 1]) + Exchange(bits[|bits| - 1])
  }

  function Exchange(bit: bool): (plan: seq<Action>)
    ensures |plan| == 2
  {
    [Raised(if bit then SIGUSR2 else SIGUSR1), Acknowledged]
  }

  lemma {:induction false} PacedConcat(a: seq<bool>, b: seq<bool>)
    ensures Paced(a + b) == Paced(a) + Paced(b)
  {
    hide Exchange;
    if b == [] {
      assert a + b == a;
    } else {
      assert (a + b)[..|a + b| - 1] == a + b[..|b| - 1];
      PacedConcat(a, b[..|b| - 1]);
    }
  }

  lemma {:induction false} PacedPrefix(bits: seq<bool>, k: nat)
    requires k <= |bits|
    ensures Paced(bits[..k]) <= Paced(bits)
  {
    assert bits == bits[..k] + bits[k..];
    PacedConcat(bits[..k], bits[k..]);
  }

  lemma PacedNothing(bits: seq<bool>)
    ensures Paced(bits[..0]) == []
  {
  }

  lemma PacedNext(bits: seq<bool>, k: nat)
    requires k < |bits|
    ensures Paced(bits[..k + 1]) == Paced(bits[..k]) + Exchange(bits[k])
    ensures Paced(bits[..k + 1]) <= Paced(bits)
  {
    hide Exchange;
    assert bits[..k + 1][..k] == bits[..k];
    PacedPrefix(bits, k + 1);
  }

  lemma CharacterPlan(msg: seq<byte>, i: nat)
    requires i < |msg|
    ensures Paced(TextBits(msg[..i + 1])) == Paced(TextBits(msg[..i])) + Paced(ToBits(msg[i] as nat, 8))
  {
    hide ToBits, TextBits, Paced;
    assert msg[..i + 1] == msg[..i] + [msg[i]];
    TextBitsAppend(msg[..i], msg[i]);
    PacedConcat(TextBits(msg[..i]), ToBits(msg[i] as nat, 8));
  }

  lemma TextPlanPrefix(msg: seq<byte>, k: nat)
    requires k <= |msg|
    ensures Paced(TextBits(msg[..k])) <= Paced(TextBits(msg))
  {
    hide TextBits, Paced;
    TextBitsPrefix(msg, k);
    PacedPrefix(TextBits(msg), 8 * k);
  }

  function BitOf(action: Action): seq<bool> {
    if action.Raised? then [action.signal == SIGUSR2] else []
  }

  /** The bits put on the wire. */
  function BitsOf(actions: seq<Action>): seq<bool> {
    if actions == [] then [] else BitOf(actions[0]) + BitsOf(actions[1..])
  }

  lemma BitsOfCons(first: Action, rest: seq<Action>)
    ensures BitsOf([first] + rest) == BitOf(first) + BitsOf(rest)
  {
    assert ([first] + rest)[1..] == rest;
  }

  lemma {:induction false} BitsOfConcat(a: seq<Action>, b: seq<Action>)
    ensures BitsOf(a + b) == BitsOf(a) + BitsOf(b)
  {
    if a == [] {
      assert a + b == b;
    } else {
      hide BitsOf, BitOf;
      var first, rest := a[0], a[1..];
      calc {
        BitsOf(a + b);
        { assert a + b == [first] + (rest + b); }
        BitsOf([first] + (rest + b));
        { BitsOfCons(first, rest + b); BitsOfConcat(rest, b); }
        BitOf(first) + (BitsOf(rest) + BitsOf(b));
        (BitOf(first) + BitsOf(rest)) + BitsOf(b);
        { BitsOfCons(first, rest); assert a == [first] + rest; }
        BitsOf(a) + BitsOf(b);
      }
    }
  }

  lemma {:induction false} BitsOfPaced(bits: seq<bool>)
    ensures BitsOf(Paced(bits)) == bits
  {
    hide BitsOf, BitOf, Exchange;
    if bits == [] {
      BitsOfNothing();
    } else {
      var n := |bits| - 1;
      BitsOfPaced(bits[..n]);
      BitsOfConcat(Paced(bits[..n]), Exchange(bits[n]));
      BitsOfExchange(bits[n]);
      assert bits == bits[..n] + [bits[n]];
    }
  }

  lemma BitsOfNothing()
    ensures BitsOf([]) == []
  {
  }

  lemma BitsOfExchange(bit: bool)
    ensures BitsOf(Exchange(bit)) == [bit]
  {
    var first := Raised(if bit then SIGUSR2 else SIGUSR1);
    BitsOfCons(first, [Acknowledged]);
    BitsOfCons(Acknowledged, []);
    assert Exchange(bit) == [first] + [Acknowledged];
    assert [Acknowledged] == [Acknowledged] + [];
  }

  /** A client stopped anywhere in its plan has sent a prefix of its wire, and every bit but
      possibly the last was acknowledged. */
  lemma StoppedAnywhere(msg: seq<byte>, done: seq<Action>)
    requires done <= Paced(Wire(msg))
    ensures BitsOf(done) <= Wire(msg)
  {
    var plan := Paced(Wire(msg));
    assert plan == done + plan[|done|..];
    BitsOfConcat(done, plan[|done|..]);
    BitsOfPaced(Wire(msg));
  }

  // ----- how a wait and a transmission end -----

  /** A wait for the acknowledgment, from one moment to another. It ends with the first moment that
      brings news from the server; it is given up at the first one after MAX_TIMEOUT that does not
      bring the confirmation, even if it brings the acknowledgment. */
  ghost predicate Waited(w: World, server: Pid, from: nat, to: nat, ready: bool, status: Status) {
    if ready then to == from && status == Running
    else
      && from < to && Silent(w, server, from, to - 1)
      && match status
         case Success => to <= from + MAX_TIMEOUT + 1 && Confirmed(w, server, to - 1)
         case Running => to <= from + MAX_TIMEOUT && Acked(w, server, to - 1) && !Confirmed(w, server, to - 1)
         case Failure => to == from + MAX_TIMEOUT + 1 && !Confirmed(w, server, to - 1)
  }

  /** One bit: `acts` of raising the signal and getting the acknowledgment were done. */
  ghost predicate BitPassed(w: World, server: Pid, from: nat, to: nat, ready: bool, acts: int, status: Status) {
    if Confirmed(w, server, from) then to == from + 1 && acts == 0 && status == Success
    else if !w(from + 1).reachable then to == from + 1 && acts == 0 && status == Failure
    else if Confirmed(w, server, from + 1) then to == from + 2 && acts == 1 && status == Success
    else
      && Waited(w, server, from + 2, to, ready || Acked(w, server, from) || Acked(w, server, from + 1), status)
      && acts == if status == Running then 2 else 1
  }

  /** Why a transmission ended, with that many acts done since it began: success only by the
      server's confirmation, at once; failure only because the next bit could not be sent, or
      because its acknowledgment did not come in MAX_TIMEOUT moments. */
  ghost predicate EndCause(w: World, server: Pid, from: nat, to: nat, acts: int, status: Status) {
    && from <= to
    && match status
       case Running => Unconfirmed(w, server, from, to)
       case Success => from < to && Confirmed(w, server, to - 1) && Unconfirmed(w, server, from, to - 1)
       case Failure =>
         && Unconfirmed(w, server, from, to)
         && (if acts % 2 == 0 then !w(to).reachable
             else from + MAX_TIMEOUT + 1 <= to && Silent(w, server, to - MAX_TIMEOUT - 1, to - 1))
  }

  lemma BitEnds(w: World, server: Pid, from: nat, to: nat, ready: bool, acts: int, status: Status)
    requires BitPassed(w, server, from, to, ready, acts, status)
    ensures EndCause(w, server, from, to, acts, status)
  {
    hide Confirmed, Acked;
  }

  lemma CausesChain(w: World, server: Pid, from: nat, mid: nat, to: nat, before: int, after: int, status: Status)
    requires EndCause(w, server, from, mid, before, Running) && before % 2 == 0
    requires EndCause(w, server, mid, to, after, status)
    ensures EndCause(w, server, from, to, before + after, status)
  {
    hide Confirmed, Acked;
  }

  /** An acknowledgment or the confirmation comes in time for a wait that begins at `from`. */
  ghost predicate AnswersIn(w: World, server: Pid, from: nat) {
    !Silent(w, server, from, from + MAX_TIMEOUT)
  }

  /** From some moment on the server can always be reached and always answers in time. */
  ghost predicate Responsive(w: World, server: Pid, from: nat) {
    && (forall t: nat :: from <= t ==> w(t).reachable)
    && (forall t: nat :: from <= t ==> AnswersIn(w, server, t))
  }

  /** A part of the transmission, from one moment to another: the main thread, which had done
      `before`, has followed `plan`, all of it, or up to the point where the process ended. */
  ghost predicate Carried(w: World, server: Pid, from: nat, to: nat,
                          before: seq<Action>, done: seq<Action>, plan: seq<Action>, status: Status) {
    && before <= done <= before + plan
    && (status == Running ==> done == before + plan)
    && EndCause(w, server, from, to, |done| - |before|, status)
  }

  lemma NothingCarried(w: World, server: Pid, from: nat, before: seq<Action>)
    ensures Carried(w, server, from, from, before, before, [], Running)
  {
    assert before + [] == before;
  }

  lemma BitCarried(w: World, server: Pid, from: nat, to: nat, ready: bool,
                   before: seq<Action>, done: seq<Action>, bit: bool, acts: nat, status: Status)
    requires BitPassed(w, server, from, to, ready, acts, status) && acts <= 2
    requires done == before + Exchange(bit)[..acts]
    ensures Carried(w, server, from, to, before, done, Exchange(bit), status)
  {
    hide EndCause, Exchange, Confirmed, Acked, Silent;
    BitEnds(w, server, from, to, ready, acts, status);
    Prefixes(before, Exchange(bit), acts);
  }

  lemma Prefixes<T>(before: seq<T>, plan: seq<T>, n: nat)
    requires n <= |plan|
    ensures before + plan[..n] <= before + plan
    ensures n == |plan| ==> plan[..n] == plan
  {
  }

  /** One part after the other. */
  lemma CarriedOn(w: World, server: Pid, from: nat, mid: nat, to: nat, before: seq<Action>, middle: seq<Action>,
                  done: seq<Action>, first: seq<Action>, second: seq<Action>, status: Status)
    requires Carried(w, server, from, mid, before, middle, first, Running) && |first| % 2 == 0
    requires Carried(w, server, mid, to, middle, done, second, status)
    ensures Carried(w, server, from, to, before, done, first + second, status)
  {
    hide EndCause;
    CausesChain(w, server, from, mid, to, |middle| - |before|, |done| - |middle|, status);
    assert before + (first + second) == middle + second;
  }

  /** What ended early ended early in any longer plan. */
  lemma EndedWithin(w: World, server: Pid, from: nat, to: nat, before: seq<Action>, done: seq<Action>,
                    part: seq<Action>, plan: seq<Action>, status: Status)
    requires Carried(w, server, from, to, before, done, part, status) && status != Running && part <= plan
    ensures Carried(w, server, from, to, before, done, plan, status)
  {
    hide EndCause;
    assert before + part <= before + plan;
  }

  /** A responsive server is never given up; if it sends no confirmation either, the transmission
      goes through. */
  ghost predicate GoesThrough(w: World, server: Pid, from: nat, to: nat, status: Status) {
    Responsive(w, server, from) ==>
      status != Failure && (Unconfirmed(w, server, from, to) ==> status == Running)
  }

  lemma NeverGivenUp(w: World, server: Pid, from: nat, to: nat, before: seq<Action>, done: seq<Action>,
                     plan: seq<Action>, status: Status)
    requires Carried(w, server, from, to, before, done, plan, status)
    ensures GoesThrough(w, server, from, to, status)
  {
    hide Confirmed, Acked, Silent;
    if Responsive(w, server, from) && from + MAX_TIMEOUT + 1 <= to {
      assert AnswersIn(w, server, to - MAX_TIMEOUT - 1);
    }
  }

  /** The part of what was done after something else. */
  lemma CarriedAfter(w: World, server: Pid, from: nat, to: nat, before: seq<Action>, done: seq<Action>,
                     plan: seq<Action>, status: Status)
    requires Carried(w, server, from, to, before, done, plan, status)
    ensures |before| <= |done| && done == before + done[|before|..]
    ensures Carried(w, server, from, to, [], done[|before|..], plan, status)
  {
    hide EndCause;
    assert [] + plan == plan && (before + plan)[|before|..] == plan;
  }

  // ----- what a pinging client sees -----

  function Pings(n: nat): (pings: seq<Action>)
    ensures |pings| == n && forall i :: 0 <= i < n ==> pings[i] == Pinged
  {
    if n == 0 then [] else Pings(n - 1) + [Pinged]
  }

  lemma NextPing(before: seq<Action>, n: nat)
    ensures (before + Pings(n)) + [Pinged] == before + Pings(n + 1)
  {
  }

  /** The ready flag after these signals: the server's last word. */
  function LastWord(ready: bool, server: Pid, arrivals: seq<(Signal, Pid)>): bool {
    if arrivals == [] then ready
    else
      var n := |arrivals| - 1;
      if arrivals[n].1 == server then arrivals[n].0 == SIGUSR1
      else LastWord(ready, server, arrivals[..n])
  }

  /** The ready flag after `n` moments. */
  function ReadyAfter(w: World, server: Pid, ready: bool, from: nat, n: nat): bool {
    if n == 0 then ready
    else LastWord(ReadyAfter(w, server, ready, from, n - 1), server, w(from + n - 1).arrivals)
  }

  lemma {:induction false} ReadyLater(w: World, server: Pid, ready: bool, from: nat, m: nat, n: nat)
    ensures ReadyAfter(w, server, ReadyAfter(w, server, ready, from, m), from + m, n)
         == ReadyAfter(w, server, ready, from, m + n)
    decreases n
  {
    if n > 0 { ReadyLater(w, server, ready, from, m, n - 1); }
  }

  /** None of the looks after 1, 2, ... and fewer than `n` moments sees the flag. */
  ghost predicate NeverReady(w: World, server: Pid, ready: bool, from: nat, n: int) {
    forall k :: 1 <= k < n ==> !ReadyAfter(w, server, ready, from, k)
  }

  /** A moment that nobody looks at after `n` looks that saw nothing. */
  lemma AfterDelay(w: World, server: Pid, self: Pid, ready: bool, from: nat, n: nat)
    requires NeverReady(w, server, ready, from, n) && !ReadyAfter(w, server, ready, from, n)
    requires Unharmed(w, self, from, from + n)
    ensures NeverReady(w, server, ready, from, n + 1)
    ensures !SelfSignalled(w, self, from + n) ==> Unharmed(w, self, from, from + n + 1)
    ensures ReadyAfter(w, server, ready, from, n + 1)
         == LastWord(ReadyAfter(w, server, ready, from, n), server, w(from + n).arrivals)
  {
    hide SelfSignalled, LastWord;
  }

  /** An attempt takes this many moments: one for each look, and the retry delay. */
  const ATTEMPT: nat := 102

  /** The first `n` moments of pinging bring no signal of the process to itself, and each attempt
      made in them reaches the server. */
  ghost predicate Undisturbed(w: World, self: Pid, from: nat, n: int) {
    forall t :: from <= t < from + n ==>
      !SelfSignalled(w, self, t) && ((t - from) % ATTEMPT == 0 ==> w(t).reachable)
  }

  /** The look after `n` moments of pinging sees the ready flag: the retry delay ends without one. */
  ghost predicate SeenReady(w: World, server: Pid, self: Pid, from: nat, n: nat) {
    && n < RETRY_TIMES * ATTEMPT && n % ATTEMPT != 0
    && Undisturbed(w, self, from, n) && ReadyAfter(w, server, false, from, n)
  }

  /** Some look sees it. */
  ghost predicate EverSeen(w: World, server: Pid, self: Pid, from: nat) {
    exists n :: SeenReady(w, server, self, from, n)
  }

  lemma NothingSeen(w: World, server: Pid, self: Pid, from: nat)
    ensures Undisturbed(w, self, from, 0) && !ReadyAfter(w, server, false, from, 0)
    ensures NotSeenBefore(w, server, self, from, 0)
  {
    hide SeenReady;
  }

  lemma AttemptsUsedUp(w: World, server: Pid, self: Pid, from: nat)
    requires NotSeenBefore(w, server, self, from, RETRY_TIMES * ATTEMPT)
    ensures !EverSeen(w, server, self, from)
  {
    hide Undisturbed, ReadyAfter;
  }

  lemma FirstSeen(w: World, server: Pid, self: Pid, from: nat, attempts: nat, d: nat)
    requires Undisturbed(w, self, from, ATTEMPT * attempts + d) && 0 < d < ATTEMPT && attempts < RETRY_TIMES
    requires ReadyAfter(w, server, false, from, ATTEMPT * attempts + d)
    ensures SeenReady(w, server, self, from, ATTEMPT * attempts + d) && EverSeen(w, server, self, from)
    ensures (ATTEMPT * attempts + d) / ATTEMPT == attempts
  {
    hide Undisturbed, ReadyAfter;
    Remainder(attempts, ATTEMPT * attempts + d);
  }

  ghost predicate NotSeenBefore(w: World, server: Pid, self: Pid, from: nat, n: int) {
    forall m :: SeenReady(w, server, self, from, m) ==> n <= m
  }

  /** One attempt more, of which `d` moments have passed without a look that saw the flag. */
  lemma StillNotSeen(w: World, server: Pid, self: Pid, from: nat, attempts: nat, d: nat)
    requires NotSeenBefore(w, server, self, from, ATTEMPT * attempts) && 0 < d <= ATTEMPT
    requires NeverReady(w, server, ReadyAfter(w, server, false, from, ATTEMPT * attempts), from + ATTEMPT * attempts, d)
    ensures NotSeenBefore(w, server, self, from, ATTEMPT * attempts + d)
  {
    hide Undisturbed, ReadyAfter;
    var start := ATTEMPT * attempts;
    forall m: nat | SeenReady(w, server, self, from, m) ensures start + d <= m {
      if start < m < start + d {
        ReadyLater(w, server, false, from, start, m - start);
      }
      Remainder(attempts, m);
    }
  }

  lemma Remainder(attempts: nat, m: nat)
    ensures m == ATTEMPT * attempts ==> m % ATTEMPT == 0
    ensures ATTEMPT * attempts < m < ATTEMPT * attempts + ATTEMPT ==> m % ATTEMPT != 0 && m / ATTEMPT == attempts
  {
  }

  lemma StillUndisturbed(w: World, self: Pid, from: nat, attempts: nat, d: nat)
    requires Undisturbed(w, self, from, ATTEMPT * attempts) && d <= ATTEMPT
    requires w(from + ATTEMPT * attempts).reachable
    requires Unharmed(w, self, from + ATTEMPT * attempts, from + ATTEMPT * attempts + d)
    ensures Undisturbed(w, self, from, ATTEMPT * attempts + d)
  {
    hide SelfSignalled;
    var start := ATTEMPT * attempts;
    forall t | from <= t < from + start + d
      ensures !SelfSignalled(w, self, t) && ((t - from) % ATTEMPT == 0 ==> w(t).reachable)
    {
      if from + start <= t {
        Remainder(attempts, t - from);
      }
    }
  }

  lemma Unreachable(w: World, server: Pid, self: Pid, from: nat)
    ensures !w(from).reachable ==> !EverSeen(w, server, self, from)
  {
    hide ReadyAfter, SelfSignalled;
    if !w(from).reachable {
      forall n: nat ensures !SeenReady(w, server, self, from, n) {
        if n > 0 { assert from <= from < from + n; }
      }
    }
  }

  /** Where an attempt cannot be made, or the process ends itself, no later look sees anything. */
  lemma NeverSeen(w: World, server: Pid, self: Pid, from: nat, n: nat, t: nat)
    requires NotSeenBefore(w, server, self, from, n) && from <= t <= from + n
    requires SelfSignalled(w, self, t) || ((t - from) % ATTEMPT == 0 && !w(t).reachable)
    requires t == from + n ==> n % ATTEMPT == 0
    ensures !EverSeen(w, server, self, from)
  {
    hide SelfSignalled, ReadyAfter;
    forall m: nat ensures !SeenReady(w, server, self, from, m) {
      if n <= m && t != from + m {
        assert t < from + m;
      }
    }
  }
}
