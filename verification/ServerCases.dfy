/** Whom the server listens to, and which lengths it accepts. */
module ServerCases {
  import opened Bits
  import opened Signals
  import opened ServerSpec

  /** A lost sender counts as the owner. */
  lemma LostSender(s: ServerState, self: Pid, signal: Signal)
    requires Valid(s)
    ensures HandleSignal(s, self, signal, 0) == HandleSignal(s, self, signal, s.actualPid)
  {
    hide ProcessDataSignal, LowZero, ToBits, Pow2;
  }

  /** The server's own signals are ignored; without a session anybody else is accepted, and in one
      anybody but its owner is told to wait. */
  lemma StrangerAnswered(s: ServerState, self: Pid, signal: Signal, from: Pid)
    requires Valid(s) && from != 0 && from != s.actualPid
    ensures var r := HandleSignal(s, self, signal, from);
      if from == self then r.state == s && r.events == []
      else if s.actualPid == 0 then r.state == Accepted(from) && r.events == [Sent(from, SIGUSR1)]
      else r.state == s && r.events == [Sent(from, SIGUSR2)]
  {
    hide ProcessDataSignal, LowZero, ToBits, Pow2;
  }

  /** Of the 2^32 patterns, those from 1 to 10,000,000. */
  lemma SizesAccepted(size: nat)
    requires size < Pow2(32)
    ensures ValidMessageSize(size) <==> 1 <= size <= 10_000_000
  {
    Pow2Word();
  }
}
