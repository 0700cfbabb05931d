# Minitalk, modelled and proved in Dafny

A client sends a text to a server with two signals only: SIGUSR1 is a 0 and SIGUSR2 is a 1. First go
32 bits of length, then eight bits per byte, most significant bit first, and the client waits for an
acknowledgment after every bit. The server keeps one record, updated inside its signal handler, owns one
heap buffer, serves one client and turns the others away. This project models that protocol and proves
what it guarantees, and does the same for the library code beside it that is hardest to get right: six
sorts, integer arithmetic from bit operations, the line reader and the log's formatting automaton.

## The protocol

| file | what it holds |
|---|---|
| `Bits.dfy` | words as bits, setting a bit, the bits of a text and the text of bits |
| `ServerSpec.dfy` | the server's handler as a function on the record's fields, the session invariant, and the bits a session has received, rebuilt from the fields |
| `ServerCases.dfy` | whom the server listens to and which lengths it accepts |
| `ServerRuns.dfy` | every interleaving of incoming signals with the monitor's polls: heap, non-interference, idle streak |
| `Server.dfy` | the server as a class; its methods refine the functions above |
| `ClientSpec.dfy` | the client's two handlers and the wire of a message |
| `ClientHistory.dfy` | a client's surroundings, moment by moment, what it does and hears, and how its waits may end |
| `Client.dfy` | the client as a class in given surroundings, any signals from anybody in every moment; each method is tied to them exactly |
| `Network.dfy` | the step system: any number of clients, one server, one pending instance of each signal per process, and the invariant of one client at a time |
| `NetworkProofs.dfy`, `NetworkTheorems.dfy` | every step keeps the invariant; what holds in every run |
| `ClientRefinement.dfy` | the clients of the network follow the plan that the client class is proved to follow |
| `LoneClient.dfy` | one undisturbed client: termination and exact counts |
| `Hazards.dfy` | runs outside the assumptions in which a client is told that a message arrived that did not |

In `Network.dfy` a second pending instance of a signal is dropped, at a client and at the server alike.
Clients may stop at any moment, signals from processes that are no clients may arrive at the server at any
moment, any process may signal any client, which may cost the client a pending reply of the server, and steps
interleave freely. `Able` says what the processes can do; `Timely` holds the assumptions on
the environment that `Enabled` adds to it:

* A ping is sent again only while no reply is pending at the client and its ready flag is not set. The code
  does not look at the flag after its retry delay (`srcs/client/ping.c:76-82`), so it relies on replies
  arriving earlier. What a client can see decides whether its ping is safe: `OwnSessionIff` and
  `PingHarmlessIff` give the condition, and `RepeatedPingMisprints` a run for every message of 2 to 20,000,001
  bytes in which the ping is not safe, another text of half the length is printed and the client reports
  success. For the same reason a ready reply is not lost to a client that is still pinging, by coalescing with
  another process's SIGUSR1; the other replies may be.
* The server's monitor discards a session only when its client is gone and none of that client's signals is
  pending: the client gives up after about 5 seconds, the server after 2500. `EarlyExpiry` shows that after an
  earlier discard the client can report success with nothing printed.

Besides, process ids are positive and never reused, `malloc` succeeds, a handler runs to its end before the
next signal is handled, and every message has between 1 and 2^31 - 1 bytes. Longer than 10,000,000 is allowed:
the server rejects the header and the client gets no answer.

In `Client.dfy` the surroundings are an input: for every moment, a sleep as a rule, whether `kill` reaches the
server when it begins, and the signals that arrive in its course, each with its sender. The class records what
it does and hears in one history, so that every acknowledgment can be traced to its own SIGUSR2, every end to
its cause, and every ping to what the polls before it saw.

The acknowledgment after a completed message or a rejected header goes to process id 0, since the record
has been reset by then (`srcs/server/main.c:90`); it is an event addressed to no client.

Where code and documentation differ, the model follows the code. `README.md:662` and `README.md:679` of the
repository speak of a map of clients and a queue of waiting ones, and `README.md:701-711` of a checksum per
client; the server has one record, turns other clients away and never computes a checksum.

## The library code

| file | what it holds |
|---|---|
| `Sorting.dfy` | order, rearranging a range, counting, swapping |
| `Stooge.dfy`, `Bitonic.dfy`, `Exchange.dfy`, `Radix.dfy`, `Introsort.dfy` | the sorts, in place on arrays |
| `Arithmetic.dfy`, `IntegerMath.dfy` | addition by carries, subtraction, division, remainder, square root on 32-bit words |
| `LineSpec.dfy`, `LineReader.dfy` | the line reader for one descriptor on any chunking, then its list of descriptors and interleaved calls |
| `LogSpec.dfy`, `LogDirectives.dfy`, `Log.dfy` | the automaton with unlimited room, how it reads directives, and the bounded buffer |
| `LogFormats.dfy` | what formats of any number of directives print |
| `LogValues.dfy` | what each directive prints for a given argument, and which argument is whose |
| `CPrintf.dfy`, `LogPrintf.dfy` | C's printf, with numerals and arguments of its own, and how the log compares with it |
| `Options.dfy` | values that may be missing |

Two properties one would expect are false of the code, and the project says exactly when they hold.
`bitonic_sort` sorts an array exactly when its length is 0 or a power of two or all of it is already the padding
value: the padding loop starts at 0 and overwrites the copy (`inc/libft/sort/bitonic_sort.c:56-58`). The log
prints a directive only when it sees the character after it, and drops that character
(`srcs/automata/action_extra.c:31-45`). `FormatOutput` gives the exact output of a format with any number of
directives, and `AllPrintedIff` says that, unless directives touch each other, all of them come out in their
places only if there is none, or one that ends the format and whose handler prints nothing. What the handlers
print differs from C as well, in width, precision and `#` of numbers: `IntegersAsInC` says exactly when it does
not, and `LikePrintf` when a text, a directive and a text come out as from C's printf, as `"%.d0"` with 0 does.

## Model

| member | source | states |
|---|---|---|
| ServerSpec.HandleSignal | srcs/server/main.c:112-129 | the session invariant survives every signal from every sender: exactly one of header and body mode, a buffer of size + 1 with 0 < size <= 10,000,000 exactly in body mode, msg_pos = sig_count / 8 < size, and as many bytes written as msg_pos says |
| ServerCases.LostSender | srcs/server/signals.c:48-60 | a lost sender counts as the owner |
| ServerCases.StrangerAnswered | srcs/server/main.c:30-68 | the server's own signals do nothing; without a session anybody else is accepted and answered ready, and in one anybody but the owner is answered busy |
| ServerCases.SizesAccepted | srcs/server/server.c:43-52 | of the 2^32 lengths exactly those from 1 to 10,000,000 are accepted |
| ServerSpec.PongReplies | srcs/server/signals.c:19-40 | one reply: ready, exactly when the server is not in a session of another client, with a valid session that has received nothing; otherwise busy, with nothing changed |
| ServerSpec.HandleHeader | srcs/server/server.c:54-78 | a header bit keeps the session invariant, including the switch to body mode and the reset on a bad length |
| ServerSpec.HandleMsg | srcs/server/server_message.c:147-174 | a body bit keeps the session invariant, including the last one |
| ServerSpec.OwnerSignal | srcs/server/main.c:84-129 | each signal of the owner adds exactly its own bit to what was received and is acknowledged once, or completes a message, printing the one text whose bits were received, or ends a header whose length is refused |
| ServerSpec.HeaderSignal | srcs/server/server.c:28-78 | a header bit continues the session or, on a refused length, drops it without printing |
| ServerSpec.BodySignal | srcs/server/server_message.c:147-174 | a body bit continues the session or completes the message with the text received |
| ServerRuns.Run | srcs/server/main.c:112-129 | the session invariant holds after every interleaving of signals and polls |
| ServerRuns.HeapAfterSignal | srcs/server/crook.c:60-81 | no signal leaks, doubly frees or uses a missing buffer, and a buffer is held afterwards exactly when the record says so |
| ServerRuns.BufferConservation | srcs/server/inits.c:33-73 | the same over every run of signals and polls: each buffer allocated is freed exactly once before the record is wiped |
| ServerRuns.NonInterference | srcs/server/main.c:57-68 | removing from any run every signal that is turned away changes neither the final state nor anything printed, allocated or freed |
| ServerRuns.SameReplies | srcs/server/main.c:57-68 | nor the replies of a process none of whose signals was turned away |
| ServerRuns.CounterIsStreak | srcs/server/time.c:24-37 | the monitor's counter is the number of polls in the current streak that saw a connected client and no activity, with no owner signal handled in it |
| ServerRuns.DiscardNeedsQuiet | srcs/server/time.c:15-40 | a session is given up only after 50000 such polls in a row, with nothing but signals between the last of them and the clean-up |
| ServerRuns.LateSignalsLost | srcs/server/time.c:38 | whatever arrives after the last poll, the clean-up leaves nobody connected, not even a client accepted in between |
| ServerRuns.QuietEnds | srcs/server/time.c:24-40 | once signals stop, the session is gone after n steps of the monitor if and only if n is at least an exact number computed from the state |
| ServerProcess.Server.constructor | srcs/server/inits.c:19-31 | the record starts idle and valid |
| ServerProcess.Server.SignalHandler | srcs/server/main.c:112-129 | fields, buffer cells and events become what HandleSignal says, and the invariant holds again |
| ServerProcess.Server.HandleNewClient | srcs/server/main.c:30-39 | with no client connected, the sender is recorded and answered |
| ServerProcess.Server.HandleActive | srcs/server/main.c:124-128 | the owner's signal marks the session as active and is processed |
| ServerProcess.Server.ProcessDataSignal | srcs/server/main.c:84-91 | routes by mode, then acknowledges the process id found in the record afterwards |
| ServerProcess.Server.Pong | srcs/server/signals.c:19-40 | wipes and refills the record and answers ready, or answers busy |
| ServerProcess.Server.HandleHeader | srcs/server/server.c:54-78 | one header bit in place |
| ServerProcess.Server.MemoryReserve | srcs/server/crook.c:60-81 | a fresh block of size + 1 bytes and body mode |
| ServerProcess.Server.HandleMsg | srcs/server/server_message.c:147-174 | one body bit in place, writing within the buffer |
| ServerProcess.Server.HandleCompleteMessage | srcs/server/server_message.c:28-45 | prints the size_message bytes stored, frees, answers, resets |
| ServerProcess.Server.ResetClientState | srcs/server/inits.c:33-52 | idle, with the buffer freed if there was one |
| ServerProcess.Server.CleanGlobal | srcs/server/inits.c:54-73 | idle, with the buffer freed exactly once if there was one |
| ServerProcess.Server.CheckClientActivity | srcs/server/debug.c:31-40 | clears the activity flag and restarts the count if it was set |
| ServerProcess.Server.HandleTimeout | srcs/server/time.c:15-22 | cleans up exactly at the limit with a client connected |
| ServerProcess.Server.PollOnce | srcs/server/time.c:29-37 | a round of the loop is a step of the monitor after the signals of its sleep |
| ServerProcess.Server.MonitorClientTimeout | srcs/server/time.c:24-40 | with any signals arriving in each sleep and before the clean-up, the loop ends with no client connected, and is step by step a run of the monitor over those signals |
| Bits.FromTextBitsRead | srcs/server/server_message.c:147-174 | any bits that fill whole bytes are the bits of a text |
| ClientSpec.WireInjective | srcs/client/bits.c:179-199 | different messages have different wires |
| ClientSpec.OthersIgnored | srcs/client/validate.c:20-29 | under either handler a signal from any process but the known server leaves the client as it was; a pinging client's own signal ends it |
| ClientSpec.OneSignal | srcs/client/main.c:22-35 | success exactly on the server's SIGUSR1 and the acknowledgment flag exactly on its SIGUSR2, both only while transmitting; the ready flag is the server's last word while pinging; nothing else changes |
| ClientHistory.EachAckEarned | srcs/client/handshake.c:50-58 | every acknowledgment in a client's history is preceded, after the previous one, by a SIGUSR2 of its own from the server |
| ClientHistory.NeverGivenUp | srcs/client/time.c:57-66 | when the server can always be reached and answers every wait in time, a transmission never fails, and without a confirmation it goes through to the end |
| ClientHistory.StoppedAnywhere | srcs/client/bits.c:179-199 | wherever a client stops, the bits it has sent are a prefix of its wire |
| ClientProcess.Client.OnSignal | srcs/client/main.c:22-35 | the effect of a signal under whichever of the two handlers is installed, and its place in the history |
| ClientProcess.Client.TakeSignals | srcs/client/validate.c:20-67 | the signals of a moment are all taken in order: success exactly if the server confirmed, the acknowledgment flag exactly if it acknowledged, failure of a pinging client exactly if it signalled itself |
| ClientProcess.Client.WaitForServerAck | srcs/client/handshake.c:38-60 | returns at once on a pending acknowledgment, otherwise at the first moment that brings news from the server: a confirmation ends the process with success, an acknowledgment is used up; after 50001 moments without the one and 50000 without the other the process fails |
| ClientProcess.Client.SendDataBit | srcs/client/bits.c:34-84 | SIGUSR2 for a 1 and SIGUSR1 for a 0 is raised exactly when the server can be reached, and the process fails exactly when it cannot |
| ClientProcess.Client.WaitForTransmissionSlot | srcs/client/handshake.c:74-129 | a free or own slot is taken at once; one held by another process is never obtained: the wait ends with a confirmation, with a failed probe at every 3000th sleep, or after 60001 |
| ClientProcess.Client.SendBit | srcs/client/bits.c:122-133 | the signal of the chosen bit and then its acknowledgment, or the exact earlier end that the arriving signals and the outcome of kill lead to |
| ClientProcess.Client.SendSignals | srcs/client/bits.c:179-199 | the low bits of the value, most significant first, each acknowledged before the next; an end before that has its cause: the confirmation, a kill that failed, or 50001 sleeps in vain |
| ClientProcess.Client.SendMessage | srcs/client/ping_utils.c:34-58 | the bits of the text, likewise; with a responsive server it does not fail |
| ClientProcess.Client.PrepareTransmission | srcs/client/hook.c:44-53 | length then text: the wire of the message, under stop-and-wait, likewise |
| ClientProcess.Client.CheckServerAndSleep | srcs/client/check.c:52-69 | true at the first poll that sees the ready flag, the flag being the server's last word; false exactly after 101 polls that did not see it |
| ClientProcess.Client.AttemptPing | srcs/client/ping.c:68-83 | -1 and no ping exactly when the server cannot be signalled, 1 at the first of 101 polls that sees the ready flag, 0 only when none of them did or the process signalled itself |
| ClientProcess.Client.HandleTimeouts | srcs/client/time.c:19-36 | success exactly when a poll of one of 20 attempts sees the ready flag, with all attempts up to there reaching the server; it stops at the first such poll |
| ClientProcess.Client.Ping | srcs/client/ping.c:96-118 | the same from a clean record, whatever the record held before |
| ClientProcess.Client.EstablishConnection | srcs/client/hook.c:16-42 | the process goes on exactly in that case and fails otherwise |
| ClientProcess.Client.Run | srcs/client/main.c:42-54 | the whole program: some pings, then from the first poll that sees the flag a prefix of the plan for the message, all of it unless the process ended, with the cause of its end; every acknowledgment was earned and every signal raised at a server that could be reached |
| ClientRefinement.ClientFollowsProgram | srcs/client/bits.c:179-199 | in every run of the network, what a client has done is the prefix of that plan its program counter says |
| NetworkProofs.HandleKeeps | srcs/server/main.c:112-129 | the server's handler keeps the invariant of every client, whoever sent the signal |
| NetworkProofs.DeliverKeeps | srcs/client/main.c:22-35 | so does a signal delivered to a client |
| NetworkProofs.ForeignKeeps | srcs/client/validate.c:20-67 | so does a signal from any process other than the server; unless it is the client's own, it changes nothing at all |
| NetworkProofs.LoseKeeps | srcs/client/handshake.c:50-58 | so does the loss of a pending reply |
| NetworkProofs.StepKeeps | srcs/client/handshake.c:38-60 | so does every step of the system |
| NetworkTheorems.RunKeeps | srcs/client/handshake.c:38-60 | the invariant holds after every run, and no run changes what a client has to send |
| NetworkTheorems.DeliverySafety | srcs/client/bits.c:179-195 | in every run, with any number of clients, any interleaving and any loss by coalescing, the server holds a prefix of its owner's wire, and what was printed for a client is its message, once, or nothing |
| NetworkTheorems.Agreement | srcs/client/main.c:15-35 | a client that reported "Message was received" has had exactly its whole message printed, although SIGUSR1 is also the ready reply and anybody may send it |
| NetworkTheorems.LockStep | srcs/server/main.c:84-91 | the owner is at most one bit ahead of the server and at most one signal of the session is pending between them, so its own signals never coalesce |
| NetworkTheorems.StrangersIgnored | srcs/client/validate.c:20-29 | without the signals that strangers send to clients, every run is a run with the same end |
| NetworkTheorems.OwnershipKept | srcs/client/check.c:119-192 | the ownership checks of a transmitting client never fail |
| NetworkTheorems.OwnSessionIff | srcs/client/ping_utils.c:19-31 | a client that is still pinging has a session at the server exactly when its ready flag is set or the ready reply is pending |
| NetworkTheorems.PingHarmlessIff | srcs/client/ping.c:68-83 | its ping opens a session or changes nothing exactly when neither is the case; otherwise it is taken for a header bit |
| Hazards.MisreadWire | srcs/server/server.c:28-41 | a 0 too many in front makes of every wire, as far as the server listens, the wire of a text of half the length |
| Hazards.RepeatedPingMisprints | srcs/client/ping.c:68-83 | for every message of 2 to 20,000,001 bytes there is a run, with a ping repeated after acceptance, that ends with the client reporting success and that other text printed |
| Hazards.EarlyExpiry | srcs/server/inits.c:54-73 | from every reachable state in which a client is about to send a bit and nothing is pending at the server, a discard can lead to the client reporting success with nothing printed |
| Hazards.EarlyExpiryMisreports | srcs/server/time.c:15-22 | every system with a client has such a run |
| LoneClient.AloneStep | srcs/client/handshake.c:38-60 | every step of an undisturbed run is one step forward, or a repeated ping that changes nothing |
| LoneClient.LosslessRun | srcs/client/hook.c:44-53 | an undisturbed client never gets stuck, makes at most 4(32 + 8n) + 3 moves, and ends successfully after exactly that many, with 32 + 8n data signals, 31 + 8n acknowledgments, two SIGUSR1 (ready and completed), its message printed and the server idle |
| LoneClient.RunLength | srcs/client/time.c:19-36 | with at most 20 pings, an undisturbed run has at most 4(32 + 8n) + 3 + 19 steps |
| LoneClient.CanFinish | srcs/client/hook.c:44-53 | every undisturbed run, wherever it stands, can be continued to the successful end |
| Exchange.SwapLowers | inc/libft/sort/comb_sort.c:39-43 | swapping any out-of-order pair, at any distance, strictly lowers the number of inversions |
| Exchange.GnomeSort | inc/libft/sort/gnome_sort.c:16-35 | terminates on every array, sorted and permuted |
| Exchange.CombPass | inc/libft/sort/comb_sort.c:34-46 | one sweep permutes, lowers the inversions if it swapped, and otherwise certifies every pair at its distance |
| Exchange.CombSort | inc/libft/sort/comb_sort.c:15-48 | terminates on every array, sorted and permuted |
| Exchange.TranspositionPass | inc/libft/sort/odd_even_sort.c:15-45 | one pass of either parity: clears the flag exactly when it swaps, which lowers the inversions |
| Exchange.OddEvenSort | inc/libft/sort/odd_even_sort.c:47-60 | terminates on every array, sorted and permuted |
| Stooge.OverlapSuffices | inc/libft/sort/stooge_sort.c:15-30 | the counting argument: after two passes the last third holds the largest cells because the overlap is at least a third |
| Stooge.StoogeSortRec | inc/libft/sort/stooge_sort.c:15-30 | every segment ends as a sorted permutation of itself, nothing else touched, and the recursion ends |
| Stooge.StoogeSort | inc/libft/sort/stooge_sort.c:32-37 | sorted and permuted, for every array |
| Bitonic.HalfCleaner | inc/libft/sort/bitonic_sort.c:24-29 | one comparison row splits a bitonic sequence into two bitonic halves, every cell of one no larger than any of the other |
| Bitonic.UpDownIsBitonic | inc/libft/sort/bitonic_sort.c:35-46 | an ascending run followed by a descending one is bitonic |
| Bitonic.BitonicMerge | inc/libft/sort/bitonic_sort.c:15-33 | a bitonic segment of power-of-two length is sorted in either direction |
| Bitonic.BitonicSortRec | inc/libft/sort/bitonic_sort.c:35-46 | every segment of power-of-two length is sorted in either direction and permuted |
| Bitonic.BitonicSort | inc/libft/sort/bitonic_sort.c:70-92 | a sorted permutation for lengths that are powers of two; for the others every cell becomes 2147483647 |
| Bitonic.SortsIffPowerOfTwo | inc/libft/sort/bitonic_sort.c:48-92 | the exact condition on the input under which the result is a sorted permutation |
| Radix.PassExtends | inc/libft/sort/radix_sort.c:28-63 | one zero/one split of a sequence in order of its low b bits is a permutation in order of b + 1 bits |
| Radix.PassesSort | inc/libft/sort/radix_sort.c:77-94 | after b passes the array is a permutation in order of its value modulo 2^b, negative numbers included |
| Radix.PassesStable | inc/libft/sort/radix_sort.c:28-63 | elements alike in those bits keep their order |
| Radix.EnoughBitsSort | inc/libft/sort/radix_sort.c:77-94 | non-negative numbers that fit in the bits end fully sorted |
| Radix.GetMaxBits | inc/libft/sort/radix_sort.c:15-26 | the exact bit length of a positive number, 0 for others |
| Radix.CollectZeros | inc/libft/sort/radix_sort.c:28-41 | the elements with digit 0, in their order, at the front of the output |
| Radix.CollectOnes | inc/libft/sort/radix_sort.c:43-63 | the elements with digit 1, in their order, right after them and up to the end |
| Radix.RadixSort | inc/libft/sort/radix_sort.c:77-94 | the array becomes what the passes make of it, for any pass count |
| Radix.SortNonNegative | inc/libft/sort/radix_sort.c:15-94 | with the pass count of the maximum, non-negative input ends sorted and permuted |
| Introsort.InsertionSort | inc/libft/sort/insertion_sort.c:15-34 | a sorted permutation of the range |
| Introsort.Partition | inc/libft/sort/intro_sort.c:16-35 | a permutation of the range around the last element: smaller before it, no smaller after it |
| Introsort.SiftStep | inc/libft/sort/intro_sort.c:37-55 | exchanging a node with its larger child moves the one violation of the heap down |
| Introsort.RootIsMax | inc/libft/sort/intro_sort.c:57-74 | no node of a heap exceeds its root |
| Introsort.Heapify | inc/libft/sort/intro_sort.c:37-55 | restores the heap below a node, permuting the range only |
| Introsort.HeapSortIntro | inc/libft/sort/intro_sort.c:57-74 | a sorted permutation of a sub-range, nothing outside touched |
| Introsort.IntroSortRec | inc/libft/sort/intro_sort.c:76-93 | for every depth limit, and so for every mix of the three methods, a sorted permutation of the range |
| Introsort.IntroSort | inc/libft/sort/intro_sort.c:95-103 | sorted and permuted, for every array |
| IntegerMath.AndAt | inc/libft/math/ft_add.c:21 | the conjunction of the model is the bitwise one |
| IntegerMath.XorAt | inc/libft/math/ft_add.c:22 | the exclusive or of the model is the bitwise one |
| IntegerMath.OrAt | inc/libft/math/ft_sqrt.c:35 | the disjunction of the model is the bitwise one |
| IntegerMath.HalfAdder | inc/libft/math/ft_add.c:21-23 | sum bits plus twice the carries make the sum |
| IntegerMath.DoubleClears | inc/libft/math/ft_add.c:23 | each round leaves one more low bit of the carries clear |
| IntegerMath.Add | inc/libft/math/ft_add.c:15-26 | the carry loop ends within 32 rounds with the sum modulo 2^32 |
| IntegerMath.Subtract | inc/libft/math/ft_substract.c:17-20 | the difference modulo 2^32 |
| IntegerMath.DivideLoop | inc/libft/math/ft_divide.c:15-31 | quotient and remainder of unsigned words, with no shifted bit lost |
| IntegerMath.Divide | inc/libft/math/ft_divide.c:33-56 | the quotient rounded towards zero, 0 for divisor 0, for all operands but INT_MIN |
| IntegerMath.Modulo | inc/libft/math/ft_modulo.c:15-41 | the remainder with the dividend's sign, 0 for divisor 0, for all operands but INT_MIN |
| IntegerMath.DivisionLaw | inc/libft/math/ft_modulo.c:15-41 | the two results are the only q and r with a = qb + r, the size of r below that of b, and the sign of r that of a |
| IntegerMath.RootRound | inc/libft/math/ft_sqrt.c:32-36 | a round keeps the relation of result, weight and rest to the root found so far |
| IntegerMath.TrialFits | inc/libft/math/ft_sqrt.c:32 | the trial value never overflows an int |
| IntegerMath.Sqrt | inc/libft/math/ft_sqrt.c:16-39 | r^2 <= max(n, 0) < (r + 1)^2 for every 32-bit n |
| LineSpec.StoreKeepsText | inc/libft/stdio/gnl/get_next_line.c:20-44 | reading chunks never changes the text still to be returned, and stops at a newline, the end or an error |
| LineSpec.NextLine | inc/libft/stdio/gnl/get_next_line.c:76-95 | a call returns the next line of the remaining text however it is chunked; an error before a whole line is saved returns nothing and loses the saved text |
| LineSpec.LinesLaw | inc/libft/stdio/gnl/get_next_line.c:46-74 | the lines of a text concatenate to it, none is empty, a newline is only a last character, and only the last line may lack it |
| LineSpec.LinesUnique | inc/libft/stdio/gnl/get_next_line.c:46-74 | no other division of the text has these properties |
| LineSpec.CallsReturnLines | inc/libft/stdio/gnl/get_next_line.c:76-95 | repeated calls return the lines in order, then nothing |
| LineReader.CallIsLocal | inc/libft/stdio/gnl/get_next_line_utils.c:46-89 | a call acts on its descriptor as if it were the only one and leaves the others' saved text and streams alone |
| LineReader.AnswersAreLocal | inc/libft/stdio/gnl/get_next_line.c:76-95 | in any interleaving, the answers for a descriptor are those of its own calls alone |
| LineReader.Reassembly | inc/libft/stdio/gnl/get_next_line.c:76-95 | for every NUL-free stream, every chunking and every interleaving, the calls for a descriptor return the lines of its stream in order and then nothing |
| LineReader.GetNextLine.StrJoin | inc/libft/stdio/gnl/get_next_line_utils.c:18-44 | saved text followed by the chunk up to its first NUL |
| LineReader.GetNextLine.StoreChunks | inc/libft/stdio/gnl/get_next_line.c:20-44 | the read loop does what Store says and consumes no more |
| LineReader.GetNextLine.GetLeftover | inc/libft/stdio/gnl/get_next_line.c:62-74 | what follows the first newline, or NULL |
| LineReader.GetNextLine.GetFdNode | inc/libft/stdio/gnl/get_next_line_utils.c:46-66 | finds the node or puts a new one in front |
| LineReader.GetNextLine.RemoveFdNode | inc/libft/stdio/gnl/get_next_line_utils.c:68-89 | unlinks the node and keeps the order of the others |
| LineReader.GetNextLine.Get | inc/libft/stdio/gnl/get_next_line.c:76-95 | one call: result, list and streams as the specification says |
| LogSpec.DigitsRoundTrip | srcs/automata/format_helper.c:33-54 | printed digits read back as the number, in every base used |
| LogDirectives.PlainText | srcs/automata/action.c:15-24 | text without % is printed unchanged |
| LogDirectives.DirectiveRead | srcs/automata/action.c:42-75 | reading inverts rendering: any flags, width, precision and length modifiers are read silently into exactly the record they ask for |
| LogDirectives.DirectiveFires | srcs/automata/action_extra.c:31-45 | a directive prints when the next character comes, takes its argument and swallows that character |
| LogDirectives.DirectiveAbandoned | srcs/automata/action.c:42-75 | a character that belongs in no directive ends the one being read; both are dropped and no argument is taken |
| LogFormats.FormatOutput | srcs/automata/log.c:17-37 | the exact output of a format of any texts and directives: each directive takes its argument and the next character, be it the % of another directive, whose body is then plain text |
| LogFormats.AllPrintedIff | srcs/automata/log.c:17-37 | with directives that do not touch, all of them come out in their places if and only if there is none, or one that ends the format and whose handler prints nothing |
| LogFormats.TouchingIff | srcs/automata/action_extra.c:31-45 | of two directives that touch, the second is printed as text and never read; the output is the wanted one exactly when the second should have printed its own body |
| LogFormats.NothingPrinted | srcs/automata/bufferization.c:46-67 | a handler prints nothing exactly for %s without width on an empty text or with precision 0, and for %f, %g, %G without sign flag on a number whose integer part is negative |
| CPrintf.NumeralWrites | srcs/automata/format_helper.c:33-54 | the numerals of the comparison are worth their number in bases 10, 8 and 16, with the right digits and no needless zero |
| LogValues.LogInteger | srcs/automata/format_helper.c:67-106 | an integer directive prints a sign and the numeral of the number it converts |
| LogValues.DecimalPrinted | srcs/automata/spec.c:26-42 | %d and %i print a sign and digits 0 to 9 worth the argument in base 10 |
| LogValues.UnsignedPrinted | srcs/automata/format_helper.c:99-105 | %u, %o, %x and %X print digits worth the argument in base 10, 8 and 16, with a to f or A to F |
| LogValues.StringPrinted | srcs/automata/spec.c:16-24 | %s prints its text, or (null) for a null pointer, cut to the precision and padded to the width |
| LogValues.CharacterPrinted | srcs/automata/spec2.c:34-40 | %c prints the character with the argument's code |
| LogValues.PointerPrinted | srcs/automata/spec2.c:53-63 | %p prints 0x and digits worth the address in base 16, none for an address of 2^63 or more |
| LogValues.FloatPrinted | srcs/automata/spec2.c:42-51 | %f, %g and %G print the integer part, rounded towards zero, in base 10, and of a negative one only a sign that was asked for |
| LogValues.OneArgument | srcs/automata/spec.c:20 | what a directive prints depends on the next argument only |
| LogValues.ArgumentsInTurn | srcs/automata/action_extra.c:31-45 | directives that do not touch take the arguments in turn: after k of them the k-th argument, counted from 0, is next |
| LogPrintf.StringsAsInC | srcs/automata/bufferization.c:46-67 | %s prints as in C for every flag, width and precision |
| LogPrintf.CharactersAsInC | srcs/automata/spec2.c:34-40 | %c prints as in C exactly with a width of at most 1 |
| LogPrintf.IntegersAsInC | srcs/automata/format_helper.c:67-106 | an integer directive prints as in C exactly when a condition on flags, width, precision and digit count holds |
| LogPrintf.LikePrintf | srcs/automata/log.c:17-37 | a text, a directive and a text come out as from C's printf if and only if the directive ends the format and C prints nothing for it, or the zero that C drops stands for a zero that is swallowed |
| Log.BoundedIsCut | srcs/automata/log.c:17-37 | for every format, arguments, context and buffer, the run that stops at 1023 characters prints the first 1023 of the unlimited run |
| Log.ConvertToString | srcs/automata/format_helper.c:33-54 | the digits, least significant first, within the work area; nothing for a negative number |
| Log.ReverseString | srcs/automata/format_helper.c:15-31 | the first cells reversed in place |
| Log.Formatter.AppendChar | srcs/automata/bufferization.c:16-20 | the first 1023 characters of the contents and the character |
| Log.Formatter.AppendStr | srcs/automata/bufferization.c:22-26 | the same for a string |
| Log.Formatter.AppendStrFormatted | srcs/automata/bufferization.c:46-67 | the same for a string cut to the precision and padded on the proper side |
| Log.Formatter.AppendNumber | srcs/automata/format_helper.c:67-106 | the same for sign and digits of a number |
| Log.Formatter.SpecString | srcs/automata/spec.c:16-24 | %s, with (null) for a null pointer |
| Log.Formatter.SpecNumber | srcs/automata/spec.c:26-60 | %d %i %u %x %X %o: the argument read with its own signedness |
| Log.Formatter.SpecChar | srcs/automata/spec2.c:34-40 | %c |
| Log.Formatter.SpecFloat | srcs/automata/spec2.c:42-51 | %f %g %G: the integer part only |
| Log.Formatter.SpecPointer | srcs/automata/spec2.c:53-63 | %p |
| Log.Formatter.ActionNormal | srcs/automata/action.c:15-24 | text, or the start of a directive with a cleared record |
| Log.Formatter.ActionPercent | srcs/automata/action.c:68-75 | the action after %, shared by the later states |
| Log.Formatter.ActionFlags | srcs/automata/action_more.c:15-27 | the action in the flags state |
| Log.Formatter.ActionWidth | srcs/automata/action_more.c:29-44 | the action in the width state |
| Log.Formatter.ActionPrecision | srcs/automata/action_extra.c:15-24 | the action in the precision state |
| Log.Formatter.ActionSpecifier | srcs/automata/action_extra.c:31-45 | the specifier's handler runs, whatever the character |
| Log.Formatter.Parse | srcs/automata/log.c:17-37 | from any context and filling, the contents become the first 1023 characters of contents and unlimited output; the position never goes back |
| Log.FormatInto | srcs/automata/log.c:39-56 | the same on the caller's buffer, from a fresh context |

## Left out

- Signals, `usleep`, `pause`, the `kill(pid, 0)` probes, printing and argument parsing are steps, events, inputs and assumptions, not system calls.
- ClientProcess.Client.SendDataBit: the probe `kill(pid, 0)` and the signal after it share one outcome, as they do for a ping.
- ClientProcess.Client.Run: the endless `pause` loop after the last bit; a server that answers the last bit confirms it, so that a client ends in the wait before.
- The group signal `kill(0, SIGUSR2)` is an event that reaches no client; a signal without a sender is handled by `HandleSignal` but not raised in `Network.dfy`.
- Late ready replies, stale busy replies, a ready reply lost to a client that is pinging and reused process ids lie outside the assumptions on pings.
- The server's timeout is one step of `Network.dfy`; its polls are in `ServerRuns.dfy` and `Server.dfy`.
- The ack wait, retry and slot limits end a client as an arbitrary `Exit` in `Network.dfy`; their exact bounds are proved of the client class.
- Failing `malloc`, in the server, the line reader and the sorts.
- The terminating NUL of a message is not sent and not modelled; the model allows any bytes in a message.
- `process_character` (srcs/server/server_message.c:83-101) is never called, and `calculate_checksum` (srcs/server/crook.c:31-45) neither.
- Exchange.CombSort: the product `gap * 10` overflows an int for arrays of more than 214,748,364 cells; gaps are unbounded here.
- IntegerMath.Divide: INT_MIN as an operand, whose negation C leaves undefined.
- IntegerMath.Modulo: INT_MIN likewise.
- Introsort.IntroSort: `log2` of the size is taken as the exact integer part; by IntroSortRec the result does not depend on it.
- LogFormats.FormatOutput: a text after a directive does not start with %; the directive would swallow one of the two that stand for it, and the other would begin a directive. `DirectiveFires` covers any text.
- LogPrintf.LikePrintf: length modifiers, which the log ignores, %p and the floating-point directives are not compared with C, and only one directive at a time is.
- LineReader.GetNextLine.Get: list nodes are values in a sequence, so the freeing of nodes and strings is not modelled; a chunk may have any length, not only up to 42.
- LineReader.Reassembly: a stream with NUL bytes loses the rest of each chunk after the first one (`UpToNul`); the reassembly is stated for NUL-free streams.
- Log.Formatter.Parse: width and precision numbers do not wrap around; an argument of the wrong kind, or none, reads as zero, and a double outside the range of int as INT_MIN, where C leaves the behaviour undefined.
- The log level, the final newline and `write` in `log_msg`.
- The other sorts of the library (textbook ones, timing-based ones, and ones that do not meet a sorting contract), its containers, string and memory helpers, `ft_printf` and the demonstrations in `lab/`.
