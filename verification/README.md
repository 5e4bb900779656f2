# A verified model of ros2_perf

ros2_perf measures a ROS 2 middleware: publishers send numbered messages, subscribers count what got
lost, ping and pong nodes measure round trips, and once a second every mode prints what it saw. This
project models the algorithms behind those numbers in Dafny and proves what they guarantee.

| file | what it holds |
|---|---|
| Wire.dfy | the message and the machine widths of its sequence number |
| Sorting.dfy, Stats.dfy | the sort, the sample buffers and the latency summary |
| Report.dfy | report rows: collected from a hash map in any order, printed in first-heard order |
| Rounding.dfy | quotients rounded to the nearest integer |
| PongPeers.dfy, PingNode.dfy, PongNode.dfy | the ping node with its registry of pong peers, and the pong node |
| PongRows.dfy | what the registry's rows say, in terms of the pongs alone |
| PingPong.dfy | the ping/pong exchange as a step system over threads and network, and what every run guarantees |
| PingPongRuns.dfy | runs that do happen: the bounds reached, the handler without interruption |
| PingPongStall.dfy | when the exchange is over for good |
| SubRegistry.dfy, LossAccounting.dfy | the subscriber's registry, and what its loss counter means |
| SubRows.dfy | what the subscriber's rows say, in terms of the messages alone |
| Config.dfy, Numbers.dfy, Args.dfy | the configuration, the number formats and the cursor-based parser |
| Decimals.dfy, Words.dfy | what numbers, units and words on the command line mean, and the defaults |
| Grammar.dfy, Equivalence.dfy | the command-line language, and lines that mean the same |
| Complaints.dfy | which complaint a rejected line gets |
| Printer.dfy, ParserImage.dfy | writing a configuration back, and which configurations a line can produce |
| Schedule.dfy, MainLoop.dfy | deadlines, tick offset and counting on the schedule; the main loop |
| Publisher.dfy, PubReports.dfy | the publisher's loops, and what its ticks report |
| Peers.dfy | the set of known endpoints and its event log |

How to read it. A class follows a class of the program, and its methods are proved against functions on
its abstract value (`Value()`); the lemmas are about those functions. Whole runs are sequences of events
or actions: `PingPong.Exec` for the protocol, `PongRows.Run` for the ping registry, `LossAccounting.Run`
for the subscriber, `Stats.Replay` for the buffers, `Peers.IsRun` for the tracker. In the protocol the
network keeps everything ever published and may deliver it at any later time, any number of times, in any
order, or never. One ping node is assumed per pair of topics, atomics are sequentially consistent, and
callbacks are serial. Times are integer nanoseconds, statistics are over the reals.

What the proofs turned up:

- The final summary of ping counts lost pings twice: its loss is the running loss plus the unanswered
  pings, and the running loss already holds those of past intervals (`PingPong.SummaryLoss`,
  `PingPongRuns.LossReportedTwice`).
- With one pong peer a tick sees one pong more than pings exactly when it reads its ping counter between a
  publish and its count, with every published ping's pong counted (`PingPong.OvershootExactly`); this does
  occur (`PingPongRuns.OvershootHappens`).
- An exchange that nobody stops is over for good exactly when every peer's last_seq has reached 2^32 - 2,
  the last number before the 32-bit counter wraps (`PingPongStall.StallsWhenFull`); after any other run some
  continuation gets a pong accepted. Such runs exist: one in which every peer has answered 2^31 pings
  (`PingPongStall.StallHappens`), and one in which a peer has answered a single ping
  (`PingPongStall.StallsUnevenly`).
- A response-driven exchange keeps at most one ping outstanding exactly when there is at most one pong peer
  (`PingPongRuns.OneOutstandingExactly`). With two or more it multiplies: the outstanding pings exceed any
  given number below the wrap (`PingPongRuns.OutstandingGrow`).
- The running loss of ping never credits late pongs: it exceeds last_pings - last_pongs by the surplus of
  the intervals with more pongs than pings (`PingPong.SummaryLoss`).
- The subscriber keeps last_seq in 32 bits while numbers have 64: from number 2^32 + 1 on, a perfect
  delivery is reported as lossy (`LossAccounting.PerfectDeliveryLossless`).
- The loss counter is never corrected, so it overstates the loss exactly when some number arrives for the
  first time after a higher one and above the first arrival (`LossAccounting.LossRefinesMissing`); the
  deliveries 0, 2, 1 are enough (`LossAccounting.LossOverstated`).
- Counts on the command line are narrowed to 32 bits after the check that they are positive, so multiples
  of 2^32 become 0 (`Numbers.CountNarrowing`); without a rate such a burst publishes nothing at all
  (`Publisher.SilentBurst`).
- A duration limit can be exceeded by up to 100 ms (`MainLoop.PollUntil`, `MainLoop.StopsLate`).
- The ticks of the main loop do not drift as long as no delay exceeds one second, and one second is the exact
  bound (`MainLoop.PollUntil`, `MainLoop.DriftExactly`).
- Per-second counts are constant exactly for intervals that divide one second
  (`PubReports.SteadyReports`), and then tolerate exactly messages late by up to slack mod interval and ticks
  late by less than the rest of the interval (`PubReports.ToleranceExactly`).

Where the code and its documentation differ, the model follows the code: the comment on pub_tick_slack
(src/ros2_perf/src/main.cpp:93-95) speaks of the shortest interval, the code takes the largest half
interval; a comment in the parser (src/ros2_perf/src/args.cpp:407-408) says the rest of the line is still
parsed after -h or --version, the code returns at once; the usage text (src/ros2_perf/src/args.cpp:501)
allows zero modes, the code demands one; README.md:102 lists an option -1, which the parser rejects; and a
burst below 1 is guarded against in setup (src/ros2_perf/src/mode/pub_mode.cpp:53) but not in the
free-running loop.

## Model

| member | source | states |
|---|---|---|
| `PingPong.Lockstep` | src/ros2_perf/src/mode/ping_mode.cpp:301-324 | Response-driven with one pong peer, for every run under loss, duplication, reordering and delay and any number of pings: the i-th accepted pong is number 2*i, so there is no gap, and the pings published are as many as the accepted pongs or one more; at most 2^31 are ever accepted |
| `PingPong.OnlyNewestPingCounts` | src/ros2_perf/src/mode/ping_mode.cpp:88-95 | In such a run a delivered echo is accepted if and only if it answers the newest ping, that ping is unanswered and its index is below 2^31: duplicates never start a second exchange |
| `PingPong.WrapBound` | src/ros2_perf/src/mode/ping_mode.cpp:288-324 | Any number of peers, no bound on the run: each peer is accepted at most 2^31 times, n peers at most n*2^31 times, and a response-driven run publishes at most one ping more than it accepted pongs |
| `PingPong.AcceptedOncePerPing` | src/ros2_perf/src/mode/ping_mode.cpp:88-95 | Both send modes: from one peer the accepted numbers strictly ascend below 2^32, the signed 64-bit difference is their plain difference, each accepted pong is the echo of a published ping with its baggage, and no published ping is accepted twice |
| `PingPong.SamplesStored` | src/ros2_perf/src/mode/ping_mode.cpp:308-313 | Every accepted pong contributes the sample (now - original stamp)/2, which is not negative, and the peer's total buffer holds the first 200000 of them in order of acceptance |
| `PingPong.TickObservesBoundedPongs` | src/ros2_perf/src/mode/ping_mode.cpp:231-234 | Every tick of every interleaving of sender, handler and tick sees pongs <= n*(pings + 1) for the n peers known, hence at most one pong more than pings when there is one pong peer |
| `PingPong.OvershootExactly` | src/ros2_perf/src/mode/ping_mode.cpp:231-234 | One pong peer, any run: a tick that loads its ping counter now sees more pongs than pings if and only if that moment lies between a publish and its count and the pongs it loaded answer every published ping |
| `PingPongRuns.OvershootHappens` | src/ros2_perf/src/mode/ping_mode.cpp:297-298 | Such a tick occurs: a run, because publishing precedes counting, whose tick sees one pong and no ping |
| `PingPongRuns.Reaches` | src/ros2_perf/src/mode/ping_mode.cpp:301-324 | The bounds of WrapBound are reached: for every n up to 2^31 and any number of peers there is a run in which each peer is accepted n times, with the numbers 0, 2, ..., 2n-2, and one ping more is published than pongs were accepted |
| `PingPongRuns.LockstepReaches` | src/ros2_perf/src/mode/ping_mode.cpp:301-324 | With one pong peer, for every n up to 2^31 a run accepts n pongs and publishes n + 1 pings |
| `PingPongStall.StallsExactly` | src/ros2_perf/src/mode/ping_mode.cpp:88-95 | Both send modes, after any run: no continuation gets another pong accepted if and only if every peer's last_seq has reached 2^32 - 2 or, once the stop flag is set, the number of every ping that is published or still will be. In particular no interleaving of an unstopped exchange deadlocks below the wrap |
| `PingPongStall.StallsWhenFull` | src/ros2_perf/src/mode/ping_mode.cpp:88-95 | The same while the stop flag is clear, with the condition on the registry written out |
| `PingPongStall.StallHappens` | src/ros2_perf/src/mode/ping_mode.cpp:88-95 | There is a run after which, in every continuation, no delivery is accepted, no pong is logged and no ping is published: every peer has answered 2^31 pings |
| `PingPongStall.StallsForGood` | src/ros2_perf/src/mode/ping_mode.cpp:88-95 | Sufficient for it: every peer has been accepted 2^31 times. Nothing is accepted afterwards, and at most the one ping still owed is published |
| `PingPongStall.StallsUnevenly` | src/ros2_perf/src/mode/ping_mode.cpp:88-95 | Not necessary for it: with two peers a run stalls after a single accepted pong from one of them, when the other has answered all pings below the wrap first |
| `PingPongRuns.OneOutstandingExactly` | src/ros2_perf/src/mode/ping_mode.cpp:313-323 | Response-driven: in every run at most one published ping is unanswered if and only if there is at most one pong peer |
| `PingPongRuns.OutstandingGrow` | src/ros2_perf/src/mode/ping_mode.cpp:313-323 | With n peers each answered ping starts n new ones: for every j with j*n below 2^31 a run in which exactly the first j pings are answered and (n-1)*j + 1 are outstanding |
| `PingPongRuns.HandleUninterrupted` | src/ros2_perf/src/mode/ping_mode.cpp:301-324 | The handler's atomic steps, taken without interruption while the send lock is free, are one call of handle: same node, same published pings, for ignored, rejected and accepted pongs |
| `PingPong.TickNeverBlocked` | src/ros2_perf/src/mode/ping_mode.cpp:217-265 | In every reachable state the tick's next step is enabled, so the guards of the step system never hold the tick back |
| `PingPong.RunInvariant` | src/ros2_perf/src/mode/ping_mode.cpp:76-324 | The five-part invariant (send lock and numbering, echoes in the network, registry against log, tokens, tick) holds after every run of atomic steps |
| `PingPong.SendStep` | src/ros2_perf/src/mode/ping_mode.cpp:288-299 | Every step keeps: the send lock is exclusive, the k-th published ping is numbered 2*(k mod 2^31)+1, and at most one published ping is not counted |
| `PingPong.LogStep` | src/ros2_perf/src/mode/ping_mode.cpp:76-96 | Every step keeps the registry in agreement with the log of accepted pongs: last_seq, strictly ascending numbers, stored samples |
| `PingPong.TokenStep` | src/ros2_perf/src/mode/ping_mode.cpp:313-323 | Every step keeps published + committed <= 1 + accepted in response-driven mode |
| `PingPong.TickStep` | src/ros2_perf/src/mode/ping_mode.cpp:231-252 | Every step keeps the tick baselines, the running loss and the pong bound |
| `PingPong.PeerBound` | src/ros2_perf/src/mode/ping_mode.cpp:89-95 | A peer is accepted at most once per published ping and at most 2^31 times |
| `PingPong.EchoFacts` | src/ros2_perf/src/mode/pong_mode.cpp:126-129 | A pong in the network is even, below 2^32, and carries the stamp and baggage of the published ping it echoes |
| `PingPong.SummaryLoss` | src/ros2_perf/src/mode/ping_mode.cpp:231-272 | With the one-second interval of main: the running loss is the sum over all ticks of max(0, pings - pongs); last_pongs + lost_total == last_pings + the sum of max(0, pongs - pings), so the running loss is last_pings - last_pongs if and only if no interval saw more pongs than pings; the summary's loss is the running loss plus max(0, sent - recv), and equals max(0, sent - recv) if and only if no interval saw more pings than pongs |
| `PingPongRuns.LossReportedTwice` | src/ros2_perf/src/mode/ping_mode.cpp:267-272 | A run with one ping, no pong and one tick whose summary reports two lost |
| `PingNode.PingMode.SendPing` | src/ros2_perf/src/mode/ping_mode.cpp:288-299 | send_ping: the message handed out, the 32-bit sequence counter advanced with wrap-around, one ping counted |
| `PingNode.PingMode.Handle` | src/ros2_perf/src/mode/ping_mode.cpp:301-324 | handle: what is published and the whole new state, for ignored, rejected and accepted pongs and both send modes |
| `PingNode.PingMode.Tick` | src/ros2_perf/src/mode/ping_mode.cpp:217-265 | tick: the report and the whole new state, including dt <= 0 and the early return |
| `PingNode.TickSays` | src/ros2_perf/src/mode/ping_mode.cpp:231-263 | With the one-second interval of main: tick prints nothing if and only if nothing was counted and no peer is known, and the no-pong line if and only if pings were counted and no pong; otherwise the counts. pongs/s is the pong counter minus the last one, pings/s the ping counter minus the last one, lost/s is max(0, pings - pongs), the running loss includes this interval, and the counter shown is pings_now in the no-pong line and pongs_now otherwise |
| `PingNode.TickKeeps` | src/ros2_perf/src/mode/ping_mode.cpp:235-252 | The state after such a tick: both baselines are the counters it read, the running loss has grown by max(0, pings - pongs), and nothing that send_ping or handle count is touched |
| `PingNode.TickRates` | src/ros2_perf/src/mode/ping_mode.cpp:239-263 | The same for any positive interval: every figure is its count over the interval rounded to nearest, halves up, and which line is printed depends on which counts are below half the interval |
| `PingNode.TickWindows` | src/ros2_perf/src/mode/ping_mode.cpp:254-262 | The latency lines of a tick: exactly the peers with a sample since the last tick, each once, in first-heard order, each summarising that peer's window |
| `PingNode.PingMode.Summary` | src/ros2_perf/src/mode/ping_mode.cpp:267-281 | summary: sent, received, loss and one row per peer, changing nothing |
| `PingNode.EarlyReturnLossless` | src/ros2_perf/src/mode/ping_mode.cpp:248-252 | tick never drops a loss through its early return if and only if the reporting interval is at most two seconds |
| `PingNode.UnitTickLoss` | src/ros2_perf/src/mode/ping_mode.cpp:248-252 | With the one-second interval the loss of every tick is added to the running loss |
| `PingNode.RoundsToZero` | src/ros2_perf/src/mode/ping_mode.cpp:239-242 | A rounded per-second figure is zero exactly when twice the count is below the interval |
| `PongPeers.PongRegistry.Receive` | src/ros2_perf/src/mode/ping_mode.cpp:76-96 | on_pong: acceptance decided by the signed difference, and the new registry |
| `PongPeers.PongRegistry.Snapshot` | src/ros2_perf/src/mode/ping_mode.cpp:98-120 | snapshot: rows in first-heard order whatever the order of the hash map; a tick empties the windows and nothing else, a totals snapshot changes nothing |
| `PongPeers.SnapshotNumbersPeers` | src/ros2_perf/src/mode/ping_mode.cpp:98-120 | A snapshot lists every peer exactly once, numbered 1..n in the order of their first pong |
| `PongPeers.OnPongValid` | src/ros2_perf/src/mode/ping_mode.cpp:76-96 | A received pong keeps the peers distinct and numbered 1..n |
| `PongRows.AcceptsAdvancing` | src/ros2_perf/src/mode/ping_mode.cpp:76-96 | Every interleaving of pongs and snapshots: a pong is accepted if and only if its number, as a signed one, lies beyond every number received from that peer |
| `PongRows.RowsSay` | src/ros2_perf/src/mode/ping_mode.cpp:98-120 | Every interleaving: a snapshot has one row for each peer heard, numbered in the order of first pongs; a tick's row summarises the first 200000 half round trips accepted since the last tick, a totals row the first 200000 since the start, and says whether there are any |
| `PongRows.OrderGrowsByFirstPongs` | src/ros2_perf/src/mode/ping_mode.cpp:79-82 | A peer is numbered when its first pong arrives |
| `PongNode.PongMode.Handle` | src/ros2_perf/src/mode/pong_mode.cpp:119-132 | handle: after any deliveries, what was published is the echoes of the odd-numbered ones in order, and round trips count exactly them |
| `PongNode.PongMode.Tick` | src/ros2_perf/src/mode/pong_mode.cpp:94-107 | tick: round trips since the last tick, rounded to a rate, and the new baseline |
| `PongNode.AnswersAreEchoes` | src/ros2_perf/src/mode/pong_mode.cpp:122-130 | Every answer is even and is the echo of an odd delivery |
| `PongNode.NoEchoOfEcho` | src/ros2_perf/src/mode/pong_mode.cpp:122-124 | Pong nodes never answer what pong nodes publish |
| `Wire.EchoOfPing` | src/ros2_perf/src/mode/ping_mode.cpp:292 | With a 32-bit counter the k-th ping goes out as 2*(k mod 2^31)+1 and comes back as 2*(k mod 2^31) |
| `Wire.BitForms` | src/ros2_perf/src/mode/pong_mode.cpp:127 | The 32-bit mask also clears the upper half of a 64-bit number; shift-and-or is 2n+1 modulo 2^32 |
| `LossAccounting.LossRefinesMissing` | src/ros2_perf/src/mode/sub_mode.cpp:93-102 | Any delivery order below 2^32: lost is the number of numbers in [first, last] never received plus the arrivals that close a gap (above the first arrival, below an earlier one, not seen before); it equals the number never received if and only if no arrival closes a gap; recv + lost == last - first + 1 + arrivals not above all earlier ones |
| `LossAccounting.LossOverstated` | src/ros2_perf/src/mode/sub_mode.cpp:93-102 | Delivering 0, 2, 1 leaves one message counted lost although nothing is missing |
| `LossAccounting.MissingAre` | src/ros2_perf/src/mode/sub_mode.cpp:93-102 | The missing numbers in terms of the delivery: at least the first, below some arrival, and not delivered |
| `LossAccounting.LastSeqIsMaximum` | src/ros2_perf/src/mode/sub_mode.cpp:93-102 | Any delivery order below 2^32: last_seq is the highest number delivered |
| `LossAccounting.RegistryLoss` | src/ros2_perf/src/mode/sub_mode.cpp:104-128 | The same laws, the exactness condition included, for a publisher's track at any point of any run of messages, ticks and summaries, with other publishers interleaved |
| `LossAccounting.EndToEnd` | src/ros2_perf/src/mode/sub_mode.cpp:93-128 | Order-preserving, lossy, non-duplicating network: the published numbers split into disjoint sets before the first delivery, received, missing, after the last; the counters are their sizes and lost is exactly the missing ones |
| `LossAccounting.RowConserves` | src/ros2_perf/src/mode/pub_mode.cpp:109-118 | published == first + recv + lost + (published - 1 - last_seq) for the registry's own counters at any point of any run |
| `LossAccounting.TicksAddUp` | src/ros2_perf/src/mode/sub_mode.cpp:104-171 | Every interleaving: what ticks reported plus what is pending equals recv and lost, and a publisher's counters depend on its own arrivals only |
| `LossAccounting.SkippedPublisherIsQuiet` | src/ros2_perf/src/mode/sub_mode.cpp:137-141 | A tick passes over exactly the publishers from which nothing arrived since the last tick, and those have no pending loss and an empty latency window |
| `LossAccounting.RecvTickIsSinceTick` | src/ros2_perf/src/mode/sub_mode.cpp:93-128 | Every interleaving: a publisher's tick counter is the number of its arrivals since the last tick |
| `LossAccounting.TotalsNumberPublishers` | src/ros2_perf/src/mode/sub_mode.cpp:158-170 | A totals snapshot lists every publisher once, numbered 1..n, and every publisher heard is listed |
| `LossAccounting.OrderGrowsByFirstArrivals` | src/ros2_perf/src/mode/sub_mode.cpp:107-113 | The numbering is that of first arrivals |
| `LossAccounting.PerfectDeliveryLossless` | src/ros2_perf/src/mode/sub_mode.cpp:43-101 | Because last_seq keeps 32 bits, an uninterrupted delivery is reported lossless if and only if it ends at or before number 2^32 (or is a single message) |
| `LossAccounting.TraceSound` | src/ros2_perf/src/mode/sub_mode.cpp:93-102 | Every arrival below 2^32 keeps: received and skipped numbers cover the span, and skipped numbers are charged once each |
| `SubRegistry.PubRegistry.Receive` | src/ros2_perf/src/mode/sub_mode.cpp:104-128 | on_message: the new registry, for new and known publishers |
| `SubRegistry.PubRegistry.Snapshot` | src/ros2_perf/src/mode/sub_mode.cpp:130-171 | snapshot: rows in first-arrival order whatever the order of the hash map, quiet publishers left out of ticks, tick counters and windows reset for the reported ones only |
| `SubRegistry.OnMessageValid` | src/ros2_perf/src/mode/sub_mode.cpp:104-128 | A message keeps the publishers distinct and numbered 1..n and adds at most one |
| `SubRows.StoredSamples` | src/ros2_perf/src/mode/sub_mode.cpp:104-128 | Every interleaving: with -l a publisher's total buffer is the first 200000 non-negative one-way latencies of its messages in order, and its window the first 200000 of those since the last tick; without -l both are empty; total_bytes is the sum of the sizes and last_size the last one in 32 bits |
| `SubRows.TickRows` | src/ros2_perf/src/mode/sub_mode.cpp:130-171 | Every interleaving: a tick has one row for each publisher heard since the last tick and for no other, numbered in the order of first messages; it gives the messages and the loss since the last tick and since the start, the bytes, and with -l the summary of the latencies since the last tick |
| `SubRows.TotalsRows` | src/ros2_perf/src/mode/sub_mode.cpp:158-171 | Every interleaving: the totals have one row for each publisher ever heard, with its messages, loss and bytes, and with -l the summary of all its latencies |
| `SubRows.LostTickIsSinceTick` | src/ros2_perf/src/mode/sub_mode.cpp:98-101 | Every interleaving: a publisher's tick loss is the loss counted for its arrivals minus the loss counted for those up to the last tick |
| `Report.SortedRows` | src/ros2_perf/src/mode/sub_mode.cpp:168-170 | Rows collected in any order and sorted by number come out in first-heard order |
| `Stats.WelfordPass` | src/ros2_perf/src/stats.cpp:72-91 | After every prefix the one-pass loop holds the least, the greatest, n*mean == sum and m2 == the sum of squared deviations from that mean |
| `Stats.WelfordStep` | src/ros2_perf/src/stats.cpp:86-90 | One update turns the two-pass values of n samples into those of n+1 |
| `Stats.ShiftCenter` | src/ros2_perf/src/stats.cpp:86-90 | Moving the center by h away from the mean adds n*h^2 to the squared deviations |
| `Stats.ComputeSummary` | src/ros2_perf/src/stats.cpp:65-109 | compute_summary returns the summary given by the two-pass definitions and the sorted samples, all zero for no samples |
| `Stats.MeanBounds` | src/ros2_perf/src/stats.cpp:94 | min <= mean <= max |
| `Stats.VarianceBounds` | src/ros2_perf/src/stats.cpp:95-96 | 0 <= variance <= (max - mean)*(mean - min) |
| `Stats.RawIndexInRange` | src/ros2_perf/src/stats.cpp:55-59 | For 0 <= p <= q <= 1 the rounded rank is a valid index, so the clamp is never taken, and it grows with p |
| `Stats.PercentileRank` | src/ros2_perf/src/stats.cpp:49-61 | The p-percentile is the sorted sample at the index i with i - 1/2 <= p*(n-1) < i + 1/2: it is one of the samples, at least i+1 of them are at most it and at least n-i are at least it |
| `Stats.SummaryPercentiles` | src/ros2_perf/src/stats.cpp:102-107 | p50, p90, p95, p99 and p999 are the nearest-rank percentiles of 0.5, 0.9, 0.95, 0.99 and 0.999 |
| `Stats.PercentileUnique` | src/ros2_perf/src/stats.cpp:54-60 | The two counts and the rank determine the percentile |
| `Stats.PercentilesOrdered` | src/ros2_perf/src/stats.cpp:102-107 | min <= p50 <= p90 <= p95 <= p99 <= p999 <= max |
| `Stats.SummaryPermutation` | src/ros2_perf/src/stats.cpp:65-109 | The whole summary does not depend on the order of the samples |
| `Sorting.SortBy` | src/ros2_perf/src/stats.cpp:102 | The sort returns an ascending permutation |
| `Sorting.AscendingIntsAreUnique` | src/ros2_perf/src/stats.cpp:102 | There is only one ascending arrangement of some samples |
| `Stats.LatencyStat.Add` | src/ros2_perf/src/stats.cpp:32-44 | add: negative samples ignored, full buffers drop |
| `Stats.LatencyStat.SummaryTotal` | src/ros2_perf/src/stats.cpp:111-119 | summary_total: the summary of the total buffer |
| `Stats.LatencyStat.SummaryWindowAndReset` | src/ros2_perf/src/stats.cpp:121-130 | The summary of the window, which is emptied; the total buffer stays |
| `Stats.BuffersArePrefixes` | src/ros2_perf/src/stats.cpp:32-44 | Over any history the total buffer is the first total_cap non-negative samples and the window the first window_cap since the last reset |
| `Stats.WindowsVersusTotal` | src/ros2_perf/src/stats.cpp:111-130 | With no cap reached the windows laid end to end are the total buffer; with window_cap >= total_cap they never hold fewer samples |
| `Args.ParseArgs` | src/ros2_perf/src/args.cpp:287-302 | Everything before --ros-args is parsed and nothing after it is looked at; consumed is where it starts |
| `Args.ParseTokens` | src/ros2_perf/src/args.cpp:398-479 | The cursor loop computes the same result as parsing what is left, token list by token list |
| `Args.ParseOption` | src/ros2_perf/src/args.cpp:310-396 | parse_option: cursor, settings, status and error for every option |
| `Args.ParseMode` | src/ros2_perf/src/args.cpp:416-469 | One mode keyword with its sub-arguments |
| `Args.ParsePubSubargs` | src/ros2_perf/src/args.cpp:144-183 | parse_pub_subargs against its specification, and the cursor stays within bounds |
| `Args.ParsePingSubargs` | src/ros2_perf/src/args.cpp:201-234 | parse_ping_subargs likewise |
| `Args.ParseTriggerSubargs` | src/ros2_perf/src/args.cpp:185-250 | parse_sub_subargs and parse_pong_subargs likewise |
| `Args.StepBounds` | src/ros2_perf/src/args.cpp:398-469 | Every step of the main loop advances the cursor and never passes the end |
| `Grammar.AcceptsExactly` | src/ros2_perf/src/args.cpp:398-478 | A token list is accepted if and only if it is a concatenation of well-formed option and mode groups with at least one mode |
| `Grammar.SentenceMeaning` | src/ros2_perf/src/args.cpp:398-478 | An accepted line means: its modes in order, and for every setting and sub-argument the last group that sets it |
| `Grammar.HelpsExactly` | src/ros2_perf/src/args.cpp:320-323 | Help is shown if and only if the first token after some well-formed groups asks for it |
| `Grammar.ShowsVersionExactly` | src/ros2_perf/src/args.cpp:324-327 | Likewise for the version |
| `Complaints.ComplainsExactly` | src/ros2_perf/src/args.cpp:310-478 | A line is rejected with a given complaint if and only if it is well-formed groups followed by a fault of that kind: an unknown option, an option without its value or with one that does not fit, a sub-argument that its mode does not know, lacks its value or has one that does not fit, a stray word, or no mode at all; the complaint names the words at fault |
| `Words.AskingWords` | src/ros2_perf/src/args.cpp:320-327 | A word asks for help if and only if it is -h, --help or help, and for the version if and only if it is --version |
| `Words.BoundaryWords` | src/ros2_perf/src/args.cpp:51-63 | Sub-arguments end exactly at pub, sub, ping, pong, sanity, help or a word with a dash in front |
| `Words.OptionNames` | src/ros2_perf/src/args.cpp:320-391 | Each option is known by its own name and no other |
| `Words.KeepNames` | src/ros2_perf/src/args.cpp:269-283 | A depth other than all is a strict integer of at least 1, kept in 32 bits |
| `Words.DomainNames` | src/ros2_perf/src/args.cpp:365-370 | A domain is a strict integer from 0 to 232 |
| `Words.Defaults` | src/ros2_perf/include/ros2_perf/config.hpp:52-108 | A line of one mode keyword means that mode with the default rate, size, burst and trigger under the default topic, QoS, duration, domain and executor; sanity pings at 1 Hz |
| `Grammar.FollowGroups` | src/ros2_perf/src/args.cpp:306-309 | The parser works through any well-formed groups and arrives at what follows with the settings they describe |
| `Grammar.FindGroups` | src/ros2_perf/src/args.cpp:398-470 | Any token list is well-formed groups followed by nothing or by the point at which the parser stops |
| `Equivalence.InterleavingIrrelevant` | src/ros2_perf/src/args.cpp:306-309 | Two lines with the same options in order and the same modes in order have the same parse, however they are interleaved |
| `Equivalence.OverriddenOption` | src/ros2_perf/src/args.cpp:310-396 | An option given again later can be left out without changing the parse |
| `Equivalence.SanityIsPing` | src/ros2_perf/src/args.cpp:426-433 | Where a mode may stand, replacing sanity by ping 1Hz changes nothing if the line ends there or goes on with an option or a mode; otherwise the line with sanity is rejected at the next word |
| `Printer.RoundTrip` | src/ros2_perf/src/args.cpp:287-479 | parse(print(cfg)) == cfg for every achievable configuration, and the printed line never contains --ros-args unless the topic is that word |
| `ParserImage.ImageIsAchievable` | src/ros2_perf/src/args.cpp:287-479 | A configuration comes out of some accepted command line if and only if it is achievable (modes not empty, unused sub-arguments at default, decimal rates and duration, domain -1..232, depth 0 with keep-all) |
| `ParserImage.ParsedIsAchievable` | src/ros2_perf/src/args.cpp:287-479 | Every accepted command line yields an achievable configuration |
| `ParserImage.ReprintingIsStable` | src/ros2_perf/src/args.cpp:287-479 | Printing an accepted line's configuration and parsing it again gives the same result |
| `Numbers.CountNarrowing` | src/ros2_perf/src/args.cpp:164-169 | Any token: it is accepted as a count if and only if it is a strict integer of at least 1; its value is stored unchanged if and only if it is below 2^32, and as 0 if and only if it is a multiple of 2^32 |
| `Numbers.CountOfDigits` | src/ros2_perf/src/args.cpp:35-49 | Each value from 1 to 2^63 - 1 is written by some token, and is accepted with its low 32 bits |
| `Numbers.StrictInt64OfDigits` | src/ros2_perf/src/args.cpp:35-49 | Decimal digits of a number below 2^63 are read as that number |
| `Numbers.ReadScaled` | src/ros2_perf/src/args.cpp:73-97 | Digits followed by an optional exponent read as the scaled number, leaving the unit |
| `Decimals.ReadDecimal` | src/ros2_perf/src/args.cpp:81-85 | Optional sign, digits a, a point, digits b (not both empty) and an optional exponent e read as the integer written by a and b, signed, times 10^(e - |b|), leaving what follows as the unit |
| `Decimals.ReadWhole` | src/ros2_perf/src/args.cpp:81-85 | The same without a point |
| `Decimals.ExponentRead` | src/ros2_perf/src/args.cpp:81-85 | An exponent is e or E, an optional sign and digits, read as that signed number |
| `Decimals.NumberExactly` | src/ros2_perf/src/args.cpp:81-85 | A text starts with a number if and only if, after an optional sign, it goes on with a digit or with a point and a digit |
| `Decimals.ScaledIsPower` | src/ros2_perf/src/args.cpp:81-85 | Scaling by k multiplies by 10^k, and by -k divides by it |
| `Decimals.ValueConcat` | src/ros2_perf/src/args.cpp:81-85 | Digits are read positionally |
| `Decimals.FrequencyMeans` | src/ros2_perf/src/args.cpp:99-110 | A rate is a number alone or in Hz, or a number in kHz times 1000; with any other unit it is no rate |
| `Decimals.FrequencyElse` | src/ros2_perf/src/args.cpp:101-104 | Of the texts that start with no number only inf is a rate, and it is 0 |
| `Decimals.SizeMeans` | src/ros2_perf/src/args.cpp:112-129 | A size is a number alone or in B, times 1024 with k, kB or KiB, times 1048576 with M, MB or MiB, truncated to whole bytes from 0 to 2^32 - 1, and nothing else |
| `Decimals.DurationMeans` | src/ros2_perf/src/args.cpp:352-358 | A duration is a non-negative number with nothing after it |
| `Decimals.HalfHertz` | src/ros2_perf/src/args.cpp:99-110 | 0.5Hz is half a hertz |
| `Decimals.OneAndHalfSeconds` | src/ros2_perf/src/args.cpp:352-358 | -D 1.5 is one and a half seconds |
| `Decimals.OneAndHalfKilobytes` | src/ros2_perf/src/args.cpp:112-129 | 1.5k is 1536 bytes |
| `Decimals.StrictInt64Means` | src/ros2_perf/src/args.cpp:35-49 | Digits are read as their value up to 2^63 - 1, with a minus sign as its negation down to -2^63, and rejected beyond |
| `Decimals.StrictInt64Only` | src/ros2_perf/src/args.cpp:35-49 | Nothing but digits with an optional minus sign is a strict integer |
| `Printer.CountRead` | src/ros2_perf/src/args.cpp:269-283 | Every 32-bit count, 0 included, can be written so that it is read back |
| `Schedule.PubTickSlack` | src/ros2_perf/src/main.cpp:96-111 | The slack is the largest half interval among the rate-limited publishers, at least 1 ns and at most 100 ms |
| `Schedule.SingleSlack` | src/ros2_perf/src/main.cpp:96-111 | With one rate-limited publisher the slack is shorter than its interval if and only if that is more than one nanosecond |
| `Schedule.DueByIsCount` | src/ros2_perf/src/mode/pub_mode.cpp:139-143 | The i-th message from m0 on is due by time t if and only if i < max(0, floor(t/interval) - m0) |
| `PubReports.Play` | src/ros2_perf/src/mode/pub_mode.cpp:67-118 | publish_one's hand-over and count and the ticks in any order of one another: what is published, numbered and stamped, and what each tick reports |
| `PubReports.NothingDropped` | src/ros2_perf/src/mode/pub_mode.cpp:84-86 | Any interleaving: the reports and the messages counted since the last of them add up to the messages counted, which are those handed over or one fewer; one report a tick |
| `PubReports.TimelyReports` | src/ros2_perf/src/main.cpp:285-298 | Messages counted at most J late and ticks at most T late (a message at its last allowed instant before a tick at that instant): if at every tick time t, J <= t mod interval and T < interval - t mod interval, then the k-th tick reports the messages due since the tick before, and the reports add up to all messages due by the last tick |
| `PubReports.IdealReports` | src/ros2_perf/src/main.cpp:285-298 | The same with nothing late, without a condition |
| `PubReports.ToleranceExactly` | src/ros2_perf/src/main.cpp:93-111 | What the slack is for: if interval divides one second into c parts, all traces within the lateness J, T report c in every tick after the first if and only if J <= slack mod interval and T < interval - slack mod interval |
| `PubReports.TolerantReports` | src/ros2_perf/src/main.cpp:93-111 | In that case the first tick reports slack/interval more and m0 fewer, all others exactly c |
| `Schedule.SlackCentres` | src/ros2_perf/src/main.cpp:96-111 | Uncapped, a single publisher's slack leaves half an interval on either side: slack mod interval is interval / 2 |
| `PubReports.LoopPublishes` | src/ros2_perf/src/mode/pub_mode.cpp:139-155 | The messages of such an interleaving are those which the deadline loop publishes with ideal sleeps |
| `PubReports.IdealJointExists` | src/ros2_perf/src/main.cpp:285-298 | Interleavings in which everything happens when due exist with any number of ticks |
| `PubReports.ReportsAddUp` | src/ros2_perf/src/main.cpp:285-298 | No drift: over any number of ticks the reports add up to floor(t/interval) - m0, so they stay within one message of the ideal |
| `PubReports.ExactReports` | src/ros2_perf/src/main.cpp:292-298 | If interval divides one second every tick after the first reports 1e9/interval; the first reports slack/interval more and m0 fewer |
| `PubReports.SteadyReports` | src/ros2_perf/src/main.cpp:292-298 | Ticks report the same number c every second from the second on if and only if c*interval is one second, whatever the slack and start |
| `Schedule.ExactInterval` | src/ros2_perf/src/mode/pub_mode.cpp:52-56 | A rate whose period is a whole number of nanoseconds gets exactly that interval |
| `Schedule.IntervalRounds` | src/ros2_perf/src/mode/pub_mode.cpp:52-56 | Any rate: the interval is the nearest whole number of nanoseconds to one second over the message rate, halves up, at least one; a burst of 0 counts as 1 |
| `PubReports.NominalReports` | src/ros2_perf/src/mode/pub_mode.cpp:52-56 | A publisher whose period is a whole number of nanoseconds reports exactly rate*burst in every tick after the first |
| `Publisher.PubMode.PublishOne` | src/ros2_perf/src/mode/pub_mode.cpp:109-118 | The k-th message since the start carries number k; one more message is sent |
| `Publisher.PubMode.Publish` | src/ros2_perf/src/mode/pub_mode.cpp:109-116 | Its first part, up to the hand-over: the message is out and not counted |
| `Publisher.PubMode.CountSent` | src/ros2_perf/src/mode/pub_mode.cpp:117 | Its second part: the count catches up with the messages out |
| `Publisher.PubMode.Run` | src/ros2_perf/src/mode/pub_mode.cpp:134-155 | The deadline loop: which messages go out, for any clock readings and stop flags |
| `Publisher.PubMode.RunFlatOut` | src/ros2_perf/src/mode/pub_mode.cpp:124-132 | The free-running loop: how many messages go out before the stop flag is seen, and that earlier ones stay |
| `Publisher.SilentBurst` | src/ros2_perf/src/mode/pub_mode.cpp:126-128 | The free-running loop publishes nothing forever if and only if burst is 0 |
| `Publisher.FlatOutPublishes` | src/ros2_perf/src/mode/pub_mode.cpp:124-130 | Any other burst publishes at least every second time the stop flag is checked |
| `Publisher.PubMode.Tick` | src/ros2_perf/src/mode/pub_mode.cpp:84-86 | The messages counted since the last tick, also between a hand-over and its count |
| `Publisher.NothingEarly` | src/ros2_perf/src/mode/pub_mode.cpp:135-153 | No message goes out before anchor + (m+1)*interval, and the first deadline lies after the start: no start-up burst |
| `Publisher.IdealCount` | src/ros2_perf/src/mode/pub_mode.cpp:141-155 | With ideal sleeps the messages out by time t are exactly the first DueBy ones |
| `MainLoop.PollUntil` | src/ros2_perf/src/main.cpp:282-312 | Ticks are never early. With every delay at most lag, up to one second: the k-th tick runs within lag of t0 + k seconds + slack however long the loop runs, every tick due more than lag before the limit runs, and the loop stops less than 100 ms and two delays after it. With an ideal clock the loop stops less than 50 ms after the limit if and only if a tick falls due in those 50 ms |
| `MainLoop.DriftExactly` | src/ros2_perf/src/main.cpp:285-298 | The bound on the delays is exact: every iteration keeps the lateness within lag if and only if lag is at most one second |
| `MainLoop.LateStop` | src/ros2_perf/src/main.cpp:299-311 | For the smallest slack and a duration of 70 ms no tick falls due in the 50 ms after it |
| `MainLoop.StopsLate` | src/ros2_perf/src/main.cpp:299-311 | So with an ideal clock the loop is left at 120 ms or later, more than 50 ms too late |
| `Peers.PeerTracker.Sync` | src/ros2_perf/src/mode_utils.cpp:35-67 | known becomes the snapshot; one match per new endpoint, then one departure per vanished one, and nothing else is printed |
| `Peers.PeerTracker.FlushGone` | src/ros2_perf/src/mode_utils.cpp:69-76 | known becomes empty and one departure per known endpoint is printed |
| `Peers.EventsAlternate` | src/ros2_perf/src/mode_utils.cpp:35-67 | Every interleaving of queries, (possibly stale) applications, joins and flushes: each endpoint's events alternate starting with a match, matches exceed departures by one exactly while it is known, and all endpoints are balanced if and only if nothing is known |
| `Peers.FlushBalances` | src/ros2_perf/src/main.cpp:314-322 | main's order at shutdown, flushing only after it left its loop and joined the threads that synchronise: from the first flush on, in every interleaving, nothing is known and every endpoint's matches and departures balance |
| `Peers.FlushTooEarly` | src/ros2_perf/src/mode_utils.cpp:35-76 | The order is needed: a flush before a thread is joined can be followed by its stale snapshot, which leaves an endpoint matched |

## Left out

- rclcpp nodes, executors, wait sets, QoS and graph queries: library calls; only a network and a graph snapshot remain of them.
- report.cpp, the number formatting, the usage text and the banner: printing only. Error messages are kept as what they name, not as their wording.
- GID formatting and hashing: a GID is an opaque value with equality, and the hash map a map visited in any order.
- Floating-point rounding, square roots and the corner forms of strtod (hexadecimal, nan, infinity, leading blanks): statistics and rates are reals, the variance stands for the squared standard deviation, and numbers are decimal with optional sign, point and exponent.
- Overflow of the 64-bit counters and of 64-bit nanosecond times: only the 32-bit fields and the signed difference of sequence numbers keep their widths.
- Signals, environment variables and thread creation; weak memory orderings.
- The timer of the rate-driven ping sender and the 200 ms start-up pause: in the step system the sender may wake at any time, so everything proved holds for every timing.
- The pong node's own round-trip counter in the step system: PongNode.PongMode covers it by itself.
- The computation of the one-way latency and of the sample size in the subscriber's callback: they are parameters of SubRegistry.PubRegistry.Receive.
- The derived figures of the tick lines (packets per second, megabits per second) of sub and pub.
- MainLoop.PollUntil: models the loop with a duration limit and no signal; without a limit the loop only ends by a signal.
- MainLoop.PollUntil: the time a tick takes and every delay are in `late`; for delays beyond one second only what holds for any delay is stated, that neither ticks nor the exit are early.
- Publisher.PubMode.RunFlatOut: the stop flag is represented by the number of checks that find it clear, so the yield between rounds is not modelled.
- PingPong.TickObservesBoundedPongs: the handler is one thread at a time; several executor threads inside handle at once are not modelled.
- LossAccounting.LossRefinesMissing: stated for numbers below 2^32, because last_seq is narrower; PerfectDeliveryLossless says what happens beyond for uninterrupted delivery.
- LossAccounting.EndToEnd: published <= 2^32 for the same reason.
- Equivalence.SanityIsPing: says nothing about what ping 1Hz does where a sub-argument follows and sanity is rejected.
- PubReports.TimelyReports: constant lateness bounds J and T; when they are exceeded only PubReports.NothingDropped, PubReports.ToleranceExactly and Publisher.NothingEarly say what remains.
- Peers.FlushBalances: that cancelling and joining the executor, and main leaving its loop, end all calls of sync_from_graph is what Join stands for; executors, callbacks and std::thread are library code.
