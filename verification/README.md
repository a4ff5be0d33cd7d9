# Verification of the transcoding pipeline

Dafny models of the parts of ffmpeg's command-line tools that decide what runs,
in which order packets and frames move, and which timestamps they carry, with
proofs of the properties those parts are built to have.

* `Topology`, `Rings`, `Cycles`, `CycleCheck`: the transcoding graph, how it is
  connected, and the search for cycles before it is started.
* `EofDrain`: why cycles have to be excluded, namely so that the end of the inputs
  reaches every output.
* `Waking`, `Scheduler`: which demuxers and filtergraphs may run.  `Waking` gives
  the meaning of the unchoke walks as a smallest closed set of tasks; `Scheduler`
  holds the walks, the update and the events that lead to one.
* `Stalls`, `Progress`: who waits for whom on full and empty queues, and when an output
  that the scheduler wants to go on can come to a halt all the same.
* `Waiter`: the lock and condition variable by which a task is choked.
* `MuxStart`, `MuxHandoff`: buffering packets until a muxer starts, the merge that
  flushes them, and the race between senders and the start.
* `EofProtocol`: how each destination learns of the end of its stream, once.
* `VideoSync`: duplicating and dropping frames for a target frame rate.
* `DemuxLoop`, `Discontinuity`, `AudioTimebase`, `MuxFixup`: repair of timestamps in
  the demuxer, the audio decoder and the muxer.
* `Packets`, `Timestamps`, `Divisors`: packets, time bases, rescaling, comparison
  and divisors, as libavutil has them.

Objects that the program updates in place are classes, and their invariants
(`Valid`) hold over every run of their methods.  Threads are state machines whose
steps are single atomic accesses and lock operations; a run is any sequence of
steps.  When the receivers at the other end of a queue leave or fail is part of the
input.  Integers are unbounded unless a width is the point; doubles are reals.

Where the code and what is said about it differ:

* The search for cycles does not look at decoders and encoders that feed each
  other (`Rings.DecEncRing`), from where every walk upstream goes on for ever.
  `Rings.ChainsEndIffNoRing` shows that nothing else can keep a walk from ending,
  and `Rings.Builder.Connect` that no such ring arises in the order in which the
  program connects.
* The frame counters add up after every call with a frame that does not refuse a
  duplication.  `VideoSync.Overcount` says exactly which calls count one frame as
  dropped twice, and the invariant carries the number of them, so the law is
  exact for all runs; `VideoSync.LastCallCounts` tells from the history when the
  last call does, and `VideoSync.DropCountedTwice` is a run where it shows.
* The order of dts is kept from one packet to the next as long as both have a dts.
  Over a whole run it holds if and only if no packet after a gap arrives with a dts
  (or an earlier pts) that does not continue after the last one before the gap:
  `MuxFixup.MuxStream.Valid` and `BreaksOrder`.  `UntimedPacketBreaksOrder` is a run
  that loses it.
* The counters of a filtergraph's closed inputs do not see the end of its task,
  which closes all streams of its queue once more (`EofProtocol.SideOk`).
* In time bases other than microseconds a corrected packet does not land exactly on
  its prediction (`Discontinuity.BesidePrediction`), nor move exactly with the offset.
  `CorrectionLands` and `MovedByOffset` state by how much it may miss.  That matters
  in time bases with a unit of 0.2 s or of twice the threshold, up to 4 microseconds,
  and in no finer one: `FineTimeBase`, `CoarseTimeBase` and `QuarterSecondUnits`.
* The last timestamp of a demuxer starts at zero, not as unknown, so in a format with
  discontinuities the first packet is moved to zero if it is more than the threshold
  away from there (`Discontinuity.Demuxer.FirstPacketMoved`).
* The end of a stream opens the queue of its decoder, so a queue does not always follow
  its demuxer.  The two differ exactly for a decoder whose stream was ended after the
  demuxer last changed (`Scheduling.QueuesFollow`).
* The walks of the scheduler are there to keep a source from getting stuck.  They follow
  the first destination of each stream and decoder output, and do not look behind the
  outputs of filtergraphs, so an eligible stream can come to wait for a filtergraph that
  sleeps because it wants to be scheduled directly: `Progress.SideBranchStarves` is a graph
  and `SideBranchRun` a run.  `StarvingGraphs` says on which graphs that can happen, and
  `StarvesIff` at which moments.
* The source that runs when no stream is eligible need not have a thread
  (`Scheduling.FallbackLive`).
* After a change of sample rate the decoder's conversion of timestamps remembers the
  end of a frame in samples, not in its time base, and may move a frame whose timestamp
  fits (`AudioTimebase.GapAfterRateChange`).  It can do so exactly if
  timestamps come in a coarser time base (`KeptIffNotCoarser`), whatever the difference
  if that is at least twice as coarse (`DriftMoves`).
* A comment says that the byte count of a pre-muxing queue is updated when a packet
  is pulled; the flush does not do so.  The count is exact while packets are
  buffered, which is when it is used.

## Model

| member | source | states |
|---|---|---|
| Topology.ConnectAddsOneLink | ffmpeg/ffmpeg-src/fftools/ffmpeg_sched.c:937-1113 | connecting two nodes appends the destination to the source's list, sets the destination's source, and changes no other link of the graph |
| Topology.ConnectKeepsLinked | ffmpeg/ffmpeg-src/fftools/ffmpeg_sched.c:937-1113 | however a graph is put together, each node's destination list and the source fields of its destinations agree |
| Rings.Builder.Connect | ffmpeg/ffmpeg-src/fftools/ffmpeg_sched.c:937-1113 | sch_connect changes the graph in place to the one with that connection more; over any sequence of calls both records agree, and as long as the program's order is kept there is no ring of decoders and encoders |
| Topology.OneSourcePerDst | ffmpeg/ffmpeg-src/fftools/ffmpeg_sched.c:937-1113 | no node is listed as a destination by two sources |
| Topology.ConnectedPorts | ffmpeg/ffmpeg-src/fftools/ffmpeg_sched.c:1583-1687 | in a graph that passes the connection checks every output has a destination and every input a source of the right kind |
| Topology.PortsSuffice | ffmpeg/ffmpeg-src/fftools/ffmpeg_sched.c:1583-1687 | and these checks ask for nothing else |
| Topology.ChainBoundSuffices | ffmpeg/ffmpeg-src/fftools/ffmpeg_sched.c:1480-1498 | following decoder and encoder sources ends at all exactly if it ends within as many steps as there are decoders and encoders |
| Rings.ChainsEndIffNoRing | ffmpeg/ffmpeg-src/fftools/ffmpeg_sched.c:1480-1498 | in a graph that passes the connection checks the walk from every source ends if and only if no decoder or encoder feeds itself through others |
| Rings.RingNeverResolves | ffmpeg/ffmpeg-src/fftools/ffmpeg_sched.c:1480-1498 | from a decoder or encoder on a ring the walk never ends |
| Rings.ConnectRing | ffmpeg/ffmpeg-src/fftools/ffmpeg_sched.c:937-1113 | a connection closes a ring if and only if what feeds its source is fed by its destination |
| Rings.InOrderNoRing | ffmpeg/ffmpeg-src/fftools/ffmpeg_opt.c:1524-1537 | a decoder or encoder that is connected to what feeds it before it feeds anything, as loopback decoders are after all outputs, closes no ring |
| Rings.DecEncRing | ffmpeg/ffmpeg-src/fftools/ffmpeg_sched.c:1583-1696 | the checks before the start admit a decoder and an encoder that feed each other |
| Cycles.LassoIffCycle | ffmpeg/ffmpeg-src/fftools/ffmpeg_sched.c:1562-1574 | there is a cycle exactly if a search from some filtergraph can meet a filtergraph twice |
| Cycles.FeederIsLower | ffmpeg/ffmpeg-src/fftools/ffmpeg_sched.c:1500-1581 | in a graph without cycles the length of the longest upstream path is a rank that drops from a filtergraph to those that feed it |
| CycleCheck.SrcFiltergraph | ffmpeg/ffmpeg-src/fftools/ffmpeg_sched.c:1480-1498 | the loop ends at the demuxer or filtergraph behind a chain of decoders and encoders |
| CycleCheck.SearchIsPath | ffmpeg/ffmpeg-src/fftools/ffmpeg_sched.c:1508-1534 | the stack and the current node are a path of different filtergraphs, so the stack never outgrows the number of filtergraphs |
| CycleCheck.PushStep | ffmpeg/ffmpeg-src/fftools/ffmpeg_sched.c:1521-1534 | descending keeps exactly the nodes of the path marked as started, finds room on the stack, and leaves less work, although finished nodes are explored again |
| CycleCheck.PopStep | ffmpeg/ffmpeg-src/fftools/ffmpeg_sched.c:1537-1543 | going back to the frame below keeps exactly the nodes of the path marked as started and leaves less work |
| CycleCheck.FinishedFrameIsSafe | ffmpeg/ffmpeg-src/fftools/ffmpeg_sched.c:1508-1537 | a node all of whose inputs have been explored has no cycle upstream |
| CycleCheck.LastStep | ffmpeg/ffmpeg-src/fftools/ffmpeg_sched.c:1537-1544 | when the first node is finished there is no cycle upstream of it |
| CycleCheck.CheckAcyclicForOutput | ffmpeg/ffmpeg-src/fftools/ffmpeg_sched.c:1500-1545 | terminates on every graph and reports a cycle exactly if one is upstream of the given filtergraph |
| CycleCheck.CheckAcyclic | ffmpeg/ffmpeg-src/fftools/ffmpeg_sched.c:1547-1581 | succeeds exactly on the graphs in which no filtergraph feeds itself |
| CycleCheck.StartPrepare | ffmpeg/ffmpeg-src/fftools/ffmpeg_sched.c:1583-1696 | succeeds exactly on the fully connected graphs without a cycle, and terminates on every linked graph without a ring of decoders and encoders |
| EofDrain.DrainsIffAcyclic | ffmpeg/ffmpeg-src/fftools/ffmpeg_sched.c:1562-1574 | what the check is for: the end of all inputs is bound to reach every task and every muxer stream if and only if the graph has no cycle |
| EofDrain.AcyclicDrains | ffmpeg/ffmpeg-src/fftools/ffmpeg_sched.c:2604-2629 | without a cycle, once no task is left that could end, all tasks have ended and all muxer streams have got EOF |
| EofDrain.SafeComponentsSettle | ffmpeg/ffmpeg-src/fftools/ffmpeg_sched.c:1562-1574 | with a cycle, the tasks upstream of which there is none can end and leave the others waiting for ever |
| EofDrain.SafeComponentsEnd | ffmpeg/ffmpeg-src/fftools/ffmpeg_sched.c:1562-1574 | and these are bound to end: they are the smallest set in which no task is left that could end |
| Waking.OriginStep | ffmpeg/ffmpeg-src/fftools/ffmpeg_sched.c:1324-1360 | each step of the upstream walk keeps the task it leads to and comes closer to it by rank or chain length |
| Waking.LeastIsLeast | ffmpeg/ffmpeg-src/fftools/ffmpeg_sched.c:1289-1360 | there is a smallest set of tasks around given ones in which no demuxer comes, along the first destination of each stream and decoder output, to a filtergraph that wants what a task outside would produce |
| Stalls.HeldUpIffAwaits | ffmpeg/ffmpeg-src/fftools/thread_queue.c:117-220 | without a cycle of filtergraphs full and empty queues never hold up one another: whatever cannot go on waits, along a chain of them, for a task that does not run |
| Stalls.AwaitedIff | ffmpeg/ffmpeg-src/fftools/ffmpeg_sched.c:2509-2552 | the tasks that whoever wants something from a source may come to wait for are exactly the one at the end of the upstream walk and the filtergraphs below that, through any destinations, that want to be scheduled directly |
| Scheduling.Scheduler.UnchokeDownstream | ffmpeg/ffmpeg-src/fftools/ffmpeg_sched.c:1289-1322 | for every filtergraph reached through first decoder destinations and all encoder destinations, the task it waits for runs; tasks are only ever unchoked, and none outside the smallest closed set |
| Scheduling.Scheduler.UnchokeForStream | ffmpeg/ffmpeg-src/fftools/ffmpeg_sched.c:1324-1360 | the task at the origin of the source runs, each demuxer that starts to run has all it needs, nothing else is unchoked; the mutual recursion ends |
| Scheduling.Scheduler.UnchokeDemux | ffmpeg/ffmpeg-src/fftools/ffmpeg_sched.c:1329-1337 | a demuxer is unchoked together with what the first destination of each stream needs |
| Scheduling.LeastReached | ffmpeg/ffmpeg-src/fftools/ffmpeg_sched.c:1414-1446 | the tasks unchoked by the walks are the smallest closed set around the sources of the eligible streams |
| Scheduling.Scheduler.TrailingDts | ffmpeg/ffmpeg-src/fftools/ffmpeg_sched.c:438-458 | the result is the earliest end among the counted streams, or unknown if one has not started or none is below INT64_MAX |
| Scheduling.TrailingStreamIsEligible | ffmpeg/ffmpeg-src/fftools/ffmpeg_sched.c:1418-1428 | some stream passes the tolerance tests if and only if some unfinished stream's clock has not run out, and every trailing stream passes |
| Scheduling.EligibleIff | ffmpeg/ffmpeg-src/fftools/ffmpeg_sched.c:1416-1428 | a stream that still gets packets is eligible if and only if it is less than the tolerance ahead of every other such stream, or, as long as some have not started, if it has not either |
| Scheduling.EligibleSourceRuns | ffmpeg/ffmpeg-src/fftools/ffmpeg_sched.c:1430-1432 | the source behind every eligible stream runs after an update |
| Scheduling.ClosingSourceRuns | ffmpeg/ffmpeg-src/fftools/ffmpeg_sched.c:1436-1446 | so does the source behind every input that is closed for reading and still sent to |
| Scheduling.SomethingRuns | ffmpeg/ffmpeg-src/fftools/ffmpeg_sched.c:1448-1458 | after an update some waiter is open, unless all demuxers and filtergraphs have exited |
| Scheduling.FallbackLive | ffmpeg/ffmpeg-src/fftools/ffmpeg_sched.c:1448-1458 | the source that runs when no stream is eligible has a live thread if and only if the first demuxer that has not exited has streams, or all have and some filtergraph has not |
| Scheduling.RunningIsClosed | ffmpeg/ffmpeg-src/fftools/ffmpeg_sched.c:1414-1446 | while some stream is eligible, whatever filtergraph the walk from a demuxer that runs comes to finds the task it wants running |
| Progress.StarvesIff | ffmpeg/ffmpeg-src/fftools/ffmpeg_sched.c:1414-1434 | at any moment an eligible stream can get nothing if and only if a filtergraph that wants to be scheduled directly, and does not run, is below the end of its upstream walk |
| Progress.StarvesForWants | ffmpeg/ffmpeg-src/fftools/ffmpeg_sched.c:1324-1360 | given what each filtergraph wants, that can happen under some clocks if and only if the walks for one stream alone leave such a filtergraph out |
| Progress.StarvingGraphs | ffmpeg/ffmpeg-src/fftools/ffmpeg_sched.c:1287-1360 | it can happen at some moment exactly on the graphs where something upstream of a muxer stream also leads to a filtergraph that is neither on the way to the stream nor, from a demuxer, reached by the walk along first destinations |
| Progress.PlainNeverStarves | ffmpeg/ffmpeg-src/fftools/ffmpeg_sched.c:1287-1322 | it never happens where filtergraphs lead only to encoders, encoders only to muxers, and every other port has one destination |
| Progress.SideBranchStarves | ffmpeg/ffmpeg-src/fftools/ffmpeg_sched.c:2532-2535 | a graph and a moment at which it does: a filtergraph is blocked on one that sleeps |
| Progress.SideBranchRun | ffmpeg/ffmpeg-src/fftools/ffmpeg_sched.c:2517-2535 | three events after which the scheduler is there |
| Progress.DrainsUnlessChoked | ffmpeg/ffmpeg-src/fftools/ffmpeg_sched.c:2604-2629 | the end of the inputs gets through full queues too: unless a task is choked, tasks that end once their inputs have and nothing blocks them all end |
| Scheduling.Scheduler.ScheduleUpdate | ffmpeg/ffmpeg-src/fftools/ffmpeg_sched.c:1392-1471 | after the update exactly the smallest closed set around the eligible and closing sources runs, plus the first source that has not exited if no stream is eligible; with each demuxer that changes, the queues that it feeds first are opened or closed; nothing changes once termination was requested |
| Scheduling.Scheduler.UnchokeMuxSources | ffmpeg/ffmpeg-src/fftools/ffmpeg_sched.c:1414-1434 | unchokes for every eligible muxer stream and reports whether there was one |
| Scheduling.Scheduler.UnchokeClosingSources | ffmpeg/ffmpeg-src/fftools/ffmpeg_sched.c:1436-1446 | unchokes the sources of inputs that no longer read and still are sent to |
| Scheduling.StartWaiters | ffmpeg/ffmpeg-src/fftools/ffmpeg_sched.c:1406-1412 | all tasks are marked to be choked and remember their present state |
| Scheduling.UnchokeFirstAlive | ffmpeg/ffmpeg-src/fftools/ffmpeg_sched.c:1448-1458 | the first task that has not exited is marked to run, if there is one |
| Scheduling.FinishWaiters | ffmpeg/ffmpeg-src/fftools/ffmpeg_sched.c:1460-1469 | every filtergraph's flag is set to what the update has decided |
| Scheduling.Scheduler.FinishDemux | ffmpeg/ffmpeg-src/fftools/ffmpeg_sched.c:1460-1469 | the same for demuxers; the queue of a decoder follows the only demuxer that feeds it first, except from the end of its stream until that demuxer next changes |
| Scheduling.Scheduler.ChokeDemux | ffmpeg/ffmpeg-src/fftools/ffmpeg_sched.c:1362-1390 | changes the queues of exactly the decoders that are first destination of a stream of the demuxer |
| Scheduling.FeedsFirstUnique | ffmpeg/ffmpeg-src/fftools/ffmpeg_sched.c:1362-1390 | no two demuxers choke the same queue |
| Scheduling.Scheduler.WantInput | ffmpeg/ffmpeg-src/fftools/ffmpeg_sched.c:2517-2530 | the index of the preferred input never exceeds the number of inputs; if it changes the schedule follows, and else nothing is done |
| Scheduling.Scheduler.ChokeInputs | ffmpeg/ffmpeg-src/fftools/ffmpeg_sched.c:2643-2653 | a filtergraph that wants nothing from upstream is scheduled directly, always with an update |
| Scheduling.Scheduler.MuxStreamEvent | ffmpeg/ffmpeg-src/fftools/ffmpeg_sched.c:2008-2020 | a packet or EOF changes the clock of its own stream only, and the schedule follows |
| Scheduling.Scheduler.SendFinish | ffmpeg/ffmpeg-src/fftools/ffmpeg_sched.c:2294-2315 | the end of a filtergraph input is sent once, the counter equals the number of ended inputs, the control stream ends once, with the last input, and the first time the schedule follows |
| Scheduling.Scheduler.ReceiveFinish | ffmpeg/ffmpeg-src/fftools/ffmpeg_sched.c:2553-2578 | an input is closed for reading and counted once, the control stream with the last of them, and the schedule follows, so that what still sends to it runs |
| Scheduling.Scheduler.EndReading | ffmpeg/ffmpeg-src/fftools/ffmpeg_sched.c:2609-2610 | when its task ends, all inputs of a filtergraph and the control stream are closed for reading once more, past the counter and the flags, which keep their meaning |
| Scheduling.Scheduler.FilterDone | ffmpeg/ffmpeg-src/fftools/ffmpeg_sched.c:2604-2629 | afterwards exactly the filtergraph inputs and encoders that it feeds have got EOF, besides those that had it before; its own inputs are closed, its task counts as gone, and the schedule follows |
| Scheduling.Scheduler.EndDecoder | ffmpeg/ffmpeg-src/fftools/ffmpeg_sched.c:2045-2059 | the first time, the end of a stream marks the decoder's queue as finished and opens it |
| Scheduling.QueuesFollowEnd | ffmpeg/ffmpeg-src/fftools/thread_queue.c:227-241 | that keeps the relation between queues and demuxers |
| Scheduling.EndedQueueAfter | ffmpeg/ffmpeg-src/fftools/thread_queue.c:227-241 | a queue opened by the end of its stream is closed by an update exactly if that chokes a demuxer which was running |
| Scheduling.Scheduler.DemuxDone | ffmpeg/ffmpeg-src/fftools/ffmpeg_sched.c:2159-2176 | every decoder that the demuxer feeds learns of the end and can read its queue, also if the demuxer is choked, unless it is choked just then; the demuxer counts as gone, and the schedule follows |
| Scheduling.Scheduler.MuxDone | ffmpeg/ffmpeg-src/fftools/ffmpeg_sched.c:2238-2251 | no stream of the muxer holds the others back any more, and the schedule follows |
| Scheduling.Scheduler.Stop | ffmpeg/ffmpeg-src/fftools/ffmpeg_sched.c:2725-2733 | from then on, over any further events, every task stays choked and every decoder may read its queue |
| MuxStart.Mux.FindEarliest | ffmpeg/ffmpeg-src/fftools/ffmpeg_sched.c:1124-1146 | finds the first stream with an EOF or an untimed packet in front, or else the earliest front packet, of equals the first; none if all FIFOs are empty |
| MuxStart.Mux.Start | ffmpeg/ffmpeg-src/fftools/ffmpeg_sched.c:1115-1175 | the flush ends with all FIFOs empty, keeps each stream's order, sends every packet unless the receiver had finished its stream by then, merges sorted streams into one global order across time bases, and fails only on a stream that had already been finished, losing the one packet that it could not send |
| MuxStart.Mux.Take | ffmpeg/ffmpeg-src/fftools/ffmpeg_sched.c:1148-1166 | one round takes the front element of one FIFO and passes it on, discards it because the receiver is gone, or fails on a finished stream; nothing else changes |
| MuxStart.RoundKeeps | ffmpeg/ffmpeg-src/fftools/ffmpeg_sched.c:1121-1172 | such a round keeps the order of each stream, the accounts of what has been sent, and the merge |
| MuxStart.Mux.Emit | ffmpeg/ffmpeg-src/fftools/ffmpeg_sched.c:1154-1165 | a packet goes to the queue, or is discarded exactly if the receiver has finished the stream, or is refused on a finished one |
| MuxStart.MergingTake | ffmpeg/ffmpeg-src/fftools/ffmpeg_sched.c:1124-1154 | taking the earliest front packet keeps what was emitted sorted and no later than what is left |
| MuxStart.Mux.QueuePacket | ffmpeg/ffmpeg-src/fftools/ffmpeg_sched.c:1931-1965 | buffering changes the FIFO of its own stream only, and fails exactly if that cannot grow |
| MuxStart.Buffer | ffmpeg/ffmpeg-src/fftools/ffmpeg_sched.c:1931-1965 | a packet is appended to the FIFO unless that is full, holds the maximum and exceeds the data threshold; a full FIFO doubles, no further than the maximum once it exceeds the threshold; the byte count stays exact |
| MuxStart.PacketQueue.Send | ffmpeg/ffmpeg-src/fftools/thread_queue.c:117-150 | whenever the receiver finishes its streams: a packet is accepted, or refused with EOF exactly from then on, or with an error after the sender has finished |
| MuxHandoff.StepKeepsInv | ffmpeg/ffmpeg-src/fftools/ffmpeg_sched.c:1967-2006 | every step of a sender or of the starter keeps the state consistent, in any interleaving, also when buffering is refused or the start fails |
| MuxHandoff.HandoffKeepsOrder | ffmpeg/ffmpeg-src/fftools/ffmpeg_sched.c:1967-2006 | in every reachable state a started muxer has empty FIFOs, and each stream's packets have reached the queue in call order: all of them up to those buffered or in flight, but for those whose call has returned an error; all but one if a flush gave up on it, and a prefix of them if the receiver closed the stream |
| MuxHandoff.HistoryOfStream | ffmpeg/ffmpeg-src/fftools/ffmpeg_sched.c:1967-2006 | over runs with their steps: a stream is closed exactly if the queue has returned EOF for it, given up exactly if a flush failed on it, and called as its sender has been |
| MuxHandoff.NothingIsLost | ffmpeg/ffmpeg-src/fftools/ffmpeg_sched.c:1967-2006 | as long as neither has happened, every packet of its calls that was not refused is in the queue, buffered or in flight, in call order |
| MuxHandoff.QueueIsFinal | ffmpeg/ffmpeg-src/fftools/ffmpeg_sched.c:1967-2006 | what the queue has taken of a stream by then is all that it ever takes |
| MuxHandoff.NobodyIsBlocked | ffmpeg/ffmpeg-src/fftools/ffmpeg_sched.c:1967-2006 | in every reachable state a sender can go on unless it waits for the lock, and whoever holds the lock can |
| MuxHandoff.BothArrive | ffmpeg/ffmpeg-src/fftools/ffmpeg_sched.c:1967-2006 | a run in which a packet sent before the start and one sent after it both arrive |
| MuxHandoff.NothingStaysBehind | ffmpeg/ffmpeg-src/fftools/ffmpeg_sched.c:1967-2006 | once started, a sender that has returned has had everything delivered that was not refused |
| MuxHandoff.FailedStartStaysSilent | ffmpeg/ffmpeg-src/fftools/ffmpeg_sched.c:1115-1175 | after a failed start nothing reaches the queue any more |
| MuxHandoff.LockIsExclusive | ffmpeg/ffmpeg-src/fftools/ffmpeg_sched.c:1231-1254 | no two threads are ever in the locked section |
| Waiter.RunKeepsInv | ffmpeg/ffmpeg-src/fftools/ffmpeg_sched.c:320-347 | the invariant of the choke lock holds along every run |
| Waiter.NoLostWakeup | ffmpeg/ffmpeg-src/fftools/ffmpeg_sched.c:320-347 | in every reachable state a sleeping task is choked or about to be signalled, and none sleeps once sch_stop has signalled it |
| Waiter.WaitResult | ffmpeg/ffmpeg-src/fftools/ffmpeg_sched.c:320-337 | a task that has waited goes on only while it is not choked, and gives up only on termination |
| Waiter.ChokedTaskWaits | ffmpeg/ffmpeg-src/fftools/ffmpeg_sched.c:320-337 | choking takes effect: in every run a task that looks at the flag while it is set leaves waiter_wait only after a moment at which it was not choked or the program was stopping |
| Waiter.GoesOnWhenOpen | ffmpeg/ffmpeg-src/fftools/ffmpeg_sched.c:320-337 | a task is told to go on only after it has itself seen, in that call, that it is not choked |
| Waiter.FlagIsLastSet | ffmpeg/ffmpeg-src/fftools/ffmpeg_sched.c:339-347 | in every run the flag has the value of the last waiter_set that has stored it, and the request to stop is that of sch_stop |
| Waiter.NobodyIsBlocked | ffmpeg/ffmpeg-src/fftools/ffmpeg_sched.c:320-347 | in every reachable state a task that does not sleep, or whoever holds its lock, can go on |
| Waiter.SleepsAndReturns | ffmpeg/ffmpeg-src/fftools/ffmpeg_sched.c:320-347 | runs in which a choked task falls asleep and is woken to go on, or to give up |
| Waiter.SleeperIsWoken | ffmpeg/ffmpeg-src/fftools/ffmpeg_sched.c:320-347 | whenever the task sleeps without being choked some setter is about to signal, and in whatever run, when that setter has gone on the task has been woken |
| Waiter.StoppedTaskLeaves | ffmpeg/ffmpeg-src/fftools/ffmpeg_sched.c:2725-2733 | from the moment when sch_stop has signalled a task, in every run, it never sleeps again and every wait that goes on returns the order to terminate |
| EofProtocol.Outputs.SendToDst | ffmpeg/ffmpeg-src/fftools/ffmpeg_sched.c:2025-2059 | a finished destination ignores everything; another takes the data, gets one finish if it is to end or its receiver is gone, or fails exactly if sending to it does; EOF is reported exactly if it is finished |
| EofProtocol.Outputs.SendToAll | ffmpeg/ffmpeg-src/fftools/ffmpeg_sched.c:2061-2091 | one after the other, every destination gets the data or one finish, up to the first that fails, if any; EOF is reported exactly if all are finished |
| EofProtocol.Outputs.EncSend | ffmpeg/ffmpeg-src/fftools/ffmpeg_sched.c:2460-2491 | the same for an encoder, which never reports EOF |
| EofProtocol.Outputs.Done | ffmpeg/ffmpeg-src/fftools/ffmpeg_sched.c:2391-2414 | afterwards every destination has got exactly one finish, as its last event |
| EofProtocol.Close | ffmpeg/ffmpeg-src/fftools/ffmpeg_sched.c:2300-2309 | closing counts each input once and closes the control stream exactly when none is left |
| EofProtocol.CloseAll | ffmpeg/ffmpeg-src/fftools/ffmpeg_sched.c:2609-2610 | closes every stream once more and leaves the counter at the inputs closed by themselves |
| Timestamps.MedianIsMiddle | ffmpeg/ffmpeg-src/fftools/ffmpeg_filter.c:2489-2504 | the median is one of the three values and has the others on either side |
| VideoSync.FpsConverter.Decide | ffmpeg/ffmpeg-src/fftools/ffmpeg_filter.c:2533-2601 | how often a frame is sent is what DecisionOk demands of its sync method: dropped exactly if it ends too far behind, shown within 1.1 frames of its start, ending within half a frame |
| VideoSync.DecisionBounds | ffmpeg/ffmpeg-src/fftools/ffmpeg_filter.c:2539-2598 | 0 <= nb_frames_prev <= nb_frames; the output clock never goes back, and in a constant-rate mode only moves before the first frame |
| VideoSync.DriftBound | ffmpeg/ffmpeg-src/fftools/ffmpeg_filter.c:2571-2583 | a constant-rate output lags at most half a frame, or the drop threshold, behind the end of the input frame, and leads it by at most 2.1; with VSCFR half a frame more for a first frame whose initial gap is skipped |
| VideoSync.CountersBalance | ffmpeg/ffmpeg-src/fftools/ffmpeg_filter.c:2604-2633 | the frames one call sends are those received and duplicated less those dropped and waiting, plus one when a waiting frame is counted as dropped twice |
| VideoSync.LastCallCounts | ffmpeg/ffmpeg-src/fftools/ffmpeg_filter.c:2520-2530 | the last call counts a frame twice exactly if one is waiting and the median of the history is zero, or if the median is so large that the repetition is refused |
| VideoSync.RefusedIff | ffmpeg/ffmpeg-src/fftools/ffmpeg_filter.c:2610-2625 | frames are refused exactly if at 30 a second they would last longer than the threshold, unless none of them is a repetition |
| VideoSync.FpsConverter.VideoSyncProcess | ffmpeg/ffmpeg-src/fftools/ffmpeg_filter.c:2510-2634 | decision, history and counters of a call, with and without a frame and when the duplication is refused |
| VideoSync.FpsConverter.OutputFrame | ffmpeg/ffmpeg-src/fftools/ffmpeg_filter.c:2702-2783 | over any run: output timestamps strictly increase, in constant-rate modes without gaps; frames are conserved up to the double counts, with each counter exact; each frame is sent as decided, after its predecessor's repetitions, with its key flag; the drift is bounded |
| VideoSync.FpsConverter.SendFrames | ffmpeg/ffmpeg-src/fftools/ffmpeg_filter.c:2725-2770 | sends the frames with consecutive timestamps until the encoder takes no more |
| VideoSync.CopiesKeepOrder | ffmpeg/ffmpeg-src/fftools/ffmpeg_filter.c:2729-2765 | sending from the output clock on keeps the order and leaves no gap |
| VideoSync.KeyFramesKept | ffmpeg/ffmpeg-src/fftools/ffmpeg_filter.c:2724-2769 | a key frame keeps its flag on its first copy, or passes it on to whatever is sent next if it is left out |
| VideoSync.DropCountedTwice | ffmpeg/ffmpeg-src/fftools/ffmpeg_filter.c:2520-2533 | a run after which the counters do not add up: a late frame, left out, is counted as dropped twice at the end |
| DemuxLoop.LoopTracker.Shift | ffmpeg/ffmpeg-src/fftools/ffmpeg_demux.c:424-448 | in whatever time bases, a timestamp of a later pass is behind one of an earlier pass by no more than the two conversions round; not at all in one time base, and then the smallest timestamp stays that of the first pass |
| DemuxLoop.LoopTracker.SeekToStart | ffmpeg/ffmpeg-src/fftools/ffmpeg_demux.c:197-222 | the next pass is shifted to where all earlier ones, or the decoders, have ended, up to one conversion |
| Discontinuity.NextFrameNotEarlier | ffmpeg/ffmpeg-src/fftools/ffmpeg_demux.c:346-349 | the prediction by a forced frame rate never goes back, in spite of rounding twice |
| Discontinuity.CorrectionLands | ffmpeg/ffmpeg-src/fftools/ffmpeg_demux.c:253-256 | after three conversions a corrected dts lies within a microsecond and half a unit of the packet's time base of its target, exactly there in microseconds |
| Discontinuity.MovedByOffset | ffmpeg/ffmpeg-src/fftools/ffmpeg_demux.c:295-303 | applying the old offset and its change one by one moves a packet by the new offset up to one unit, exactly if it has not changed |
| Discontinuity.FineTimeBase | ffmpeg/ffmpeg-src/fftools/ffmpeg_demux.c:244-256 | in a time base with a unit below 0.2 s and twice the threshold the rounding of a correction does not matter: every packet leaves close to its prediction and at most 0.1 s behind |
| Discontinuity.CoarseTimeBase | ffmpeg/ffmpeg-src/fftools/ffmpeg_demux.c:244-256 | in a coarser one, up to 4 microseconds, it does: some packet is too far behind even when it has been corrected |
| Discontinuity.QuarterSecondUnits | ffmpeg/ffmpeg-src/fftools/ffmpeg_demux.c:244-256 | a corrected packet in units of a quarter of a second that is too far behind |
| Discontinuity.BesidePrediction | ffmpeg/ffmpeg-src/fftools/ffmpeg_demux.c:244-256 | a corrected packet in units of 1/90000 s that does not land on its prediction |
| Discontinuity.Advance | ffmpeg/ffmpeg-src/fftools/ffmpeg_demux.c:333-360 | the predicted dts is never before that of the packet, and ahead by the duration that its media type, its frame rate or its number of fields gives it |
| Discontinuity.Demuxer.Detect | ffmpeg/ffmpeg-src/fftools/ffmpeg_demux.c:224-290 | in any time base, a corrected packet lands on its prediction up to rounding, and both timestamps move with the offset; with -copyts only what a wrap-around explains is corrected; other formats lose the timestamps that are far from the prediction |
| Discontinuity.Demuxer.FarOffInSeconds | ffmpeg/ffmpeg-src/fftools/ffmpeg_demux.c:257-272 | a timestamp is dropped if and only if its instant is further from the prediction than the threshold, up to half a microsecond |
| Discontinuity.Demuxer.WrapExplainsOnePeriod | ffmpeg/ffmpeg-src/fftools/ffmpeg_demux.c:234-241 | a wrap-around explains a dts if and only if this lags behind the prediction by one period of the counter, up to a tenth of the lag |
| Discontinuity.MeasuredNear | ffmpeg/ffmpeg-src/fftools/ffmpeg_demux.c:231-232 | a dts is measured up to half a microsecond, but for the extreme values, which stand for themselves |
| Discontinuity.TwoFieldsPerFrame | ffmpeg/ffmpeg-src/fftools/ffmpeg_demux.c:351-362 | two fields last as long as a frame |
| Discontinuity.Demuxer.FirstPacketMoved | ffmpeg/ffmpeg-src/fftools/ffmpeg_demux.c:275-289 | the first packet that is examined is moved to zero if and only if it is further from there than the threshold |
| Discontinuity.Demuxer.DetectJump | ffmpeg/ffmpeg-src/fftools/ffmpeg_demux.c:229-287 | a dts is corrected exactly if it is too far from its prediction, or more than 0.1 s behind the previous one, where corrections apply |
| Discontinuity.Demuxer.Process | ffmpeg/ffmpeg-src/fftools/ffmpeg_demux.c:292-310 | dts and pts leave with the offset in force after the packet, up to one unit of its time base; the offset changes only by what the packet is off; an audio or video dts is within the threshold of its prediction and at most 0.1 s behind the previous one, or else on its prediction up to rounding |
| Discontinuity.Demuxer.Update | ffmpeg/ffmpeg-src/fftools/ffmpeg_demux.c:312-364 | after its first packet a stream always has a prediction, not before its dts, at the distance that fits the packet |
| Discontinuity.Demuxer.Fixup | ffmpeg/ffmpeg-src/fftools/ffmpeg_demux.c:450-462 | all of this over a run of packets of any streams, time bases and settings; in formats without discontinuities each timestamp leaves with the offset, or is dropped exactly if it is too far from the prediction; nothing else of a packet changes |
| Divisors.Bezout | ffmpeg/ffmpeg-src/libavutil/mathematics.c:37-56 | the greatest common divisor divides both numbers and is a combination of them |
| Divisors.AvGcd | ffmpeg/ffmpeg-src/libavutil/mathematics.c:37-56 | Stein's algorithm, with its shifts and for either sign, finds that divisor |
| Divisors.GcdShift | ffmpeg/ffmpeg-src/libavutil/mathematics.c:43-55 | the trailing zeros that both numbers have are those of the divisor |
| Divisors.LcmIsLeast | ffmpeg/ffmpeg-src/fftools/ffmpeg_dec.c:217-228 | prev / gcd * sr is a multiple of both rates and divides every other common multiple |
| AudioTimebase.GuardIsTight | ffmpeg/ffmpeg-src/fftools/ffmpeg_dec.c:219-228 | the guard admits only results that fit in an int, and rejects none that is more than one rate below the limit |
| AudioTimebase.FallbackIsLcm | ffmpeg/ffmpeg-src/fftools/ffmpeg_dec.c:224-226 | 28224000 is the least common multiple of 192000 and 44100 |
| AudioTimebase.ChooseTimeBase | ffmpeg/ffmpeg-src/fftools/ffmpeg_dec.c:205-234 | the new time base is 1/n with both the old denominator and the rate dividing n, unless it falls back |
| AudioTimebase.CarryExact | ffmpeg/ffmpeg-src/fftools/ffmpeg_dec.c:236-240 | a timestamp keeps its exact instant in a time base that is a multiple of the old one |
| AudioTimebase.KeepsPlace | ffmpeg/ffmpeg-src/fftools/ffmpeg_dec.c:260-275 | a frame whose timestamp, in whatever time base, is no more than rounded stays exactly at the end of the frame before |
| AudioTimebase.RoundedIsNoGap | ffmpeg/ffmpeg-src/fftools/ffmpeg_dec.c:263-269 | such a timestamp does not look like a gap |
| AudioTimebase.GapAfterRateChange | ffmpeg/ffmpeg-src/fftools/ffmpeg_dec.c:271-278 | after a change of sample rate it may be moved, because the conversion then counts samples in a finer time base |
| AudioTimebase.KeptIffNotCoarser | ffmpeg/ffmpeg-src/libavutil/mathematics.c:168-190 | a timestamp that is no more than rounded leaves its frame in place whatever the conversion remembers if and only if its time base is not coarser than the one it is converted to |
| AudioTimebase.DriftMoves | ffmpeg/ffmpeg-src/libavutil/mathematics.c:168-190 | in one at least twice as coarse, whatever the remembered end is off by, some such frame is moved |
| AudioTimebase.FrameClock | ffmpeg/ffmpeg-src/fftools/ffmpeg_dec.c:248-287 | one frame moves the clock from where it should be to where it should be, up to the errors of the conversions made |
| AudioTimebase.AudioDecoder.SamplerateUpdate | ffmpeg/ffmpeg-src/fftools/ffmpeg_dec.c:205-246 | every rate since the last fallback divides the denominator, and the last frame keeps its exact place and duration, or is off by half a unit after a fallback |
| AudioTimebase.AudioDecoder.TsProcess | ffmpeg/ffmpeg-src/fftools/ffmpeg_dec.c:248-287 | over any run, a frame without timestamp starts where the last one ended, and one with a timestamp within half a unit of its own time base and one of the decoder's; counting from the last timestamp the clock is never further off than the stated budget, and without timestamps and fallbacks exactly at the playing time of all frames before, whatever the changes of rate; while the rate is that of the time base, timestamps that are no more than rounded leave no gap between frames; at a constant rate a frame that leaves a gap is put at the nearest unit of its own timestamp |
| MuxFixup.GuessIsMedian | ffmpeg/ffmpeg-src/fftools/ffmpeg_mux.c:172-175 | the guess is the median of pts, dts and the next dts |
| MuxFixup.CorrectionKeepsOrder | ffmpeg/ffmpeg-src/fftools/ffmpeg_mux.c:166-201 | a corrected packet continues after the last dts, has no pts before its dts, and if there is no last dts leaves with its own, or its pts if that is earlier |
| MuxFixup.MuxStream.Correct | ffmpeg/ffmpeg-src/fftools/ffmpeg_mux.c:166-201 | packets in order are left alone, late ones get the earliest permitted dts, swapped ones the median |
| MuxFixup.MuxStream.Rescale | ffmpeg/ffmpeg-src/fftools/ffmpeg_mux.c:139-164 | timestamps and durations are converted to the time base of the stream; copied audio keeps its pts equal to dts and its place up to half a unit of each time base and a sample, and loses its timestamp only at the limit of 64 bits; over any run, packets whose coarse timestamps are next to the end of the one before start exactly where the samples before them end, rounded once, and one that is not coarse, or comes after a gap, at its own timestamp |
| MuxFixup.MuxStream.FixupTs | ffmpeg/ffmpeg-src/fftools/ffmpeg_mux.c:208-228 | over any run, the dts strictly increase, or do not decrease where the format permits it, from each packet to the next with no untimed one between them, and pts >= dts; over the whole run they do so if and only if no packet after a gap arrives too early for the last dts before it |
| MuxFixup.BlocksExtend | ffmpeg/ffmpeg-src/fftools/ffmpeg_mux.c:177-201 | one more packet that continues after the one before it keeps the order within blocks of timed packets |
| MuxFixup.OrderExtends | ffmpeg/ffmpeg-src/fftools/ffmpeg_mux.c:177-201 | it keeps the order of the whole run if and only if it continues after the last packet with a dts |
| MuxFixup.AllTimedInOrder | ffmpeg/ffmpeg-src/fftools/ffmpeg_mux.c:177-201 | if all packets have a dts, all are in order |
| MuxFixup.UntimedPacketBreaksOrder | ffmpeg/ffmpeg-src/fftools/ffmpeg_mux.c:177-201 | a packet without dts makes the muxer forget the order: a run in which a lower dts follows |
| AudioTimebase.FinerIffDivides | ffmpeg/ffmpeg-src/fftools/ffmpeg_dec.c:230-234 | the frame's own time base is kept exactly if it is a proper multiple of the one chosen |
| DemuxLoop.ExtremesAreExact | ffmpeg/ffmpeg-src/fftools/ffmpeg_demux.c:431-443 | the extreme timestamps are updated to the exact maximum and minimum, across time bases |
| Timestamps.CompareTsIsExact | ffmpeg/ffmpeg-src/libavutil/mathematics.c:147-158 | both paths of the comparison order the two instants exactly |
| Timestamps.RescaleDownIsFloor | ffmpeg/ffmpeg-src/libavutil/mathematics.c:58-89 | rounding down is the floor of the exact quotient for either sign |
| Timestamps.RescaleNearError | ffmpeg/ffmpeg-src/libavutil/mathematics.c:58-89 | rounding to nearest is off by at most half a unit |
| Timestamps.RescaleTie | ffmpeg/ffmpeg-src/libavutil/mathematics.c:58-89 | exactly between two results it goes away from zero |
| Timestamps.RescaleMonotone | ffmpeg/ffmpeg-src/libavutil/mathematics.c:134-145 | conversions keep the order of timestamps |
| Timestamps.RescaleFiner | ffmpeg/ffmpeg-src/libavutil/mathematics.c:134-145 | converting to a k times finer time base multiplies by k and keeps the instant |
| Timestamps.RescaleNearSeconds | ffmpeg/ffmpeg-src/libavutil/mathematics.c:134-145 | a conversion moves an instant by at most half a unit of the time base it goes to |
| Timestamps.RescaleDeltaNear | ffmpeg/ffmpeg-src/libavutil/mathematics.c:168-190 | av_rescale_delta stays, whatever its history, within half a unit of its input and output and one of the intermediate time base |
| Timestamps.RescaleDeltaInStep | ffmpeg/ffmpeg-src/libavutil/mathematics.c:168-190 | a coarse timestamp that is no more than rounded stays where the samples before it have ended |
| Timestamps.RescaleDeltaFar | ffmpeg/ffmpeg-src/libavutil/mathematics.c:168-190 | one that is more than one and a half units and three samples away is converted by itself |
| Timestamps.RescaleDeltaClamped | ffmpeg/ffmpeg-src/libavutil/mathematics.c:168-190 | one in between starts at the edge of what the timestamp may stand for, up to a sample |
| Timestamps.RescaleDeltaStart | ffmpeg/ffmpeg-src/libavutil/mathematics.c:168-190 | what is remembered is the number of samples behind such a start |

## Left out

- Rings.Builder.Connect: keeps the graph as one value in a field; the growing of the scheduler's arrays and pointers into them are not captured.
- Scheduling.Scheduler.Stop: is one atomic step, while sch_stop does not take the schedule lock, so an update that is under way when it is called may unchoke a task once more, or choke a queue again; the task then finds the request to terminate (Waiter.StoppedTaskLeaves).
- Scheduling.Scheduler.FilterDone: is one step, while filter_done takes the schedule lock for each output and for the exit by itself; what it says of other inputs and tasks holds when no other event comes between. An encoder with a sync queue in front of it is told like any other.
- Scheduling.Scheduler.DemuxDone: ends the streams for all decoders before any muxer, whose streams end with events of their own (MuxStreamEvent), and is one step where demux_done takes the lock several times.
- Progress.StarvesIff: does not promise that an eligible stream never waits for a choked task, since it may (Progress.SideBranchStarves); it says when. Nothing is said when no stream is eligible, since the source that runs then need not have what it needs. Waits inside sync queues, and of muxers on the decoders that get subtitle heartbeats, are not among those considered.
- Discontinuity.Demuxer.Fixup: requires that timestamps do not leave the range of 64 bits while they are corrected. Wrap-around correction and the scaling and offset options before it are not modelled.
- DemuxLoop.LoopTracker.Shift: promises the order of passes for runs without negative durations in which no pass begins before the first one's earliest timestamp, and no timestamp overflows.
- AudioTimebase.AudioDecoder.TsProcess: promises nothing about a clock that has come out as the value that means unknown.
- VideoSync.FpsConverter.OutputFrame: takes the frame's timestamp in output units as given; its conversion with extra bits, the dummy frame for an output that never got one, and the warning about many duplicates are not modelled. Timestamps of the passthrough and drop modes are copied from the input and need not increase.
- MuxFixup.MuxStream.FixupTs: does not model bitstream filters, the sync queue of the muxer, or the file size limit.
- MuxHandoff.HandoffKeepsOrder: the conditions under which buffering is refused are those of MuxStart.CannotBuffer, which the state machine leaves open.
- Sync queues in front of encoders, opening of encoders, and subtitle heartbeats.
- The internals of thread queues beyond what a sender observes and who waits for whom.
- Flushing decoders after a seek, apart from the end timestamp they report.
- Writing of SDP files, which delays the start of all muxers until the last is ready.
- Removal of filtergraphs before the start.
- Allocation failures, logging, statistics, thread creation and joining, and packet and frame payloads.
- Overflow of 64-bit timestamps, except where a conversion reports it to the muxer.
- Rounding of floating-point numbers.
