# FAIL*: verified models of the toolchain's stateful algorithms

FAIL* injects faults into running programs. This project models the algorithms
of the toolchain that keep state across a whole run, and proves what they are
for. Each part has its own modules.

| part | files |
|---|---|
| Smart-Hopping: reach a position of an execution trace by a chain of breakpoints and watchpoints | `HopModel`, `HopOptimality`, `SmartRun`, `SmartChains`, `SmartAccounts`, `SmartInvariants`, `SmartProof`, `SmartTheorems`, `SmartOptimality`, `SmartLaws`, `SmartSteps`, `SmartExamples`, `SmartHopping`, `SimpleHopping` |
| The emulator's timers: a 32-bit countdown in place of a look at every timer on every tick | `TimerModel`, `TimerRefinement`, `TimerFiring`, `TimerCalls`, `TimerWheel` |
| Watching memory through the MMU: align, sort, merge and split ranges, update a two-level table with buffered writes | `MmuRanges`, `MmuMerging`, `MmuTable`, `MmuWatching` |
| The def/use fault space, imported directly and by a delayed stream with branch history | `FaultSpace`, `MemoryImport`, `AdvancedImporter` |
| Basic-block regions of an instruction stream | `BasicBlocks` |
| CRC-32 by table against CRC-32 bit by bit | `Crc32` |
| Traces printed as text and read back | `TraceText` |

Code that the source runs step by step is a method or a class here; each is
proved against functions or predicates on values, and the theorems are about
those.

## What is proved

**Smart-Hopping.** The class computes the same states as a function of the trace
(`SmartRun.Run`); the theorems are about that function. For every trace and every
combination of weights, watchpoints and checkpoints, the chain emitted for a
position replays to exactly that position: each hop's event does not occur
between the previous hop (or the start, or the restored checkpoint) and the hop.
With breakpoints only and no checkpoints the chain is a cheapest one (with
weights: minimal cost, without: fewest hops) among all breakpoint chains to that
position; the proof is a monotone-stack argument. Hence Smart-Hopping never
reports more than Simple-Hopping. The argument carries over to watchpoints as long
as hops are only counted: without weights and checkpoints all results of a run have
the fewest hops among all chains of breakpoints and watchpoints if and only if no
truncation is hindered by the rule against ambiguous hops
(tools/compute-hops/SmartAlgorithm.cc:139-150); in `HinderedRun` the rule costs a hop. The truncation loop terminates through any
number of undone checkpoints, and no subtraction takes more from the working cost
than it contains.

What is done at a position. The laws of `SmartLaws` say it by where events occur in
the trace, and hold at every position of every run in every mode (`EveryStep`). An
event seen for the first time starts a new chain. Otherwise the event seen longest
ago is taken, and hops go from the end of the chain exactly as long as the event can
be waited for from the hop before, without repeating it where weights are used and
without ambiguity; a leading checkpoint is undone in the same way unless too few of
the old hops would go. So no emitted chain can be shortened (`CannotShorten`). The
result is a new checkpoint if and only if checkpoints are used, the hop would exceed
the threshold together with the chain and the surplus, and no undoing was forbidden
(`CheckpointIff`).

What costs are reported. The cost saved with a checkpoint already includes the hop
that the checkpoint replaces (tools/compute-hops/SmartAlgorithm.cc:190-198), and
undoing the checkpoint brings it back without the hop. So in every run a reported
cost is the chain's cost plus a surplus: the hops replaced by the checkpoint undone
last, by the one undone before that one was taken, and so on, back to the latest
chain of one element, which starts a new account. The surplus is 0, and the
reported cost exact, if and only if the chain still starts where that chain of one
element did. (A bare checkpoint that costs nothing is reported with cost 1, because
the collector reads 0 as "not computed".) With checkpoints and the program's own
threshold checks a cost exceeds the threshold if and only if undoing was forbidden
and checkpoint, surplus and one hop together exceed it. The look-ahead stays within
the chain kept with a checkpoint if no checkpoint was undone between the latest
chain of one element and its taking. `OverRun` is a run of seven instructions that
reports 3 for a chain that costs 1, above the threshold of 2; `ShortRun` keeps a
chain shorter than the look-ahead, and the next instruction makes truncation look
beyond it.

The source forbids hops that arm a different event although that event also
occurs where the previous hop stopped (tools/compute-hops/SmartAlgorithm.cc:139-150),
but checks this only while deleting. The last hop of an emitted chain is such a hop
if and only if its event also occurs at the previous position and the previous
chain does not end with it; earlier hops of a chain are so only between
neighbouring positions. `EmitsAmbiguousHop` is the algorithm object on such a trace.

Checkpoint ids in messages count from 0, lines of the checkpoint file from 1
(tools/compute-hops/ResultCollector.hpp:45): a message's checkpoint was taken at
the position in the line numbered one higher.

**Timers.** Over every run of ticks and calls, callbacks included, the wheel
shows the same time, the same timers and the same sequence of firings as a clock
that compares every timer on every tick. The countdown is never 0, the cast to
32 bits loses nothing, and the current countdown ends no later than any active
deadline. Over every run of ticks and calls, a timer on which no call is made fires
exactly at its deadline and, if continuous, at every further multiple of its period,
whatever is called on other timers. What the calls promise follows from their
arguments and the time they are made: until the next call on its slot, a timer that
was registered active or activated fires after that many ticks, at least one, and if
continuous again and again; one that was registered inactive, deactivated or
unregistered does not fire. A registered slot is not given away, an unregistered one
is free. `tickn(n)` is `n` times `tick1`.

A run stops, with its reason as `fate`, where the emulator refuses a call, where a
callback unregisters a timer whose own callback is still to come, unless that is in
the last slot (the loop then ends without it), or registers a timer beyond the slots
examined in the current event (the source then calls a null pointer or reads an
unwritten flag), and where a deadline does not fit into 64 bits.
It also stops if a timer is found overdue or a countdown of 0 is decremented;
`PanicUnreachable` says that no run does.

**MMU watching.** After any run of reboots and updates a walk of the table in
target memory faults exactly on the pages the shadow configuration calls
unmapped, and every other address maps to itself. The unmapped pages are exactly
those that overlap a watched range, unless the watched ranges cover the whole
4 GiB address space: then a 32-bit width wraps to 0 and pages are lost. Which ones
follows from the requests: a request that reaches the last page is lost if the
requests that leave that page out watch everything below it (`Dropped`). An update
unmaps exactly the pages of the requests that are not lost, so after any run the
unmapped pages are those that were not lost in some update since the last reboot, and
an update leaves exactly the watched pages unmapped if and only if every page it lost
was not lost in an earlier one. With the two halves of memory (`HalvesLost`) this
holds if the upper half is requested first, and not if the lower one is. After a
reboot it holds if and only if not everything is watched; a request for all but the
last byte (`WholeSpaceLost`) already covers no page.

**Fault space.** For every imported byte the rows divide the instructions
`0 .. N-1`, and the row of an instruction carries the kind of the first access
at or after it, or the right-margin kind if there is none. This holds exactly if
the trace has an instruction or nothing is imported: without an instruction the
number of the last one wraps around. The delayed importer passes on every memory
event once, in order, with the branch mask of the complete trace, leaves the same
rows, and stores with every real row the mask of an event that ends it. The decisions
are those of the executed conditional branches, in order.

**Basic blocks.** The regions partition the stream. Leaders are the first instruction
and sides of jumps and nothing else, so regions are no shorter than that. If both sides of every jump
are leaders, regions with the same leader hold the same instructions, except that
the last region may be a prefix. Without events inside the previous instruction all
jumps are found. Such an event is harmless if the jumps it hides are led anyway
(`HarmlessOddEvent`) and can break the property otherwise (`OddEventBreaksRegions`).
The converse does not hold: a jump that is not led matters only if another region
with the same leader takes the other way (`UnledJumpAlone`), which is no property of
the jump.

**CRC-32 and trace text.** The table form equals the serial form whether or not
earlier calls filled the table. Reading back a dump returns the trace, zero time
deltas being the same as none, if and only if no delta is negative and the time
stays below 2^63: the dump tool adds in unsigned and the reader reads in signed
64-bit numbers, and the reader drops steps back. In no case does the reader abort.

## Model

| member | source | states |
|---|---|---|
| `HopModel.RunToIsLands` | src/core/util/smarthops/TraceReader.cc:55-104 | running to an event from a position stops at `to` if and only if the event occurs at `to` and not in between |
| `HopModel.StepsReplay` | tools/compute-hops/SmartAlgorithm.cc:47-67 | hops that each land on their recorded position stop, when armed one after the other, at exactly these positions |
| `HopModel.NavigationReplays` | tools/compute-hops/SmartAlgorithm.cc:95-212 | a navigating chain replays from program start, or from the restored checkpoint, through all its positions |
| `HopModel.PositionsIncrease` | tools/compute-hops/SmartAlgorithm.cc:189-212 | positions of a navigating chain strictly increase within the trace |
| `HopModel.CheckpointOnlyFirst` | tools/compute-hops/ResultCollector.cc:82-112 | a checkpoint only ever is the first element of a navigating chain |
| `HopModel.CostBounds` | tools/compute-hops/ResultCollector.hpp:33-34 | a chain of n hops costs between n and 2n-1 |
| `HopModel.CalculateCosts` | tools/compute-hops/ResultCollector.cc:41-63 | the collector's loop computes the cost of the chain |
| `HopOptimality.TightStep` | tools/compute-hops/SmartAlgorithm.cc:99-194 | truncating by the policy and appending the new hop keeps the monotone-stack invariant: positions after the j-th hop cost at least as much as the first j+1 hops |
| `HopOptimality.WeightedBound` | tools/compute-hops/SmartAlgorithm.cc:103-137 | with weights no breakpoint chain to the new position costs less than the truncated chain plus the new hop |
| `HopOptimality.UnweightedBound` | tools/compute-hops/SmartAlgorithm.cc:103-137 | without weights no chain to the new position has fewer hops, also with watchpoints if the event seen longest ago is taken |
| `HopOptimality.TightSingle` | tools/compute-hops/SmartAlgorithm.cc:50-60 | a first occurrence is reached by one hop and by nothing cheaper |
| `HopOptimality.TightIsCheapest` | tools/compute-hops/SmartAlgorithm.cc:189-212 | a chain with the invariant has minimal measure among all breakpoint chains to its position |
| `SmartRun.NewEvent` | tools/compute-hops/SmartAlgorithm.cc:38-61 | the first usable event of the position that was never seen, if any; without one every usable event is known |
| `SmartRun.Oldest` | tools/compute-hops/SmartAlgorithm.cc:62-68 | a usable known event whose latest position is smallest, if any is known |
| `SmartRun.ScannedOne` | tools/compute-hops/SmartAlgorithm.cc:38-69 | looking at one more event keeps what the scan knows, also if the event was already seen at this position |
| `SmartChains.AmbiguousAppend` | tools/compute-hops/SmartAlgorithm.cc:139-150 | an appended hop is ambiguous if and only if its event also occurred at the previous position and the previous chain did not end with it; ambiguous hops only lead to the next position |
| `SmartAccounts.SurplusPrefix` | tools/compute-hops/SmartAlgorithm.cc:196-206 | later checkpoints do not change the surplus of earlier ones |
| `SmartProof.DropKeeps` | tools/compute-hops/SmartAlgorithm.cc:175-185 | dropping the last hop leaves a navigating chain from which the selected event is still reachable, and takes back exactly that hop's cost, which the working cost contains |
| `SmartProof.UndoKeeps` | tools/compute-hops/SmartAlgorithm.cc:155-173 | undoing a checkpoint restores a navigating chain that only uses older checkpoints, with its cost plus the surplus of that checkpoint |
| `SmartProof.CutKeeps` | tools/compute-hops/SmartAlgorithm.cc:92-186 | through any number of dropped hops and undone checkpoints truncation ends with a navigating chain with the right cost, where the source's conditions stop it |
| `SmartProof.ExtendTight` | tools/compute-hops/SmartAlgorithm.cc:99-210 | with breakpoints only the truncated chain with the new hop is cheapest |
| `SmartProof.ExtendedOk` | tools/compute-hops/SmartAlgorithm.cc:189-210 | appending the selected event to the truncated chain gives a navigating chain with the right cost and a last hop that is ambiguous exactly if the condition holds |
| `SmartProof.ForbiddenBy` | tools/compute-hops/SmartAlgorithm.cc:112-127 | undoing is forbidden exactly if only the checkpoint is left and the event occurs after the hop the look-ahead finds |
| `SmartProof.AppendedCost` | tools/compute-hops/SmartAlgorithm.cc:189-210 | after appending, the threshold is exceeded exactly if undoing was forbidden and checkpoint, surplus and hop exceed it |
| `SmartProof.LookAheadInRange` | tools/compute-hops/SmartAlgorithm.cc:121-126 | with the start-up checks a chain whose own cost demands a checkpoint is longer than the look-ahead |
| `SmartProof.SavedNow` | tools/compute-hops/SmartAlgorithm.cc:196-206 | a new checkpoint keeps a chain that only uses older checkpoints, with the cost of the replaced hop and the surplus included, which exceeds the threshold |
| `SmartProof.EventSelected` | tools/compute-hops/SmartAlgorithm.cc:31-68 | a new event lands from the start; otherwise the selected event is known with its latest position |
| `SmartProof.NextKeeps` | tools/compute-hops/SmartAlgorithm.cc:30-213 | one position keeps the whole invariant |
| `SmartProof.RunKeeps` | tools/compute-hops/SmartAlgorithm.cc:22-218 | the invariant holds in every state a trace leads to: navigation, costs, accounts, kept chains, optimality |
| `SmartTheorems.CostExactIff` | tools/compute-hops/SmartAlgorithm.cc:152-206 | in every run each reported cost is the chain's plus the surplus, and it is exact if and only if the chain starts where the latest chain of one element did and is not a free bare checkpoint |
| `SmartTheorems.OverThresholdIff` | tools/compute-hops/SmartAlgorithm.cc:112-127 | a reported cost exceeds the threshold if and only if undoing was forbidden and checkpoint, surplus and hop exceed it; never without an undone checkpoint |
| `SmartTheorems.LookAheadStays` | tools/compute-hops/SmartAlgorithm.cc:121-126 | in every run a chain kept with a checkpoint is longer than the look-ahead if no checkpoint was undone since the latest chain of one element before it |
| `SmartTheorems.LastHopAmbiguousIff` | tools/compute-hops/SmartAlgorithm.cc:139-150 | in every run the last hop of a result is ambiguous if and only if its event also occurs at the previous position and the previous result does not end with it |
| `SmartOptimality.OldestSeenSince` | tools/compute-hops/SmartAlgorithm.cc:62-68 | the selected event occurred last at or before every other event of the position |
| `SmartOptimality.ExtendFewest` | tools/compute-hops/SmartAlgorithm.cc:99-210 | an unhindered truncation keeps the monotone-stack invariant, with watchpoints too |
| `SmartOptimality.HinderedNotFewest` | tools/compute-hops/SmartAlgorithm.cc:139-150 | a hindered chain has a hop too many |
| `SmartOptimality.FewestHops` | tools/compute-hops/SmartAlgorithm.cc:22-218 | without weights and checkpoints a result has the fewest hops if no truncation was hindered since the latest chain of one hop, and not if its own was |
| `SmartOptimality.FewestHopsIff` | tools/compute-hops/SmartAlgorithm.cc:22-218 | all results of a run have the fewest hops if and only if no truncation is hindered |
| `SmartSteps.CutsBack` | tools/compute-hops/SmartAlgorithm.cc:92-186 | truncation removes hops and undoes checkpoints exactly where the occurrences of the event allow it, and stops where they do not |
| `SmartSteps.EveryStep` | tools/compute-hops/SmartAlgorithm.cc:30-213 | every position of every run obeys the law: a first-time event starts a chain, otherwise the event seen longest ago continues it by a hop or a checkpoint |
| `SmartSteps.CannotShorten` | tools/compute-hops/SmartAlgorithm.cc:99-150 | in every run and mode no emitted chain can lose its last hop but one, and a checkpoint before a single hop could not be undone |
| `SmartSteps.CheckpointIff` | tools/compute-hops/SmartAlgorithm.cc:189-206 | a result is a new checkpoint if and only if checkpoints are used, chain, surplus and hop exceed the threshold, and no undoing was forbidden; never at a position with a first-time event |
| `SmartExamples.OverRun` | tools/compute-hops/SmartAlgorithm.cc:92-212 | a run of seven instructions that reports 3 for a chain of cost 1, above the threshold |
| `SmartExamples.ShortRun` | tools/compute-hops/SmartAlgorithm.cc:121-126 | a run of six instructions whose second checkpoint keeps a chain no longer than the look-ahead; the next instruction makes truncation look beyond it |
| `SmartExamples.AmbiguousRun` | tools/compute-hops/SmartAlgorithm.cc:139-150 | a run whose third result ends with an ambiguous hop |
| `SmartExamples.HinderedRun` | tools/compute-hops/SmartAlgorithm.cc:139-150 | a run of five instructions whose last result has three hops where two are enough |
| `SmartExamples.EmitsAmbiguousHop` | tools/compute-hops/SmartAlgorithm.cc:22-218 | the algorithm object emits that result |
| `SmartExamples.ExceedsThreshold` | tools/compute-hops/SmartAlgorithm.cc:22-218 | the algorithm object reports a cost above its threshold |
| `SmartHopping.MessageReplays` | tools/compute-hops/ResultCollector.cc:78-119 | the message of an emitted chain is written without the fatal exit, and arming its hops from the position in the checkpoint file, or from the start, ends at its target |
| `SmartHopping.ResultCollector.AddResult` | tools/compute-hops/ResultCollector.cc:65-73 | a result is recorded with the given cost, or with the chain's cost if 0 was given |
| `SmartHopping.SmartAlgorithm.SelectEvent` | tools/compute-hops/SmartAlgorithm.cc:31-69 | the loop records all usable events and finds a new one, or else one seen longest ago |
| `SmartHopping.SmartAlgorithm.HopBefore` | tools/compute-hops/SmartAlgorithm.cc:107-132 | the hop before the last one, looked up in the chain kept with a leading checkpoint unless the look-ahead forbids it, decides what truncation does next |
| `SmartHopping.SmartAlgorithm.Truncate` | tools/compute-hops/SmartAlgorithm.cc:92-186 | the loop terminates with the run's truncated chain and cost |
| `SmartHopping.SmartAlgorithm.Extend` | tools/compute-hops/SmartAlgorithm.cc:92-212 | a position without new events takes a checkpoint or appends a hop as the run does |
| `SmartHopping.SmartAlgorithm.Step` | tools/compute-hops/SmartAlgorithm.cc:30-213 | one position moves the object from one state of the run to the next |
| `SmartHopping.SmartAlgorithm.CalculateAllHops` | tools/compute-hops/SmartAlgorithm.cc:22-218 | results, checkpoints and kept chains are those of the state the trace leads to, so the laws above apply to them; every position gets a navigating chain, cheapest with breakpoints only, and every cost and kept chain is accounted for |
| `SimpleHopping.SimpleAlgorithm.Tally` | tools/compute-hops/SimpleAlgorithm.cc:41-85 | every usable event of a position is counted once more in both maps, and a rarest one is chosen |
| `SimpleHopping.SimpleAlgorithm.Step` | tools/compute-hops/SimpleAlgorithm.cc:39-118 | the reported cost is that of repeating the rarest event from the start, from the latest checkpoint, or of a new checkpoint, a free one counting as one hop |
| `SimpleHopping.SimpleAlgorithm.CalculateAllHops` | tools/compute-hops/SimpleAlgorithm.cc:31-125 | all positions get such a cost, and the checkpoints taken are recorded |
| `SimpleHopping.SimpleCostBounded` | tools/compute-hops/SimpleAlgorithm.cc:101-116 | with the program's threshold checks no reported cost exceeds the threshold |
| `SimpleHopping.RepeatChainNavigates` | tools/compute-hops/SimpleAlgorithm.cc:92-99 | waiting for one breakpoint again and again navigates |
| `SimpleHopping.RepeatChainCost` | tools/compute-hops/SimpleAlgorithm.cc:99-99 | that chain has as many hops as occurrences and costs 1 + 2 * (occurrences - 1) |
| `SimpleHopping.SmartNeverLosesAnywhere` | tools/compute-hops/SmartAlgorithm.cc:22-218 | position by position Smart-Hopping with breakpoints only, weighted or not, reports at most Simple-Hopping's cost |
| `SimpleHopping.SmartNeverLoses` | tools/compute-hops/SimpleAlgorithm.cc:99-118 | a cheapest chain costs no more, or has no more hops, than Simple-Hopping's |
| `TimerModel.FirstFreeBound` | simulators/bochs/pc_system.cc:275-279 | the slot search finds the first free slot, or the end |
| `TimerModel.MinDeadlineIs` | simulators/bochs/pc_system.cc:338-369 | the value found by the service loop is at most every active deadline, and one of them unless none is active |
| `TimerModel.ServiceFateOf` | simulators/bochs/pc_system.cc:340-369 | servicing goes well if and only if no active timer is overdue and every due continuous one has a next deadline that fits into 64 bits |
| `TimerRefinement.ReachableInOrder` | simulators/bochs/pc_system.cc:342-375 | after every run from start-up the countdown is a positive 32-bit number and ends no later than any active deadline |
| `TimerRefinement.CallRefines` | simulators/bochs/pc_system.cc:262-320 | register, activate, deactivate and unregister do to the wheel what they do to the plain clock, never move time and keep the invariant |
| `TimerRefinement.CallbacksRefine` | simulators/bochs/pc_system.cc:377-385 | so do all callbacks of an event |
| `TimerRefinement.CastExact` | simulators/bochs/pc_system.cc:371-375 | the next countdown reaches exactly to the earliest deadline: it is never 0 and the cast to 32 bits loses nothing |
| `TimerRefinement.NextCountdown` | simulators/bochs/pc_system.cc:322-375 | servicing an event re-establishes the invariant |
| `TimerRefinement.NobodyOverdue` | simulators/bochs/pc_system.cc:343-347 | the only trouble when servicing timers is a deadline beyond 64 bits |
| `TimerRefinement.PanicUnreachable` | simulators/bochs/pc_system.cc:343-347 | no run from start-up, whatever callbacks do, ends because a timer is overdue or a countdown of 0 was decremented |
| `TimerRefinement.TickRefines` | simulators/bochs/pc_system.h:108-112 | one tick of the wheel is one tick of the plain clock |
| `TimerRefinement.TicksRefine` | simulators/bochs/pc_system.h:108-126 | n ticks are n ticks of the plain clock and advance the time by exactly n |
| `TimerRefinement.RunsRefine` | simulators/bochs/pc_system.cc:262-386 | over every run from start-up wheel and plain clock agree on time, timers, the sequence of firings and why they halt, and keep the invariant |
| `TimerFiring.FiresExactly` | simulators/bochs/pc_system.cc:262-386 | from every good state, in every run of ticks and calls without a call on it, a timer fires at its deadline, if continuous at every further multiple of its period, and at no other time; time advances by the ticks |
| `TimerFiring.FiresExactlyAfter` | simulators/bochs/pc_system.cc:262-386 | so after any run from start-up, over any further run |
| `TimerFiring.FiresWithin` | simulators/bochs/pc_system.h:108-126 | in particular within n ticks |
| `TimerFiring.ClockFiresExactly` | simulators/bochs/pc_system.cc:340-369 | the same for the plain clock |
| `TimerFiring.RunTime` | simulators/bochs/pc_system.h:108-126 | a run that is not halted advances the time by its ticks; calls take none |
| `TimerFiring.MultiplesAt` | simulators/bochs/pc_system.cc:356-360 | the k-th expected firing is at deadline + k * period |
| `TimerFiring.MultiplesComplete` | simulators/bochs/pc_system.cc:356-360 | no multiple of the period within the run is missing |
| `TimerCalls.RunSilent` | simulators/bochs/pc_system.cc:549-577 | a slot beyond the bound does not fire until a call is made on it |
| `TimerCalls.ClockKeepsPromise` | simulators/bochs/pc_system.cc:262-320 | on the plain clock a call's slot fires as the call promises |
| `TimerCalls.CallsKeepPromise` | simulators/bochs/pc_system.cc:468-577 | on the wheel, after any call and in every run without another call on its slot, the slot fires exactly at the times that follow from the call's arguments and time, and never after a deactivation or unregistration |
| `TimerCalls.SlotsAreHeld` | simulators/bochs/pc_system.cc:275-279 | a registered slot is not given away while left alone; an unregistered one is taken next, or one below it |
| `TimerCalls.OtherSlotsKept` | simulators/bochs/pc_system.cc:262-320 | a call changes no other slot, and a registration takes none in use |
| `TimerCalls.RegisterUndone` | simulators/bochs/pc_system.cc:549-577 | register, deactivate and unregister give back the slot and leave the others, the time and the bound |
| `TimerCalls.GoesThroughIff` | simulators/bochs/pc_system.cc:281-291 | exactly when a call is not refused |
| `TimerCalls.CallbacksStopOnlyIf` | simulators/bochs/pc_system.cc:377-385 | callbacks stop a run only after an unregistration of a timer to come, for a timer not in use, or after a registration beyond the slots examined |
| `TimerWheel.PcSystem.constructor` | simulators/bochs/pc_system.cc:48-79 | construction and initialisation give the initial state |
| `TimerWheel.PcSystem.RegisterTimerTicks` | simulators/bochs/pc_system.cc:262-320 | the method has the effect of the call on the wheel and returns the slot |
| `TimerWheel.PcSystem.ActivateTimerTicks` | simulators/bochs/pc_system.cc:468-501 | the method has the effect of the call on the wheel |
| `TimerWheel.PcSystem.DeactivateTimer` | simulators/bochs/pc_system.cc:537-547 | the method has the effect of the call on the wheel |
| `TimerWheel.PcSystem.UnregisterTimer` | simulators/bochs/pc_system.cc:549-577 | the method has the effect of the call on the wheel |
| `TimerWheel.PcSystem.ServiceAll` | simulators/bochs/pc_system.cc:338-369 | the loop moves every due timer on, flags it and finds the earliest deadline, or stops at the first trouble |
| `TimerWheel.PcSystem.ServiceTimers` | simulators/bochs/pc_system.cc:335-375 | the timers are serviced and the next countdown starts |
| `TimerWheel.PcSystem.CallTriggered` | simulators/bochs/pc_system.cc:377-385 | the loop invokes the callbacks of the flagged timers in slot order |
| `TimerWheel.PcSystem.CountdownEvent` | simulators/bochs/pc_system.cc:322-386 | the method performs one event of the wheel |
| `TimerWheel.PcSystem.Tick1` | simulators/bochs/pc_system.h:108-112 | one tick, keeping the object valid and advancing the time by one |
| `TimerWheel.PcSystem.TickN` | simulators/bochs/pc_system.h:113-126 | terminates in the state of n single ticks, with the time advanced by exactly n |
| `TimerWheel.PcSystem.TimeUsecSequential` | simulators/bochs/pc_system.cc:437-451 | each reading is the larger of the previous reading and the current time, plus one |
| `TimerWheel.ReadingsIncrease` | simulators/bochs/pc_system.cc:437-451 | over any sequence of calls the readings strictly increase and are later than the time, and none is later than that demands |
| `MmuRanges.AlignExact` | debuggers/openocd/openocd_wrapper.cc:1742-1754 | an aligned range covers exactly the pages the range overlaps, unless the range covers the whole address space |
| `MmuRanges.ForcePageAlignment` | debuggers/openocd/openocd_wrapper.cc:1735-1756 | the loop aligns every range |
| `MmuMerging.LostIffAll` | debuggers/openocd/openocd_wrapper.cc:1772-1776 | pages are lost if and only if everything is watched |
| `MmuMerging.AlignReaches` | debuggers/openocd/openocd_wrapper.cc:1735-1756 | aligning the requests does not change which pages reach the table; a request for everything is lost by it |
| `MmuMerging.SortByAddress` | debuggers/openocd/openocd_wrapper.cc:1758-1766 | a permutation sorted by address |
| `MmuMerging.PermutationReaches` | debuggers/openocd/openocd_wrapper.cc:1758-1766 | sorting does not change which pages reach the table |
| `MmuMerging.JoinedExact` | debuggers/openocd/openocd_wrapper.cc:1772-1776 | two touching ranges become their union, unless that is the whole address space: then the second is lost |
| `MmuMerging.JoinFirstReaches` | debuggers/openocd/openocd_wrapper.cc:1772-1776 | joining at address 0 loses a range only if it is lost by the law on the requests |
| `MmuMerging.JoinLaterReaches` | debuggers/openocd/openocd_wrapper.cc:1772-1776 | above a page that is not watched, joining loses nothing |
| `MmuMerging.MergeMemRanges` | debuggers/openocd/openocd_wrapper.cc:1763-1783 | the merged ranges cover exactly the pages of the ranges that are not lost |
| `MmuRanges.DivideIntoPagesAndSections` | debuggers/openocd/openocd_wrapper.cc:1696-1733 | pages and sections tile the range: exactly its pages, in ascending order, each once, and sections wherever a whole one lies within the range |
| `MmuTable.WalkMatches` | debuggers/openocd/openocd_wrapper.cc:95-124 | a walk of a table that matches the shadow faults exactly on unmapped pages and translates every other address to itself |
| `MmuTable.PokesAppend` | debuggers/openocd/openocd_wrapper.cc:1796-1808 | a list of writes may be performed in parts |
| `MmuTable.BecomesTable` | debuggers/openocd/openocd_wrapper.cc:1857-1879 | turning a mapped section into a table of mapped pages keeps the mapping and the match |
| `MmuTable.PageUnmaps` | debuggers/openocd/openocd_wrapper.cc:1884-1893 | rewriting one page descriptor unmaps exactly that page and keeps the match |
| `MmuTable.SectionUnmaps` | debuggers/openocd/openocd_wrapper.cc:1896-1919 | rewriting a first-level descriptor unmaps exactly the section, whatever it was before, and keeps the match |
| `MmuTable.AllFurtherTrans` | debuggers/openocd/openocd_wrapper.cc:1851-1920 | steps of an update never undo each other: the shadow is as before only if no step changed it |
| `MmuWatching.AccessFaultsExactly` | debuggers/openocd/openocd_wrapper.cc:95-124 | in a correct state an access faults if and only if its page overlaps a watched range |
| `MmuWatching.AddIsCorrect` | debuggers/openocd/openocd_wrapper.cc:1832-1926 | unmapping the pages of requests that are not lost makes the state correct again; it is exact if and only if every lost page was unmapped before, that is, from an exact state, watched before |
| `MmuWatching.FollowsStep` | debuggers/openocd/openocd_wrapper.cc:1832-1926 | the unmapped pages stay those that reached the table in some update |
| `MmuWatching.HalvesLost` | debuggers/openocd/openocd_wrapper.cc:1772-1776 | of the two halves of memory, requested in any order, the upper one is lost |
| `MmuWatching.WholeSpaceLost` | debuggers/openocd/openocd_wrapper.cc:1742-1754 | a request for all of memory but its last byte watches everything and, aligned, covers no page |
| `MmuWatching.TableWillMatch` | debuggers/openocd/openocd_wrapper.cc:1857-1879 | linking the table at once and buffering its contents is the same as writing in order |
| `MmuWatching.MmuWatch.Reboot` | debuggers/openocd/openocd_wrapper.cc:978-996 | the shadow is all mapped sections, nothing is watched, and memory matches |
| `MmuWatching.MmuWatch.ExecuteBufferedWrites` | debuggers/openocd/openocd_wrapper.cc:1788-1810 | transferring runs of at most 256 consecutive words has the effect of the single writes in order |
| `MmuWatching.MmuWatch.UnmapPage` | debuggers/openocd/openocd_wrapper.cc:1851-1893 | exactly the page is unmapped in addition; invalidation is reported exactly if the shadow changed |
| `MmuWatching.MmuWatch.UnmapSection` | debuggers/openocd/openocd_wrapper.cc:1894-1920 | exactly the section is unmapped in addition; invalidation is reported exactly if the shadow changed |
| `MmuWatching.MmuWatch.UnmapRanges` | debuggers/openocd/openocd_wrapper.cc:1838-1922 | exactly the pages of the merged ranges are unmapped in addition, once the buffer is written; invalidation is reported exactly if the shadow changed |
| `MmuWatching.MmuWatch.TakeWaiting` | debuggers/openocd/openocd_wrapper.cc:1816-1830 | the program ends if and only if a request repeats a watched or earlier one; otherwise all requests are watched |
| `MmuWatching.MmuWatch.UpdateMmuWatchAdd` | debuggers/openocd/openocd_wrapper.cc:1812-1927 | an update keeps the object valid, asks for invalidation if and only if the shadow changed, writes nothing otherwise, unmaps exactly the pages of requests that are not lost, and is exact if and only if every lost page reached the table in an earlier update |
| `FaultSpace.NextAccessIsFirst` | tools/import-trace/MemoryImporter.cc:20-54 | the label of an instruction is the kind of the first access event at or after it |
| `FaultSpace.TiledPartitions` | tools/import-trace/Importer.cc:162-230 | tiled rows are disjoint, ascending, and hold every instruction exactly once |
| `FaultSpace.ImportIsOk` | tools/import-trace/Importer.cc:90-129 | after any trace a byte's rows tile the instructions up to its open interval and carry the right kind, and no later access is missing |
| `FaultSpace.ByteSound` | tools/import-trace/Importer.cc:456-516 | with at least one instruction, the rows of every imported byte tile 0 .. N-1 with the right kinds, synthetic ones included, and other bytes have no rows |
| `FaultSpace.NoInstructionsNotSound` | tools/import-trace/Importer.cc:136-143 | without an instruction every imported byte gets a row although there is nothing to cover |
| `FaultSpace.SoundExactlyIf` | tools/import-trace/Importer.cc:76-157 | the fault space is sound for all bytes if and only if there is an instruction or nothing is imported |
| `MemoryImport.MemoryImporter.HandleMemEvent` | tools/import-trace/MemoryImporter.cc:12-56 | the byte loop closes and opens the intervals of all accessed bytes inside the memory map |
| `MemoryImport.MemoryImporter.AddTraceEvent` | tools/import-trace/Importer.cc:316-320 | a row is stored unless it is an unwanted write |
| `MemoryImport.StoredRowsOf` | tools/import-trace/Importer.cc:316-320 | leaving out writes leaves the other rows of a byte unchanged |
| `MemoryImport.StoredExactly` | tools/import-trace/Importer.cc:316-320 | a row is stored as often as it was made, unless it is an unwanted write |
| `MemoryImport.MemoryImporter.OpenUnusedEcIntervals` | tools/import-trace/Importer.cc:456-470 | mapped bytes that were never accessed get an open interval from 0 |
| `MemoryImport.MemoryImporter.CloseEcIntervals` | tools/import-trace/Importer.cc:472-516 | every open interval that is not empty gets exactly one synthetic row |
| `MemoryImport.MemoryImporter.CopyToDatabase` | tools/import-trace/Importer.cc:76-157 | succeeds if and only if the instruction counter does not overflow; then the database holds the wanted rows of a sound division of every imported byte, all of them if writes are imported, and nothing of other bytes |
| `MemoryImport.MemoryImporter.StoredSound` | tools/import-trace/Importer.cc:316-320 | the same for one byte |
| `AdvancedImporter.MaskStable` | tools/import-trace/AdvancedMemoryImporter.cc:58-64 | once 16 later decisions are known, more history does not change a mask |
| `AdvancedImporter.BranchesAreDecisions` | tools/import-trace/AdvancedMemoryImporter.cc:93-97 | the known decisions are those of the executed conditional branches in order, each decided by the next instruction |
| `AdvancedImporter.FoldIsImport` | tools/import-trace/AdvancedMemoryImporter.cc:79-84 | passing the memory events on one after the other gives the direct import |
| `AdvancedImporter.AdvancedMemoryImporter.BuildMask` | tools/import-trace/AdvancedMemoryImporter.cc:65-77 | bit 15 - p of the mask is the decision at distance p, for the 16 before and the 16 after |
| `AdvancedImporter.AdvancedMemoryImporter.InsertDelayedEntries` | tools/import-trace/AdvancedMemoryImporter.cc:54-88 | the flush keeps the order; afterwards every waiting entry lacks future decisions, or nothing waits at the end |
| `AdvancedImporter.AdvancedMemoryImporter.HandleIpEvent` | tools/import-trace/AdvancedMemoryImporter.cc:90-191 | the branch decision is recorded and the stream invariant kept |
| `AdvancedImporter.AdvancedMemoryImporter.HandleMemEvent` | tools/import-trace/AdvancedMemoryImporter.cc:193-208 | the event joins the queue and the stream invariant is kept |
| `AdvancedImporter.AdvancedMemoryImporter.TraceEndReached` | tools/import-trace/AdvancedMemoryImporter.cc:210-216 | everything is passed on with the masks of the complete history, and the base importer is in the state of the direct import |
| `AdvancedImporter.AdvancedMemoryImporter.CopyToDatabase` | tools/import-trace/AdvancedMemoryImporter.cc:54-216 | the result is that of the two-pass import, with the same rows as the direct importer, each real row stored with the mask of an event that ends it and each synthetic one with none |
| `BasicBlocks.JumpsFound` | tools/prune-trace/BasicBlockPruner.cc:224-241 | without events inside instructions both sides of every jump become leaders |
| `BasicBlocks.LeadersAreSides` | tools/prune-trace/BasicBlockPruner.cc:219-241 | every leader is the first instruction or a side of a jump; without events inside instructions these are all leaders |
| `BasicBlocks.RegionsEndAtSides` | tools/prune-trace/BasicBlockPruner.cc:271-281 | a region ends only at the end of the stream or before such an address |
| `BasicBlocks.KnownIff` | tools/prune-trace/BasicBlockPruner.cc:224-234 | without events inside instructions the first pass needs every width but the last |
| `BasicBlocks.RegionsPartition` | tools/prune-trace/BasicBlockPruner.cc:271-281 | every position lies in exactly one region |
| `BasicBlocks.NoOddJumpsLed` | tools/prune-trace/BasicBlockPruner.cc:224-241 | without events inside instructions all jumps are led |
| `BasicBlocks.FallsThrough` | tools/prune-trace/BasicBlockPruner.hpp:74-76 | if both sides of every jump are leaders, control inside a region only falls through |
| `BasicBlocks.SameLeaderSameCode` | tools/prune-trace/BasicBlockPruner.cc:216-281 | if both sides of every jump are leaders, regions with the same leader hold the same instructions, the last region possibly a prefix |
| `BasicBlocks.SameLeaderSameCodeNoOdd` | tools/prune-trace/BasicBlockPruner.cc:216-281 | the same for streams without events inside instructions |
| `BasicBlocks.HarmlessOddEvent` | tools/prune-trace/BasicBlockPruner.cc:226-234 | a concrete stream with an event inside an instruction where all jumps are led |
| `BasicBlocks.UnledJumpAlone` | tools/prune-trace/BasicBlockPruner.cc:226-234 | a concrete stream with a jump that is not led and only one region |
| `BasicBlocks.OddEventBreaksRegions` | tools/prune-trace/BasicBlockPruner.cc:226-234 | a concrete stream with an event inside an instruction where two complete regions with the same leader differ |
| `BasicBlocks.BasicBlockPruner.FindRegionLeaders` | tools/prune-trace/BasicBlockPruner.cc:216-246 | fails exactly on an empty trace or a missing width, and otherwise finds the leaders |
| `BasicBlocks.BasicBlockPruner.FindRegions` | tools/prune-trace/BasicBlockPruner.cc:249-301 | cuts the stream into consecutive numbered regions at the leaders |
| `Crc32.ShiftLinear` | simulators/bochs/crc.cc:47-48 | the shift step is linear over exclusive or |
| `Crc32.FeedBitsIsShift` | simulators/bochs/crc.cc:39-51 | feeding bits one by one is adding them at the top and stepping |
| `Crc32.ByteByTable` | simulators/bochs/crc.cc:62-63 | one table lookup is eight steps of the serial register |
| `Crc32.EntryOfOne` | simulators/bochs/crc.cc:58-59 | the entry tested to recognise a filled table is the polynomial, hence not zero |
| `Crc32.PolyNumber` | simulators/bochs/crc.cc:39-39 | the polynomial is 0x04c11db7 |
| `Crc32.CrcOfNothing` | simulators/bochs/crc.cc:60-65 | the CRC of an empty buffer is 0 |
| `Crc32.CrcOfOneByte` | simulators/bochs/crc.cc:60-65 | the CRC of the byte 0xfe is 0x04c11d48, given by its bits |
| `Crc32.Crc.InitCrc32` | simulators/bochs/crc.cc:41-51 | the loops fill the table with the entries |
| `Crc32.Crc.Compute` | simulators/bochs/crc.cc:53-65 | whatever earlier calls did, the result is the serial CRC with all-ones preload and final complement |
| `TraceText.PrintValue` | tools/dump-trace/DumpTrace.cc:109-109 | a printed number consists of digits and has the printed value |
| `TraceText.LineIsWords` | tools/dump-trace/DumpTrace.cc:109-145 | the line of every event is its words with single spaces: kind, access, address, width, instruction and time |
| `TraceText.LineReads` | tools/convert-trace/DumpConverter.cc:27-59 | every printed line is read back with the same contents and time, or skipped if its time does not fit into a signed 64-bit number |
| `TraceText.RoundTrip` | tools/convert-trace/DumpConverter.cc:21-70 | a trace with forward time below 2^63 is read back with zero deltas absent, at the same accumulated time |
| `TraceText.NeverAborts` | tools/convert-trace/DumpConverter.cc:44-44 | no dump makes the reader abort, and no line yields two events |
| `TraceText.RoundTripIff` | tools/convert-trace/DumpConverter.cc:16-73 | a trace survives dump and convert if and only if time moves forward and stays below 2^63 |
| `TraceText.LateEventLost` | tools/convert-trace/DumpConverter.cc:52-59 | of two events each 2^62 after what was before, the second is lost |
| `TraceText.StepBackLost` | tools/convert-trace/DumpConverter.cc:61-67 | a negative delta is lost |
| `TraceText.Dump` | tools/dump-trace/DumpTrace.cc:99-148 | the loop prints one line per event at its accumulated time |
| `TraceText.Convert` | tools/convert-trace/DumpConverter.cc:16-73 | the loop reads all lines, skipping malformed ones, unless an assertion fails |
| `TraceText.DumpAndConvert` | tools/dump-trace/DumpTrace.cc:99-148 | dump followed by convert never aborts, and returns the trace if and only if time moves forward and stays below 2^63 |

## Left out

- The trace reader itself: a trace position is a list with the executed instruction first and the accessed bytes after it, which is what src/core/util/smarthops/TraceReader.cc delivers.
- The look-ahead beyond the end of a kept chain (tools/compute-hops/SmartAlgorithm.cc:123): its outcome is an arbitrary function of position and checkpoint.
- Optimality with weights and watchpoints, or with checkpoints: none is claimed.
- 32-bit overflow of positions and costs in Smart-Hopping, and of the tick counter itself in the timers.
- Builds without the emulator's timer checks: calls that these checks refuse are not modelled further.
- Callbacks: they are given by the calls they make as a function of time, timers and history; device state of its own is not modelled.
- `time_usec` and `register_timer`: conversions through floating point; the current time is a parameter.
- MMU watch removal: debuggers/openocd/openocd_wrapper.cc:2094 ends the program.
- Permission and cache bits of the descriptors, the TLB and the handling of a fault by the target.
- Time columns, extended trace columns and the SQL layer of the importers; rows are a sequence.
- The disassembler: a total map from addresses to length and branch flag.
- RegisterImporter, InstructionImporter, RandomJumpImporter and FullTraceImporter: the same interval logic or simpler.
- Basic-block regions with jumps that are not led: only counterexamples are given, because whether they differ depends on the other regions with the same leader.
- Signs and `0x` prefixes that stream extraction would accept in a hand-written dump, and extended dumps.
- Sampling pruners, command-line handling, sockets and the emulator's other features.
