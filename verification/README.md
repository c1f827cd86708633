# Verification of the traffic engine's deterministic core

A Dafny 4.11 model of the single-threaded tick machine of the traffic engine, with proofs of what
the rest of the system relies on: that replay is exact, that routing tables lead where they
should, that the fast forms agree with the simple ones, and that nothing is lost in the books.
`dafny verify dfyconfig.toml` checks the whole project.

The model follows the engine's own structure. Where the engine mutates state in place there is a
class or a method over arrays, proved against a specification function; the promises are proved
about those functions, over all inputs, all runs or all reachable states. What a specification
function does is in turn stated in plain terms, with the engine's own numbers, in the modules
named after rules, outcomes and formats.

- **Routing** (`LaneGraph`, `Dijkstra`, `DijkstraTies`, `LatDepth`, `Reroute`, `RerouteMargin`,
  `RerouteDrift`, `RouteCache`, `RouteRules`): reverse
  Dijkstra with lazy deletion, the layered 0-1 search for lateral depth, the splice of fresh hops
  into the static tree, and the epoch-stamped memo.
- **Signals** (`SignalProgram`, `SignalDisplay`, `SignalClearance`, `SignalHistory`, `SignalControl`,
  `SignalEngine`, `SignalLapses`, `SignalRules`):
  the fixed-time schedule, holds commanded over it, supersession, lapses, the retention sweep and
  red clearance.
- **Ticks and replay** (`Intents`, `IntentRules`, `Director`, `SpawnRules`, `SignalReplay`,
  `TickEngine`, `TickOrder`, `Engine`, `Replay`, `ReplayRun`): arbitration, the injection queue, the tick pipeline around an arbitrary
  deterministic physics, and re-execution of a run from its logs.
- **Lanes** (`Boundaries`, `BoundaryOutcome`, `BoundaryOverlaps`, `OverlapOrder`, `Occupancy`,
  `OccupancyRules`, `SafetyGate`, `SafetyReserve`): bucketed handoff against the naive sweep, the sorted occupancy index, and the
  safety gate of a pair under the ballistic update.
- **State and records** (`Wire`, `WireFormats`, `Keyframe`, `KeyframeFormat`, `KeyframeIO`,
  `IntentRecord`, `IntentBatch`, `KeyframeLog`, `KeyframeScan`, `LogCursor`, `BakeState`, `Bake`,
  `BakeOutcome`): the versioned keyframe codec, batches and chunks on the
  record plane, the forward cursor and the bake.
- **Metrics** (`MetricChains`, `MetricSets`, `MetricTicks`, `MetricLanes`, `MetricLedger`,
  `MetricRun`, `MetricFinal`, `TripRules`, `Metrics`, `ParkedExample`): the conservation of distance, time, time loss and stops from a
  vehicle-tick to the horizon.
- **Controller contract** (`Contract`, `ContractDrain`, `ContractRun`,
  `ContractAdmission`): exclusive claims, the drain
  of intents at a tick boundary, and hold-last.

`Arith` and `AscendingIds` are helpers.

Where the code does less than one might expect of it, the exact condition is proved instead, with
an example of the rest:

- The margin of a spliced hop is earned at acceptance and can be used up by a later splice
  (`MarginCanBeLost`). It is there in the served table exactly when what the later splices on the
  chain added leaves it (`MarginServedIff`); only a splice with an earlier splice behind it can add
  anything (`LostBehindSplice`), though such a splice may also save.
- The cumulative bound of commanded holds can be outlasted (`TwoVerbsOutlastBound`). A verb respects
  it, whatever it asks for, exactly when it breaks no chain (`BoundHoldsIff`, and `RunUnbrokenIff` over
  whole runs); one verb per program and boundary never does (`OneVerbRunUnbroken`).
- The comment on the boundary pass calls it state-identical to the old sweep; the landing-overlap
  counter, a diagnostic outside the vehicle state, is so exactly on networks where no lane is both
  entered from a higher lane and looped back from (`OverlapsAgreeIffOrderFree`).
- A logged intent reads back exactly when its route is carried (`RoundTripIffCarried`).
- The safety gate keeps its standstill reserve exactly under one inequality in the speeds and the
  root (`GateKeepsReserveIff`), always when it does not brake. What a run can lose of it depends on
  how fast the leader drives and not on how long they drive (`RunKeepsGap`).
- Overshoot refunded at the horizon is missing from the emitted intervals when an interval closed
  at that very tick (`EmittedMissesRefunds`, `RunEmits`, `ParkedMissesRefund`).
- A hello grants claims without asking for the drive grant, unlike a claim request
  (`HelloOwnersDrive`).

## Model

| member | source | states |
|---|---|---|
| LaneGraph.PredsExact | engine/routing.go:405-417 | the reverse adjacency of a lane holds exactly the lanes with an edge into it |
| LaneGraph.RoutePreds | engine/routing.go:405-417 | the in-place build fills every lane's predecessors, in lane-then-successor order |
| Dijkstra.DijkstraIsShortest | engine/routing.go:373-401 | the distance of a lane is the least total weight of lanes entered over all paths to the destination; following next realises exactly that cost; no distance exactly when there is no path |
| Dijkstra.DijkstraHops | engine/routing.go:373-401 | hops are successor edges, absent exactly at the destination and on lanes that cannot reach it |
| Dijkstra.PopIsFinal | engine/routing.go:379-400 | with stale heap entries and done flags, the first pop of a lane carries its final distance and nothing left in the heap is nearer |
| Dijkstra.PopLeast | engine/routing.go:419-443 | popping removes one entry, least by cost and then lane |
| Dijkstra.ComputeRouteDijkstra | engine/routing.go:373-401 | the loop over dist, next and done arrays and a lazy heap computes the specified table and distances |
| DijkstraTies.HopIsFirstSettled | engine/routing.go:373-401 | lanes are settled one by one, each once, exactly those that can reach the destination, and no successor settled before the hop lies on a way as short |
| DijkstraTies.TiesAreBroken | engine/routing.go:38-41 | with positive weights the hop is, of all successors on a shortest way, the nearest to the destination, and of those the one of least index |
| LatDepth.RouteLatDepth | engine/routing.go:117-161 | under mutual lateral links, the depth array holds the least number of lateral hops over all mixed ways to the destination, and -1 exactly when there is no way |
| LatDepth.DepthZeroIsReachable | engine/routing.go:86-161 | depth 0 means exactly: the lane can drive to the destination without a lane change |
| LatDepth.DriveClosure | engine/routing.go:130-143 | one layer of the search: everything that can drive to it joins it, in place, keeping what was found sound |
| LatDepth.HopStep | engine/routing.go:144-158 | the left and right neighbours of a layer seed the next layer |
| Reroute.RerouteIsSafe | engine/routing.go:286-361 | the served table uses successor edges only; exactly the lanes that cannot reach the destination have no hop; every other lane arrives in fewer hops than there are lanes, however many splices were accepted |
| Reroute.RerouteEarnsMargin | engine/routing.go:326-358 | a lane leaves its free-flow hop only if, at acceptance, the chain it would drive beats its free-flow chain by the margin; RerouteDrift.TakesFreshHopIff has the converse and the numbers |
| RerouteDrift.TakesFreshHopIff | engine/routing.go:326-358 | a lane takes its fresh hop at its turn if and only if the table with it installed leads to the destination and the way it then leads costs less than the free-flow chain by more than 30 s and more than 15 % |
| RerouteDrift.ServesFreshHopIff | engine/routing.go:286-361 | so it is with the table the engine serves |
| Reroute.SpliceKeepsLeading | engine/routing.go:300-358 | installing a hop from which the spliced table itself reaches the destination keeps every lane that was led there |
| Reroute.StaleCheckClosesCycle | engine/routing.go:300-345 | why the candidate is installed before it is walked: against the stale hop, the check would accept a cycle |
| Reroute.WalkArrives | engine/routing.go:296-325 | the bounded walk finds the destination exactly when the table leads there within the fuel |
| Reroute.WalkIsRoute | engine/routing.go:296-325 | the walk then reports the cost of the route driven, its first lane included |
| Reroute.ArrivesWithin | engine/routing.go:296-325 | a route that arrives visits no lane twice, so n hops of fuel are enough |
| Reroute.SpliceChoice | engine/routing.go:326-358 | each lane keeps its static hop or takes its fresh one, settled at its own turn |
| Reroute.TryHop | engine/routing.go:326-358 | one lane's turn in place: install, walk, and revert when it strands, cycles or is not clearly better |
| Reroute.ComputeReroute | engine/routing.go:286-361 | the loop over all lanes computes the specified splice |
| RerouteMargin.MarginCanBeLost | engine/routing.go:326-358 | the margin earned at acceptance need not last: a network where a later splice leaves an accepted lane without it in the served table |
| RerouteDrift.MarginServedIff | engine/routing.go:326-358 | a lane has its margin in the served table if and only if its cost when it was decided, plus what every later accepted splice on its chain added or saved, stays below the free-flow cost by the margin |
| RerouteDrift.TurnRaisesNobody | engine/routing.go:326-358 | one turn of the builder makes no lane dearer if and only if it does not make its own lane dearer than the chain it replaces, which the builder never compares |
| RerouteDrift.MarginLasts | engine/routing.go:326-358 | the margin earned at acceptance is still there in the served table when no later splice on the chain made its own lane dearer |
| RerouteDrift.UndecidedLasts | engine/routing.go:326-358 | in particular when every later lane on the chain it was accepted on kept its free-flow hop or had no other |
| RerouteDrift.StaticTailSaves | engine/routing.go:296-358 | a lane accepted while its chain was all free-flow saves its own margin at its turn, so that splice only lowers costs |
| RerouteDrift.LostBehindSplice | engine/routing.go:326-358 | so a margin is lost only at a later splice on the chain that has an earlier splice behind it and makes its own lane dearer |
| RerouteDrift.ServedMargin | engine/routing.go:286-361 | for the table the engine serves: a lane off its free-flow hop beats its free-flow chain by the margin if no later splice on its chain has a splice behind it |
| RouteCache.RoutingEngine.RouteTable | engine/routing.go:204-238 | whatever is memoised, the table served is the one rebuilt from the frozen travel times |
| RouteCache.RoutingEngine.BeginTick | engine/engine.go:441-460 | a tick moves every live estimate its step towards free flow, freezes the weights at an epoch rollover and only then; the memo stays right |
| RouteCache.RoutingEngine.NoteLaneLeave | engine/engine.go:509-523 | an eighth of the dwell sample, capped at the strand horizon and then floored at free flow, is folded into the estimate of that lane, and nothing else changes |
| RouteRules.LeaveTeaches | engine/engine.go:509-523 | leaving a lane makes its estimate seven eighths of itself and an eighth of the dwell; a dwell counts for no less than the time to cross the lane empty, nor for more than the strand cap unless that is more; nothing else changes |
| RouteRules.TickForgets | engine/engine.go:441-460 | a tick takes one part in relaxTicks off the distance of an estimate to free flow; weights are frozen at a multiple of the epoch and only there |
| RouteRules.QuietForgets | engine/engine.go:493-497 | congestion that nobody renews is forgotten geometrically |
| RouteCache.RoutingEngine.RouteNextHop | engine/routing.go:50-69 | whatever is memoised, the hop is a function of network, parameters and recorded travel times alone |
| RouteCache.HopExists | engine/routing.go:50-69 | there is a hop if and only if the id names another lane that can be reached |
| RouteCache.RoutingEngine.RelaxTravelTimes | engine/engine.go:493-497 | the loop moves every estimate by the same share of its distance to free flow |
| RouteCache.Drive | engine/engine.go:429-523 | any sequence of ticks, lane leaves and hop requests goes as the recorded state alone has it: the same hops, the same state after it |
| RouteCache.ServedHop | engine/routing.go:50-69 | a served hop is a successor, and exists exactly when the destination is another lane that can be reached |
| RouteCache.EpochZeroIsStatic | engine/routing.go:204-238 | at free-flow weights the adaptive table is the static one |
| RouteCache.RestoreRunsInStep | engine/keyframe.go:549-563 | an engine restored in mid-epoch with cold caches gives, under any further sequence of ticks, lane leaves and requests, the hops the uninterrupted one gives |
| SignalProgram.CompileTicks | engine/signal.go:110-126 | compiling puts durations and offset on the tick grid, and fails on the first phase that the tick cannot represent |
| SignalProgram.ComputePhaseAtElapsed | engine/signal.go:139-148 | the subtraction loop finds the phase and the ticks elapsed in it |
| SignalProgram.PhaseAtPlacement | engine/signal.go:139-148 | the schedule shows phase i, e ticks old, exactly at the ticks placed there in the cycle |
| SignalRules.OffsetDelays | engine/signal.go:139-148 | the schedule starts its cycle an offset late |
| SignalRules.HeldLight | engine/signal.go:150-262 | under a hold, phase, age and light are those of the commanded phase: g and G show green, g alone has to yield, y is amber, r is red, anything else no signal |
| SignalRules.ScheduledLight | engine/signal.go:124-262 | under no hold they are those of the phase at whose place in the cycle the tick falls, the offset taken off |
| SignalProgram.PhaseAtPeriodic | engine/signal.go:139-148 | the schedule repeats every cycle |
| SignalProgram.PhaseGetsItsTicks | engine/signal.go:139-148 | in any window of one cycle phase i is shown on exactly phaseTicks[i] ticks |
| SignalDisplay.ComputeSigPhaseAt | engine/signal.go:203-212 | the backward scan finds the newest hold in force, else the schedule |
| SignalDisplay.HeldAtUnique | engine/signal.go:203-212 | in a chronological history at most one hold covers a tick |
| SignalDisplay.ComputeSigSpanOnset | engine/signal.go:292-332 | the loop computes the span the phase in force began with |
| SignalDisplay.SpanIsConstant | engine/signal.go:292-332 | from the onset of a span to the query tick the phase in force never changes |
| SignalDisplay.ComputeSigDisplayedOnset | engine/signal.go:358-369 | the merge loop terminates and computes the displayed onset, no later than the query tick |
| SignalDisplay.DisplayedOnsetIsConstant | engine/signal.go:358-369 | the light of a link is constant from its displayed onset to the query tick |
| SignalDisplay.DisplayedOnsetIsMaximal | engine/signal.go:358-369 | the walk stops only where the light changed, a hold boundary does not lie, the window ends, or time begins |
| SignalDisplay.NoHoldsFixedOnset | engine/signal.go:292-369 | without holds the displayed onset is the schedule's own |
| SignalDisplay.ClearanceMeaning | engine/signal.go:382-397 | clearance is granted only when the light now shown began within the window, right after an amber, and has been shown since; SignalClearance.ClearanceIff has the converse |
| SignalClearance.ClearanceIff | engine/signal.go:382-397 | clearance is granted if and only if the light began no longer than the window ago, after time began and right after an amber, has been shown since, and the walk back through spans and hold boundaries gets there |
| SignalClearance.FixedClearanceIff | engine/signal.go:292-397 | without commanded holds: exactly on the ticks up to the clearance window of a phase that shows no amber and follows one that did, when it began after tick 0 |
| SignalClearance.BoundaryMeans | engine/signal.go:292-332 | a tick is a boundary of the walk exactly where the schedule or a hold begins a span |
| SignalDisplay.ForgettingIsInvisible | engine/signal.go:216-397 | all a vehicle reads from a signal is the same with and without holds that ended more than a clearance window ago |
| SignalHistory.InstallGoverns | engine/sigctl.go:289-343 | a verb leaves the past as it was and puts its phase in force for exactly the effective hold; that is 0 exactly on renewing a chain at its bound |
| SignalRules.HoldGranted | engine/sigctl.go:280-343 | a verb is granted the ticks it asks for, cut at the bound, which counts from the start of the chain when the newest hold shows the same phase and reaches this tick, and from now otherwise |
| SignalHistory.InstallKeepsChains | engine/sigctl.go:289-308 | chains stay joined if and only if the verb is not a re-command of a phase whose successor it drops as empty |
| SignalHistory.OneVerbNeverBreaks | engine/sigctl.go:289-308 | one verb per program and boundary is enough to keep them joined |
| SignalHistory.TwoVerbsOutlastBound | engine/sigctl.go:289-308 | with two, the cumulative bound fails: a bound of 10 ticks and a phase in force for 15 |
| SignalHistory.NoRunOutlastsBound | engine/sigctl.go:289-343 | while chains are joined no uninterrupted run of one commanded phase outlasts the bound |
| SignalHistory.BoundHoldsIff | engine/sigctl.go:185-343 | of a history with joined chains, a verb keeps every uninterrupted run of a commanded phase within the bound, however long it asks to hold, if and only if it breaks no chain |
| SignalHistory.BreakOutlastsBound | engine/sigctl.go:289-343 | one that does, asking for the bound, keeps its phase in force from the start of the hold it joins up with to a whole bound from now |
| SignalHistory.LapseExactly | engine/sigctl.go:345-365 | a lapse is reported at a tick exactly when the tick before was commanded and this one is not |
| SignalLapses.LapseTells | engine/sigctl.go:347-366 | the lapses of a tick are those of the programs whose newest hold ends there, each with its phase, the start of the whole chain, and the verb |
| SignalLapses.LapsesAreReal | engine/sigctl.go:347-366 | at every boundary, whatever its verbs, a program is among the lapses exactly when a command held it the tick before and none does now |
| SignalRules.KeptIff | engine/sigctl.go:366-384 | a hold is kept through one clearance window past its end and no longer |
| SignalControl.RetentionLosesNothing | engine/sigctl.go:366-383 | after every tick of every run, phase, light, permissive green, clearance and lapses of the swept table are those of a table that keeps every hold |
| SignalControl.RunsStayBounded | engine/sigctl.go:272-385 | in every run histories are chronological and disjoint, until <= chainStart + bound, and lapses are exact |
| SignalControl.NoStarvation | engine/sigctl.go:272-385 | over whole runs in which no verb breaks a chain, no phase is commanded without interruption longer than the bound |
| SignalControl.RunUnbrokenIff | engine/sigctl.go:185-343 | exactly so: over a whole run no verb breaks a chain if and only if no verb, however long it had asked to hold, lets a command outlast the bound |
| SignalControl.OneVerbRunUnbroken | engine/sigctl.go:272-385 | at most one verb per program and boundary is enough for that, whatever the verbs |
| SignalEngine.SignalController.EnqueueSignal | engine/sigctl.go:168-226 | accepts or refuses a directive by the source's checks in their order; a refusal changes nothing |
| SignalRules.VerbAcceptedIff | engine/sigctl.go:168-226 | a verb is accepted exactly when its id is short enough and not in use, its program exists and has the phase; its hold is then what was asked, a cycle by default, and at most the bound; a refusal names a reason that holds |
| SignalEngine.SignalController.MarkSignalVerbUnenforced | engine/sigctl.go:244-257 | the newest record with the id, and only it, shows hold 0, in both logs |
| SignalEngine.SignalController.InstallVerb | engine/sigctl.go:273-343 | one verb in place: chain renewed or restarted, hold in force superseded, effective hold recorded |
| SignalRules.RecordShowsEnforced | engine/sigctl.go:244-346 | after any batch of verbs with ids of their own, the record of each shows the ticks its hold is granted from now on, and 0 if it was declined or superseded at the same boundary |
| SignalEngine.SignalController.StepSignalOverrides | engine/sigctl.go:272-385 | the whole boundary in place: verbs, lapses, sweep, as specified |
| SignalReplay.BatchReplays | engine/sigctl.go:272-343 | re-enqueuing the record of a boundary, declined renewals and superseded verbs included, is applied to the same table and the same record |
| Intents.OneWinnerPerVehicle | engine/intent.go:112-149 | every vehicle with an intent has exactly one winner, and no competitor comes before it |
| IntentRules.QueueWinner | engine/intent.go:112-148 | of a queue in any order exactly one intent per vehicle takes effect, and no competitor has a higher grant or, at the same grant, an earlier controller or a lower sequence; all are recorded, the others as superseded |
| IntentRules.RecordRuns | engine/intent.go:112-148 | the record has the queue in full, by descending grant and then by vehicle |
| Intents.PermutationInvariant | engine/intent.go:112-149 | with distinct keys any permutation of the queue leaves the same log and winners |
| Intents.SortedUnique | engine/intent.go:117-129 | two sorted arrangements of the same distinct keys are one and the same |
| Intents.ArbitrateReplays | engine/intent.go:112-149 | re-enqueuing a recorded tick, superseded intents included, reproduces the record |
| Intents.IntentQueue.ApplyIntents | engine/intent.go:112-149 | the queue is drained, every intent is recorded, and exactly the winners take effect, in order |
| Intents.AxesStayInRange | engine/intent.go:154-205 | under any intent a held turn stays one of left, none and right, the signals stay one of four, and a cruise setpoint set stays between zero and the desired speed; requests for acceleration and lanes are taken as they come |
| IntentRules.AxisByAxis | engine/intent.go:154-207 | a winner changes the axes it sets and leaves the rest: a turn by its sign, a cruise setpoint cut at desired speed or given up by a negative one |
| Director.Judge | engine/director.go:111-188 | an accepted spawn directive is stamped with a lane and a type of the network, and its id is live nowhere |
| SpawnRules.AcceptedIff | engine/director.go:111-188 | a directive is accepted if and only if there is nothing to refuse it for; it is then resolved to a lane of its origin's name - a portal, or the lane with room for its offset - and to the first type of its name; a refusal names a reason that holds |
| Director.DrainConserves | engine/director.go:233-290 | a boundary splits the queue into those who stay and those who left, without loss or invention |
| Director.DrainKeepsOrder | engine/director.go:233-290 | those who stay keep their order |
| Director.DrainInTime | engine/director.go:245-262 | no directive waits past its hold window |
| Director.CountsEveryDeparture | engine/director.go:245-290 | injected, expired and dead on arrival each count exactly the departures of their kind; dead on arrival means expired on the tick it was accepted |
| Director.CountsByLane | engine/director.go:245-290 | and the per-lane counters the expiries from that lane |
| Director.RemembersLastInjection | engine/director.go:285-287 | the last injection is remembered |
| Director.RemembersFirstExpiry | engine/director.go:242-252 | so is the first expiry |
| Director.EnqueueKeepsInv | engine/director.go:111-188 | accepting a directive keeps ids distinct and the account exact |
| Director.BoundaryKeepsInv | engine/director.go:222-290 | after every boundary accepted == injected + expired + waiting, no id lives twice, every wait is bounded |
| Director.DirectorQueue.EnqueueSpawn | engine/director.go:111-188 | validation in place, in the order of the checks; a refusal changes nothing |
| Director.DirectorQueue.StepDirectorSpawns | engine/director.go:222-290 | the boundary in place: stamp, queue, try each once |
| TickEngine.RunSettles | engine/engine.go:429-483 | after every run the engine is settled: buffers drained, the override table within its bounds, clock at the number of ticks |
| TickEngine.RunKeepsQueue | engine/director.go:222-290 | after every run what was accepted is injected, expired or waiting, no id waits twice, every wait is bounded, and the counters count the departures |
| Engine.Engine.EnqueueSpawn | engine/director.go:111-188 | a spawn handed over between ticks is the specified command, with its verdict |
| Engine.Engine.EnqueueSignal | engine/sigctl.go:168-226 | a signal verb handed over between ticks is the specified command, with its verdict |
| Engine.Engine.Step | engine/engine.go:429-483 | one tick in place takes the engine to the specified next state, whose order of phases TickOrder.TickTraced states |
| TickOrder.TickTraced | engine/engine.go:429-483 | the order of a tick, for the record of calls made to the physics: the spawner under the old lights; the directives whose time has come, in queue order, under these; then the winning intents in order; then motion, under the new lights; all at the new tick |
| TickOrder.ChecksumCloses | engine/engine.go:429-483 | and the checksum covers the state the tick leaves |
| Replay.TickFeeds | engine/replay.go:63-91 | handing a settled engine the record of a tick fills its buffers with what filled them then, and refuses nothing |
| Replay.TickReplays | engine/replay.go:55-101 | the replayed tick ends in the same world, queues, override table, counters, logs and checksum |
| Replay.RunLogs | engine/engine.go:429-483 | the logs of a longer run extend those of its beginning by later entries only |
| Replay.TickOfLog | engine/replay.go:63-91 | the entries of a log at a tick are what that tick added |
| Replay.RunReplays | engine/replay.go:55-101 | replaying the log of any run is never refused and, after every tick, gives the very state and logs of the recorded run |
| ReplayRun.RunReplay | engine/replay.go:55-101 | the loop with its three log indices reports the first refusal or divergence, or the reproduced run |
| ReplayRun.RunReproduced | engine/replay.go:55-101 | on the log of any run it reports neither, and the same log again |
| Boundaries.BucketsRefineSweep | engine/engine.go:841-952 | with adaptive routing off, the bucketed descending pass gives lane, position, speed, held turn, stop duty and the despawn, arrival and wall counters of the naive sweep, for every network and population |
| Boundaries.EachAsIfAlone | engine/engine.go:854-868 | per-vehicle handling is order-independent: each vehicle ends as if it were alone |
| Boundaries.PassRefinesSweep | engine/engine.go:869-952 | the same for the pass from any population |
| BoundaryOverlaps.OrderFreeAgrees | engine/engine.go:869-952 | on a network where no lane is both entered from a higher lane and looped back from, pass and naive sweep agree on every vehicle and every count, landing overlaps included, for any population and steering |
| BoundaryOverlaps.SweepVisitsMovers | engine/engine.go:841-868 | going over everybody is going over those past the lane end, in order |
| BoundaryOverlaps.LaneKeepsOrder | engine/engine.go:869-952 | the bucket of a lane nobody enters from above stays in vehicle order through the pass |
| BoundaryOverlaps.VisitListExact | engine/engine.go:908-916 | on a lane nobody loops back from, the order of the bucket does not show in any count |
| OverlapOrder.LoopDiffers | engine/engine.go:908-916 | round every loop of lanes of positive length that a lane is entered and left by, two vehicles can be placed so that pass and sweep count different landing overlaps |
| OverlapOrder.OverlapsAgreeIffOrderFree | engine/engine.go:841-952 | so the landing overlaps agree for every steering and population if and only if the network is of that kind |
| OverlapOrder.TwoLaneRingDiffers | engine/engine.go:908-916 | a ring of two lanes is not; one lane that succeeds itself is (`LoneRingAgrees`) |
| Boundaries.HandOff | engine/engine.go:869-952 | the pass in place over the vehicles and the bucket map computes the specified outcome and counts; BoundaryOutcome states what that is for each vehicle |
| BoundaryOutcome.LeavesLane | engine/engine.go:869-976 | what HandOff makes of a vehicle past its lane end, whoever else drives: gone on an exit or its destination, at the wall with speed 0, else as far into the next lane as it had overshot with its turn used up - first successor for a left turn, last for a right, else the route's hop, else the first |
| BoundaryOutcome.StaysWithin | engine/engine.go:869-976 | a vehicle within its lane is left alone |
| BoundaryOutcome.DespawnedAreGone | engine/engine.go:886-905 | the count of departures is the number of vehicles taken off the network |
| BoundaryOutcome.LandsIff | engine/engine.go:912-922 | on occupants in order a landing overlaps exactly when the first of them with its front beyond the vehicle's rear has its rear short of the vehicle's front |
| Boundaries.Search | engine/engine.go:908-916 | halving finds a position beyond the rear whose predecessor is not; on ascending positions the first beyond it |
| Occupancy.RunStaysExact | engine/engine.go:429-483 | in every run of registrations, motion with departures and rebuild, hops, strands and drops, each lane's list holds exactly the vehicles on that lane, sorted by position and id |
| OccupancyRules.RunRearToFront | engine/engine.go:375-387 | so on every lane of every run positions never fall from first to last, level vehicles stand by ascending id, and exactly the vehicles of the lane are there |
| OccupancyRules.OperationsDo | engine/mobil.go:162-179 | a hop changes the lane of one vehicle and nothing else, a strand takes one off its lane, a registration adds one at the end, and those without a lane go |
| OccupancyRules.OrderStays | engine/gridlock.go:248-260 | vehicles leave the spawn order and never change places in it |
| Occupancy.RegisterKeeps | engine/engine.go:375-387 | inserting a new vehicle keeps every list exact |
| Occupancy.HopKeeps | engine/mobil.go:162-179 | a hop, remove and insert, keeps every list exact |
| Occupancy.StrandKeeps | engine/gridlock.go:115-138 | taking a stranded vehicle off its lane keeps every list exact |
| Occupancy.DropKeeps | engine/gridlock.go:248-260 | dropping vehicles without a lane leaves exactly the others live, whatever the lists are worth, and keeps exact lists exact |
| Occupancy.MoveIs | engine/engine.go:869-952 | after motion, departures and rebuild exactly the vehicles that still have a lane are live, where they then are |
| Occupancy.DropsNobody | engine/engine.go:949-951 | when the boundary pass noted no departure, skipping the drop changes nothing |
| Occupancy.OneOrder | engine/engine.go:527-543 | position and id leave one order only: the rebuilt list does not depend on the sort |
| Occupancy.LeaderOnLane | engine/engine.go:592-601 | binary search past the vehicle itself finds the nearest vehicle ahead that a look at all of the lane finds, and none exactly when there is none |
| Occupancy.Neighbors | engine/mobil.go:206-223 | lead is the nearest vehicle beyond s, foll the rearmost at or before s other than the one excluded |
| Occupancy.IsHead | engine/gridlock.go:172-175 | the last entry of a lane is the vehicle no other is ahead of |
| Occupancy.RemoveVehicle | engine/mobil.go:226-234 | search and scan remove exactly the vehicle |
| Occupancy.InsertVehicle | engine/mobil.go:237-245 | the vehicle is put in its place in the sorted list |
| Occupancy.Lanes.RegisterVehicle | engine/engine.go:375-387 | the registration in place |
| Occupancy.Lanes.ExecLaneChange | engine/mobil.go:162-179 | the hop in place; no neighbour, no change |
| Occupancy.Lanes.StrandVehicle | engine/gridlock.go:115-138 | the strand in place |
| Occupancy.Lanes.DropDespawned | engine/gridlock.go:248-260 | the compaction in place, with the exact lists of the escape or the stale ones of the boundary pass |
| Occupancy.Lanes.RebuildOccupancy | engine/engine.go:527-543 | the rebuild in place: empty, deal out, sort |
| Occupancy.Lanes.SettleMotion | engine/engine.go:429-483 | the end of the motion phase in place: the drop with stale lists when somebody left, then the rebuild |
| SafetyGate.GateKeepsSafe | engine/engine.go:758-791 | v^2 <= vLead^2 + 2 b room + (b dt)^2 is kept by every gated ballistic tick, exact stop included, under a leader braking no harder than b, also inside the standstill reserve |
| SafetyGate.RoomSpent | engine/engine.go:758-791 | with room to begin with, the same holds of the room really left, negative or not |
| SafetyGate.GateWithinReach | engine/engine.go:780-786 | under the invariant the gate never demands more than b |
| SafetyGate.RoomLost | engine/engine.go:758-794 | a tick costs at most b dt^2 / 2 below the standstill reserve |
| SafetyGate.RoomCanRunOut | engine/engine.go:758-794 | and can cost exactly that |
| SafetyGate.RunStaysSafe | engine/engine.go:758-791 | over whole runs of a pair the gate can always be obeyed within b; the gap loses at most b dt^2 / 2 a tick |
| SafetyReserve.ReserveKeptIff | engine/engine.go:758-839 | a tick keeps the standstill reserve whatever the leader does, braking no harder than b, if and only if it keeps it under full braking |
| SafetyReserve.GateKeepsReserveIff | engine/engine.go:758-839 | for everything a gated follower may do that is b dt (v + s) + max(0, vLead - b dt)^2 <= s^2, with s the root the gate took: a check before the tick |
| SafetyReserve.KeptUnlessBraking | engine/engine.go:758-839 | so the reserve is kept whenever the gate does not ask the follower to slow down |
| SafetyReserve.RunKeepsGap | engine/engine.go:758-839 | over runs of any length the gap never falls below the reserve, or below where it began, by more than b dt^2 / 2 times 9/4 + 1 + 1/2 + ... + 1/n, for a leader no faster than n + 1 ticks of braking |
| SafetyReserve.TravelGrows | engine/engine.go:825-839 | braking harder never covers more |
| SafetyGate.TravelAtMost | engine/engine.go:825-839 | no ballistic tick, exact stop included, covers more than the mean of its two speeds |
| SafetyGate.TravelAtLeast | engine/engine.go:825-839 | braking no harder than b sheds speed only for distance |
| SafetyGate.Integrate | engine/engine.go:825-839 | every vehicle is moved by the ballistic update, all at once |
| SafetyGate.ApplyGate | engine/engine.go:719-791 | off at b <= 0 and without a leader; else the acceleration is capped at the gate and the counters say what happened |
| SafetyGate.GateSpeed | engine/engine.go:758-794 | the gate steers for the speed w >= 0 with w w + 2 b dt w = vLead vLead + 2 b max(0, gap - 0.25), reached in one tick unless that takes braking harder than b |
| Wire.RowRoundTrip | engine/keyframe.go:658-726 | a row of typed items reads back as itself, and the rest is left |
| Wire.ItemExtends | engine/keyframe.go:676-726 | what follows an item does not change how it reads |
| Wire.ByteReader.Take | engine/keyframe.go:676-687 | a short read sets the sticky error and reads zero bytes |
| Wire.ByteReader.ReadRow | engine/keyframe.go:689-726 | reading item by item is parsing the row, with the error sticky across items |
| Keyframe.RestoreMarshal | engine/keyframe.go:176-648 | marshalled bytes restore, in whichever of the versions 2 to 7 the state selects, to the state they were taken from |
| Keyframe.RestoreRemarshals | engine/keyframe.go:176-648 | and that state marshals to the same bytes |
| Keyframe.OnlyWholePayloads | engine/keyframe.go:387-648 | no strict prefix and no proper extension of a restorable payload restores |
| KeyframeFormat.KeyframeBytes | engine/keyframe.go:176-374 | the payload byte by byte: the letters TSKF, header, vehicles, origins, the counted lane times with adaptive routing, the counted queue from version 3, the counted holds at version 7, every row field by field in little-endian order |
| KeyframeFormat.VersionByContent | engine/keyframe.go:176-212 | version 7 for commanded signals, else 6 for adaptive routing, else 5 for a running timer, else 4 for a routed or mid-lane directive, else 3 for any, else 2 |
| KeyframeFormat.HoldsInOrder | engine/keyframe.go:353-372 | holds are listed by program in network order, and within it in the order they began |
| KeyframeFormat.RestoredIsChecked | engine/keyframe.go:387-648 | whatever the bytes, a restore that succeeds has found the letters, the origins and lanes of the spec, and only indices, generators and holds that pass every check |
| Keyframe.TableReadsBack | engine/keyframe.go:353-372 | flattening the override table and gathering it again gives the table |
| Keyframe.BoundedRestores | engine/keyframe.go:603-640 | every override table a run can reach passes the checks of a restore |
| Keyframe.NormalVersion | engine/keyframe.go:176-230 | what a restore does not carry never shows in the choice of version |
| KeyframeIO.ComputeVersion | engine/keyframe.go:176-230 | the scans over the state pick the lowest version that can carry it |
| KeyframeIO.MarshalState | engine/keyframe.go:176-372 | the writer, section by section, produces the specified bytes |
| KeyframeIO.RestoreState | engine/keyframe.go:387-648 | the reader, section by section, restores or refuses as specified |
| IntentRecord.RecordReadsBack | engine/natsio/recorder.go:337-385 | a record, followed by anything, reads back as what it carries, and the rest is left |
| IntentRecord.RoundTripIffCarried | engine/natsio/recorder.go:353-361 | it reads back as the intent logged if and only if RouteSet means a non-empty route of at most 48 bytes and no route is carried otherwise |
| IntentRecord.RecordSize | engine/natsio/recorder.go:337-385 | the encoded length of a record |
| WireFormats.IntentBytes | engine/natsio/recorder.go:337-385 | a record field by field: order, widths, flag bits, two's complement, and the route cut at 48 bytes |
| IntentBatch.BatchReadsBack | engine/natsio/tslb.go:66-134 | a batch message reads back as the records it was written with |
| IntentBatch.OnlyWholeMessages | engine/natsio/tslb.go:88-134 | a message cut short or with bytes after it is malformed |
| WireFormats.BatchBytes | engine/natsio/tslb.go:66-79 | a batch is the letters TSLB, version 1, a zero, the number of records, their tick, and the records |
| WireFormats.DecodedIsChecked | engine/natsio/tslb.go:88-134 | a message that decodes starts so, has the bytes for as many records as it says, and each is of the tick it names |
| IntentBatch.FinishTSLB | engine/natsio/tslb.go:75-79 | count and tick are stamped into the reserved header in place |
| IntentBatch.LogIntentBatch | engine/natsio/recorder.go:386-448 | for any budget the messages written are whole batches of consecutive records of the tick; with controller ids of at most 256 bytes each is within the budget unless it holds one record only, and each but the last had no room for one more; an intent of another tick is refused |
| IntentBatch.SplitReadsBack | engine/natsio/replay.go:446-461 | however a tick was split, its messages decoded in order are its records |
| IntentBatch.CarriedReadsBack | engine/natsio/recorder.go:353-361 | with carried routes that is the very sequence logged |
| KeyframeLog.LogKeyframe | engine/natsio/recorder.go:483-510 | a keyframe is one message, or consecutive chunks of at most the limit |
| KeyframeLog.PieceIs | engine/natsio/recorder.go:483-510 | every chunk but the last is full, and they follow each other numbered from 1 |
| KeyframeLog.FindsLatest | engine/natsio/replay.go:277-350 | for any chunk size the scan of what was logged gives the exact bytes of the latest keyframe at or before the target |
| KeyframeLog.LatestIsNearest | engine/natsio/replay.go:277-350 | and that is the nearest one, or none exactly when all lie past the target |
| KeyframeLog.FindKeyframe | engine/natsio/replay.go:277-350 | the scan loop with its open assembly computes the specified outcome, errors included |
| KeyframeScan.ScanIsExact | engine/natsio/replay.go:277-350 | on any messages at all the scan reports corruption if and only if they are anything but complete keyframes one after the other; otherwise it finds a stored one at or before the target with none later before it, or none because all are past it |
| LogCursor.IndexLogMsgs | engine/natsio/replay.go:190-263 | the whole log is bucketed by tick, or the first message that cannot be read fails it, a bad chunk header included |
| LogCursor.KeyframeListedOnce | engine/natsio/replay.go:239-259 | a keyframe, whole or in any number of chunks, is listed once, at its tick |
| LogCursor.BucketIsRecords | engine/natsio/replay.go:190-263 | the bucket of a tick is what its messages add, in stream order |
| LogCursor.Cursor.NextMsg | engine/natsio/logcursor.go:327-370 | for any fetch batching, the messages come one by one in stream order, and none at the end |
| LogCursor.Cursor.Records | engine/natsio/logcursor.go:381-410 | one tick's records, earlier ones dropped, the boundary message held back |
| LogCursor.ReadRun | engine/natsio/logcursor.go:381-410 | tick after tick the cursor gives exactly the index bucket |
| Bake.RecordHasher.Add | engine/natsio/resim.go:59-89 | a message offered twice is digested once |
| Bake.GroupTick | engine/natsio/bake.go:139-176 | one tick is grouped, or fails exactly when a message of it does not decode; everything passing by is digested once |
| Bake.Drain | engine/natsio/bake.go:207-226 | what is left of the record is digested too |
| BakeState.BakeReproduces | engine/natsio/bake.go:125-228 | baking the record of any run succeeds, and after every tick gives the very state of the recorded run |
| Bake.Enqueue | engine/natsio/bake.go:178-195 | intents, then spawn verbs, then signal verbs are handed over as specified; it stops at the first refusal and only then |
| Bake.Advance | engine/natsio/bake.go:178-203 | the tick is stepped from what was handed over, and passes exactly when nothing was refused and the logged checksum holds |
| Bake.Run | engine/natsio/bake.go:125-228 | a bake succeeds exactly when every message of every tick decodes, no verb is refused and no logged checksum differs; the engine is then in the state so reached and every message was digested once, in stream order |
| BakeOutcome.BakeFailsIff | engine/natsio/bake.go:125-228 | a bake to a tick fails if and only if some tick up to it, reached by re-simulating those before, has an unreadable message, a verb that is refused, or a last checksum that is not the one reached |
| MetricChains.FindChainsSound | engine/metrics.go:1246-1279 | every chain is a simple successor path of bounded length to the first match on it, shortest first |
| MetricChains.FindChainsComplete | engine/metrics.go:1246-1279 | unless the search says it was cut short, every such chain was returned |
| MetricChains.CutShortHasCause | engine/metrics.go:1246-1279 | it says so only when three chains were returned, or some path ran eight hops without a match |
| MetricChains.ChainSearch.Visit | engine/metrics.go:1246-1279 | the depth-first search with its pushed and popped path finds the specified chains |
| MetricChains.CrossedIsChain | engine/metrics.go:1224-1236 | a resolved crossing is such a chain to the arrival lane or beside it |
| MetricChains.CrossedIsOnly | engine/metrics.go:1224-1236 | a crossing called unambiguous is the only one there is; unless the search was cut short, no chain is shorter than the one resolved |
| MetricChains.ResolvedIsChain | engine/metrics.go:1354-1367 | a resolved exit is such a chain to the one matching lane |
| MetricTicks.AccountTotals | engine/metrics.go:1179-1207 | however a tick is split, its distance, time, presence and loss are booked in full |
| MetricTicks.VehicleTickBooks | engine/metrics.go:411-580 | each observed vehicle-tick books exactly its distance, exactly dt and exactly its loss, across hops, multi-lane splits, refunds and carries |
| MetricLanes.StayIsThere | engine/metrics.go:497-514 | a vehicle that stays on its lane is booked there, and nowhere else, for what it moved, or for the way round a lane that leads into itself |
| MetricLanes.HopIsOnLaneLeft | engine/metrics.go:515-546 | a lateral hop books its distance, the tick, the presence and the loss on the lane left and nothing on any other, the lane reached included |
| MetricLanes.FirstIsFromEntry | engine/metrics.go:448-496 | a first observation is booked from the point of entry; off an origin lane, and not entered mid-lane, it counts as a dropped crossing |
| MetricLanes.CrossingByLane | engine/metrics.go:1113-1145 | a crossing books the rest of the lane left, each lane between in full and max(0, s) on the last; time and loss go to each in proportion to its positive distance, or all to the last if none is; nothing goes to any other lane |
| MetricLanes.RefundByLane | engine/metrics.go:1063-1112 | a refund takes s - length, and that share of the time, presence and loss booked before, back from the lane left, carries time, presence and loss to the last, and shares the tick itself out over the lanes after the one left |
| MetricLanes.KeptIsBooked | engine/metrics.go:1130-1143 | what a crossing remembers for a later refund is what it booked to its last lane |
| MetricLanes.StopIsBookedOnce | engine/metrics.go:567-578 | a stop is booked once, on the lane of the first tick below 0.1 m/s |
| MetricTicks.ExitTickBooks | engine/metrics.go:643-660 | a despawn books its distance, its time of at most dt, and its loss |
| MetricLanes.ExitByLane | engine/metrics.go:625-660 | a departure books the rest of its lane and in full the lanes of one simple way to an exit or to the lane its route names, over an estimated time of at most a tick; just the rest of its lane when no such way is certain, and then a dropped crossing |
| MetricTicks.HorizonBooks | engine/metrics.go:800-831 | the refund of a parked vehicle books its distance and its loss back |
| MetricLanes.HorizonByLane | engine/metrics.go:793-830 | the overshoot is taken back from the lane of a parked vehicle, and its metres, nothing else, go to the only successor |
| MetricSets.CoveringTotal | engine/metrics.go:997-1040 | in a set covering every lane each booking of the window arrives once |
| MetricSets.ClosedTotal | engine/metrics.go:1426-1465 | closing an interval moves its sums to the records |
| MetricSets.CloseDueTotal | engine/metrics.go:1409-1422 | closing what is due neither loses nor invents anything |
| MetricSets.IntervalsMeasureTheirTicks | engine/metrics.go:1391-1465 | emitted intervals tile the configured window, as far as observed, without gap or overlap, and each records exactly what its ticks booked, lane by lane |
| MetricSets.RoundsAreFull | engine/metrics.go:1409-1465 | every interval emitted lasts a whole period but for one cut short by the end of the window, and that one, and no other, is flagged partial |
| MetricSets.HorizonMeasures | engine/metrics.go:832-842 | the final partial interval ends at the horizon, or at the set's last tick |
| MetricLedger.VehicleKeeps | engine/metrics.go:411-580 | observing a vehicle keeps the books balanced and books exactly dt |
| MetricLedger.StrandedKeeps | engine/metrics.go:611-624 | a stranded vehicle's trip is closed where it stood, and the books stay balanced |
| MetricLedger.DroveOutKeeps | engine/metrics.go:625-682 | so they do when a vehicle drives out |
| MetricLedger.BookTickKeeps | engine/metrics.go:411-684 | a whole tick keeps them balanced, and its time is dt per vehicle plus the estimated exit times |
| MetricRun.RunBalances | engine/metrics.go:411-765 | in every run: distance, time and loss equal open plus emitted intervals of a whole-network set; distance and loss equal open plus emitted trips; the stops agree; every vehicle seen has its open trip |
| MetricRun.RunTime | engine/metrics.go:411-765 | the time of a run is dt per observed vehicle-tick plus the estimate of every exit, and those come to at most dt per completed trip |
| MetricRun.KeysKept | engine/metrics.go:411-684 | after a tick exactly the vehicles just seen have an open trip |
| TripRules.TickOfTrip | engine/metrics.go:555-583 | what a tick adds to a trip: its distance and loss, a stop where one begins, its length where the vehicle is slow, the lane it is on; nobody else's trip changes |
| TripRules.EndOfTrip | engine/metrics.go:613-682 | a trip ends stranded, as it stood, or completed, with its way out added, at the exit or destination if that is certain |
| TripRules.RunTallies | engine/metrics.go:411-684 | in every run the completed and stranded counters are the numbers of records of those kinds, and there are no others |
| TripRules.OpenEmitted | engine/metrics.go:842-852 | at the horizon every open trip is emitted as it stands, by ascending id, neither completed nor stranded |
| MetricFinal.RunJournals | engine/metrics.go:411-765 | every set of a run is its own history of the journal of bookings |
| MetricFinal.RunIntervals | engine/metrics.go:1409-1465 | so the intervals of every run tile and measure their ticks |
| MetricFinal.FinalizeBalances | engine/metrics.go:775-891 | at the horizon no trip stays open, emitted trips add up to distance and loss, whole-network sets to distance and time, and to loss short of what was refunded |
| MetricFinal.EmittedMissesRefunds | engine/metrics.go:793-842 | horizon refunds reach the emitted intervals if and only if an interval is still open there |
| MetricFinal.RunEmits | engine/metrics.go:775-891 | so at the end of every run a set has emitted all that was booked to it, refunds included, when an interval was still open at the horizon, and else what was booked before the refunds |
| ParkedExample.ParkedMissesRefund | engine/metrics.go:793-842 | a run where that shows: the whole-network set emits four metres, the books hold three |
| ParkedExample.PassParks | engine/engine.go:869-952 | the boundary pass gives its input: a vehicle that hops into a short lane already handled is left past the end of it |
| Metrics.CloseDueSet | engine/metrics.go:1409-1422 | the closing loop computes the specified set |
| Metrics.Kernel.constructor | engine/metrics.go:319-407 | a new kernel: placed vehicles are seeded, nothing is booked |
| TripRules.PlacedIsSeeded | engine/metrics.go:383-407 | a vehicle placed before the run is remembered where it stands, and its trip starts there at tick 0 |
| Metrics.Kernel.Add | engine/metrics.go:997-1040 | one amount goes to the run totals and to every set that measures the lane then |
| Metrics.Kernel.AccountShares | engine/metrics.go:1179-1207 | the two loops over shares book the specified split and return its loss |
| Metrics.Kernel.RefundAndCarry | engine/metrics.go:1062-1112 | the overshoot is refunded, carried, and the tick's own travel split over the rest |
| Metrics.Kernel.Cross | engine/metrics.go:1113-1145 | remainder, lanes between in full, arrival up to the vehicle |
| Metrics.Kernel.ObserveFrame | engine/metrics.go:411-765 | one engine step folded in place: vehicles in order, the gone ascending, intervals due; MetricLanes states lane by lane what is booked |
| Metrics.Kernel.FinalizeAt | engine/metrics.go:775-891 | the run closed in place: refunds, final intervals, open trips |
| ContractRun.RunKeepsClaims | engine/natsio/contract.go:653-1000 | in every run byVehicle and the claim sets are inverse, every owner is attached, every hold is its owner's or an orphan's |
| ContractRun.ClaimsExclusive | engine/natsio/contract.go:653-676 | no vehicle is claimed by two controllers |
| Contract.TryClaimKeeps | engine/natsio/contract.go:653-676 | a claim, granted or not, keeps the registry consistent |
| Contract.ReleaseOneKeeps | engine/natsio/contract.go:843-852 | so does a release |
| Contract.DetachKeeps | engine/natsio/contract.go:855-877 | so does a detach, after which the controller is gone |
| Contract.HelloKeeps | engine/natsio/contract.go:559-650 | so does an attach with its claims |
| Contract.SweepKeeps | engine/natsio/contract.go:988-1000 | so does the despawn sweep |
| Contract.IdsDiffer | engine/natsio/contract.go:615-617 | controller ids are never reused |
| ContractRun.SweepLeavesLive | engine/natsio/contract.go:988-1000 | the sweep leaves claimed exactly the claimed vehicles that are live |
| ContractRun.HelloOwnersDrive | engine/natsio/contract.go:638-641 | owners hold the drive grant after a hello if and only if it has the grant or names no live unclaimed vehicle |
| ContractAdmission.HelloTerms | engine/natsio/contract.go:559-650 | a hello attaches a new controller on the terms it asked for, every tick if it asked for no cadence |
| ContractAdmission.ClaimsWhatIsFree | engine/natsio/contract.go:653-716 | a claim request gets exactly the live vehicles that are nobody's |
| ContractAdmission.ReleasesOwnOnly | engine/natsio/contract.go:718-877 | a release or detach frees exactly what was asked for of the controller's own, and orphans its holds |
| ContractAdmission.HandsOverBridge | engine/natsio/contract.go:653-877 | no claim, release, hello or detach starts, ends or renews a bridge |
| ContractRun.ExampleClaimWithoutDrive | engine/natsio/contract.go:638-641 | a signal controller becomes the owner of a vehicle it may not drive |
| ContractDrain.DrainedKeysDistinct | engine/natsio/contract.go:882-965 | drained arbitration keys are pairwise distinct, so any permutation of the queue gives the same log and winners |
| ContractAdmission.DrainAdmits | engine/natsio/contract.go:882-927 | a drain hands over exactly the arrivals of those who may steer the vehicle - its owner with the drive grant, a director, or an unattached publisher while it is unclaimed - in order and with their own grants; every other arrival counts as a violation |
| ContractAdmission.ClaimsBind | engine/natsio/contract.go:899-918 | no fresh entry for a claimed vehicle comes from anybody but its owner with the drive grant or a director |
| ContractAdmission.DrainRemembers | engine/natsio/contract.go:919-927 | after a drain the hold of a vehicle is its owner's last word, fresh as of this tick |
| ContractAdmission.DrainNumbers | engine/natsio/contract.go:882-970 | a drain numbers every publisher's entries one after the other from its counter on, without gap or repetition, re-issued ones among an attached controller's own |
| ContractDrain.HoldsInWindow | engine/natsio/contract.go:930-962 | no hold is re-issued past (cadence - 1) + HoldLastTicks after its last fresh intent |
| ContractDrain.SilentDrain | engine/natsio/contract.go:930-962 | without an intent for a vehicle its hold is re-issued exactly once, or ends |
| ContractDrain.BridgeLastsWindow | engine/natsio/contract.go:930-962 | with its owner unchanged a vehicle is bridged for exactly the window |
| ContractRun.Registry.ClaimOne | engine/natsio/contract.go:653-676 | the claim in place, with its answer |
| ContractRun.Registry.AnswerHello | engine/natsio/contract.go:559-650 | the attach in place |
| ContractRun.Registry.DetachController | engine/natsio/contract.go:855-877 | the detach in place |
| ContractRun.Registry.Drain | engine/natsio/contract.go:882-965 | the drain in place: arrivals, then held vehicles in ascending id |
| ContractRun.Registry.SweepDead | engine/natsio/contract.go:988-1000 | the despawn sweep in place |

## Left out

- NATS, JetStream and KV calls, acknowledgements, timeouts, HTTP control, pacing, logging and files: a stream is a sequence of messages with sequence, tick, kind and payload.
- IEEE-754 rounding and NaN: lengths, speeds and times are reals. In the keyframe codec floats travel as their 64-bit patterns.
- Random numbers and hashing: a generator is its state bytes, a checksum or digest an uninterpreted function of what it covers.
- Car following, lane-change incentives, right of way and spawn draws: deterministic functions of the state, given as parameters.
- Wrap-around of 64-bit ticks, counters and sequence numbers, which are unbounded naturals here.
- Strings have one byte per character; ids and routes past the lengths the source checks are refused as there, longer ones the source does not check are not modelled.
- The binary heap of the router: a sequence from which a least entry is popped, with the same tie-break.
- The network loader: lane links are taken to be inside the network, and lateral links mutual where the lateral search needs it.
- The routing memo for lateral depth and for predecessors, which never change during a run.
- SignalProgram.CompileTicks: negative offsets are excluded; the source converts them to an unsigned integer, which Go leaves to the implementation.
- The fixed-width one-shot codecs (TSSF, TSOB, TSIB, TSSG) and JSON verbs, which add only easy round trips.
- Boundaries.PassRefinesSweep: vehicles are values in an array and buckets hold positions, not pointers; the travel-time estimate that depends on order is excluded, as adaptive routing is off.
- Occupancy.Lanes.SettleMotion: where motion and the boundary pass leave each vehicle is a parameter.
- Occupancy.Lanes.RebuildOccupancy: vehicles are ids into a map, lists hold ids; the sort is the one order position and id allow.
- Occupancy.LeaderOnLane: the walk over successor lanes, once the lane itself is empty ahead, is not modelled, nor is the breadth-first reset of stuck timers behind a strand.
- OverlapOrder.OverlapsAgreeIffOrderFree: the steering is any choice of successors, not only one that shortest-path tables give; lanes have positive length.
- SafetyGate.ApplyGate: the square root is a parameter; the theorems hold for any root with the right square.
- Director.DirectorQueue.StepDirectorSpawns: whether an injection succeeds is a given function of the world, which also stands for the origin's spawner.
- RouteCache.RoutingEngine.RouteTable: maps are values of the fields, reassigned where the source updates them.
- Metrics.Kernel.ObserveFrame: denied demand, the estimate of vehicles that came and went within a tick, the Edie quotients of a record and the draining of pending records are not modelled; a tick out of sequence, which panics in the source, is not a frame.
- Metrics.Kernel.FinalizeAt: the pending backlog and the exact count of invisible vehicles are not modelled.
- ContractRun.Registry.Drain: liveness ticks, observation frames, events and announcements, the verb table, the pause gate and rejected hello payloads are not modelled.
- LogCursor.Cursor.NextMsg: the broker returns any non-empty batch in stream order; re-opening a vanished consumer is not modelled.
- Bake.Run: the sink's frames are not modelled; a keyframe check by the sink is not part of it.
