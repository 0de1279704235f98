# Verification of the space server's stateful components

The server runs a chain of game logics on several threads, moves physical objects over a grid, talks to clients
through multiplexed sessions, and hands out ids and memory from its own pools; the Python SDK plans flights for its
ships. This project models the parts of it that keep state over long runs, and proves what holds over all of those
runs. Check everything with `dafny verify dfyconfig.toml` (Dafny 4.11).

## How the models are built

A component whose methods change fields appears twice: as a value with one function per operation, and as a class
with the same fields whose methods are proved to do what those functions say, loops included. Properties of whole
runs are lemmas about the functions, so they hold of the classes too. A protocol between threads is a state machine
whose steps are the threads' atomic steps, and its results speak about every interleaving. Exact reals stand for
floating-point numbers, mathematical integers for machine integers; where the width of an integer matters (16-bit
slots, 32-bit periods and intervals, 64-bit clock differences) it is written out.

| files | what they model |
|---|---|
| SessionTable, SessionRuns, SessionMux, SessionSignals, SessionTiming, SessionInputs, ReissuedSession | the session multiplexer: sessions addressed by index and token, root sessions, closing, heartbeats and timeouts, and what it tells the channel |
| ConveyorBarrier, ConveyorChain, ConveyorRun | the barrier protocol between the master and its slaves, the master's choice of logics and intervals, and what that makes the slaves do |
| GridGeometry, GridRange, Grid, UnorderedVector | the grid of cells, its iterator and its range query |
| NewtonTick | the physics tick on many threads, which claim objects in batches and move them between cells |
| FlightPlan, PlanStepping, FastPlan, FastestPlan | merging, squashing, following and computing flight plans |
| WorkSharing, ModulesManager, CommonModulesManager, ReusedModule, TurnedModule, IdArray | the lifecycle of modules and the two stages in which threads share them |
| IdPool, GlobalContainer, ChunksPool, IndexedVector | the id pool, the global container and its mirror, the chunk pool, the indexed vector |
| Subscriptions, SubscriptionsBox, DelayedQueue, Clock | periodic subscriptions, delayed messages, the game clock |

## Where the code does not do what its documentation or its assertions suggest

Each of these comes with the exact condition and with a lemma at an input that the code can receive.

- `IAbstractLogic.h` promises a pause of `getCooldownTimeUs()` after a logic has run. `Conveyor::proceed` adds the
  cooldown to the previous deadline instead, so the pause is kept exactly when the logic runs at its deadline
  (ConveyorChain.CooldownHolds), and a logic added late catches up without any pause (ConveyorChain.LateLogicRunsTwice).
- `Grid::range` returns the empty range for a rectangle whose right or top edge lies on the grid's left or bottom
  border, although that rectangle touches cells (GridRange.GrazingExample). For every other rectangle it is exact
  (GridRange.RangeIsExact).
- `fast_plan` compares the change of the squared speed with 0.1 without taking its absolute value, so a body close to
  its target counts as being there however much too fast it is (FastPlans.OutcomeInPlace, FastPlans.TooFastInPlace).
  It divides by zero when the target speed can be reached only with the whole distance spent accelerating
  (FastPlans.FailsAtTheLimit). FastPlans.FastPlanOutcome gives all four outcomes.
- `SessionMux::addConnection` casts the size of the table to 16 bits unchecked (SessionTable.AddConnectionEffect), and
  since closed roots are not reused, 65535 connections one after the other fill the table
  (SessionInputs.OneConnectionTooMany). A payload for connection 0 can address a slot whose handler is gone
  (SessionRuns.DeliverEffect, SessionInputs.PayloadWithoutHandler). A close request is not compared with the connection
  it comes from (SessionInputs.MessageReaches, SessionInputs.RootClosedByNumber).
- The token generator avoids only the slot's last token, and a closed id stays on its connection's list. An id can
  therefore be reissued to another client, and closing the first client's connection then kills the other one's session
  (ReissuedSession.ClosingReaches, ReissuedSession.ClosingKillsForeignSession). Without reissue it cannot
  (SessionRuns.FreshRunIsolation).
- `SubscriptionsBox::add` multiplies in 32 bits (Subscriptions.PeriodIsExact, Subscriptions.PeriodsThatWrap). With a
  period that is a multiple of 2^29 ms the loop of `nextUpdate` does not end (Subscriptions.UpdateEndsIff).
- `BufferedProtobufTerminal` returns from a call whose queue is full without clearing the messages that it has handled,
  and handles them again (DelayedQueue.HandledOnceIffRoom, DelayedQueue.FullQueueHandlesTwice). It does not release
  delayed messages then either (DelayedQueue.OverflowReleasesNothing).
- `IndexedVector::push` of a key that is present breaks the index (IndexedVectors.PushAgrees,
  IndexedVectors.PushOfPresentKey).
- A module destroyed while it is busy stays listed until the next cycle; giving its id to a new module before that
  makes the list wrong (ModulesManager.CreateKeepsListing, ReusedModule.ReusedIdIsListedTwice).
- `switchToIdleState` and `switchToActiveState` turn a transition that has begun. An active engine that gets thrust zero
  and then some thrust before its messages are handled is listed twice, so its `proceed` runs twice in a cycle, possibly
  on two threads, and it stays listed when it stops (TurnedModule.RestartListsTwice, TurnedModule.TwoThreadsAtOnce,
  TurnedModule.StoppedButListed). An idle engine that gets some thrust and then thrust zero is left stopping and not
  listed until some message comes (TurnedModule.StopIsNeverFinished, TurnedModule.StopStaysUnfinished). A scanner whose last session is closed and that is asked to monitor again before
  the next cycle is listed twice as well (TurnedModule.StartAfterClose). The list is right exactly if no waiting
  messages turn a module back (ModulesManager.HandlingKeepsListingIff, ModulesManager.CycleIsExact).

Three remarks: the comment on `checkConnectionsActivity` speaks of 2 seconds, where the code closes after 1.4 s to 1.8 s
and a gap between checks (SessionTiming.NeverClosedEarly, SessionTiming.OpenConnectionsAreFresh); `Clock::start` does not
clear debug ticks that are still pending; `GlobalContainer::Total` returns a `bool`.

## Model

| member | source | states |
|---|---|---|
| SessionRuns.RunKeepsInv | server/Network/SessionMux.cpp:148-231 | After every run of operations: slots carry their own index, live and reusable slots divide the table without repetition, every live session is listed by the open connection it names, each open connection has a live root of its own that no other connection lists, and issued = reported + alive |
| SessionRuns.ApplyKeepsInv | server/Network/SessionMux.cpp:148-388 | Every public operation keeps that invariant, for any token the generator may yield and any caller |
| SessionRuns.StartInv | server/Network/SessionMux.cpp:130-137 | A new multiplexer satisfies the invariant |
| SessionRuns.RunReports | server/Network/SessionMux.cpp:139-146 | Over any run each opened session is reported closed at most once, the ones still alive being the difference; after all connections are marked closed each is reported exactly as often as it was issued, so the check in the destructor holds |
| SessionRuns.MarkAllClosedEffect | server/Network/SessionMux.cpp:289-298 | Marking all connections closed leaves nothing alive and nothing unreported |
| SessionRuns.RootDiesWithConnection | server/Network/SessionMux.cpp:217-231 | A root session stays alive as long as its connection is open and dies only with it |
| SessionRuns.FreshRunIsolation | server/Network/SessionMux.cpp:334-376 | If no (index, token) pair is ever reissued, every session is reported closed at most once, and closing one connection changes no session and no list of any other |
| ReissuedSession.ClosingReaches | server/Network/SessionMux.cpp:334-376 | Exactly when closing a connection changes another one: a session of the other is alive under an id that is still on the list of the first |
| ReissuedSession.ClosingKillsForeignSession | server/Network/SessionMux.cpp:9-31 | A run whose tokens differ from the slot's last one and which reissues an id: closing one client's connection kills a session of another client, whose connection stays open |
| ReissuedSession.RunReissues | server/Network/SessionMux.cpp:175-231 | The steps of that run |
| SessionRuns.RunKeepsUnshared | server/Network/SessionMux.cpp:175-215 | If no pair is reissued, no list ever holds a live id of another connection and no id is issued twice |
| SessionRuns.DeliverEffect | server/Network/SessionMux.cpp:41-68 | A payload reaches a handler exactly when its id names a live session of the connection it came from; only connection 0 can address a slot whose handler is gone |
| SessionRuns.CheckFirstEffect | server/Network/SessionMux.cpp:233-257 | A check treats every connection by its own timestamps and keeps the invariant |
| SessionRuns.CheckOneEffect | server/Network/SessionMux.cpp:239-255 | A heartbeat goes to the root session of the silent connection, and an expired connection is closed with all that belongs to it |
| SessionRuns.ReceiveEffect | server/Network/SessionMux.cpp:41-68 | A message renews only its connection's timestamp, and a close request acts like a close by id |
| SessionTable.CloseConnectionEffect | server/Network/SessionMux.cpp:334-348 | Closing a connection kills exactly the live sessions it lists, leaves none of its own alive, clears its record and no other one, and keeps the invariant; what it sends is in SessionSignals.CloseConnectionSignals |
| SessionTable.CloseSessionEffect | server/Network/SessionMux.cpp:217-231 | Closing by id closes the whole connection for a live root's slot, one session for a live exact id, and nothing otherwise |
| SessionTable.CloseIdsEffect | server/Network/SessionMux.cpp:339-341 | Closing a list of ids, in any order and with repetitions, kills the live sessions among them and no other |
| SessionTable.CloseIdsSignals | server/Network/SessionMux.cpp:350-376 | A client gets one closing notice for each of its sessions that dies, and no notice for anything else |
| SessionSignals.CloseConnectionSignals | server/Network/SessionMux.cpp:334-348 | What closing a connection sends, after all that was sent before: one notice for each session that dies, the closing of the connection last and once, and nothing else; nothing at all if the client has gone |
| SessionSignals.RootIsToldFirst | server/Network/SessionMux.cpp:338-342 | The first notice of a connection that is closed is that of its root |
| SessionSignals.NoticesInOrder | server/Network/SessionMux.cpp:339-341 | The notices go out in the order of the connection's list |
| SessionSignals.CloseSessionMeans | server/Network/SessionMux.cpp:217-231 | Closing by id closes the open connection whose root has that slot number, and otherwise the one session with that id |
| SessionSignals.CloseSessionSignals | server/Network/SessionMux.cpp:217-231 | What closing by id sends, in both cases |
| SessionSignals.CheckSignals | server/Network/SessionMux.cpp:233-257 | What a check sends: one heartbeat to the root of each connection that has been silent for a while, the closing of each that has been silent for too long, and one notice for each session that dies with it |
| SessionSignals.CheckKills | server/Network/SessionMux.cpp:233-257 | The sessions that survive a check are those that are on no expiring connection's list |
| SessionSignals.MarkingTellsNothing | server/Network/SessionMux.cpp:289-298 | Marking all connections as closed sends nothing |
| SessionSignals.ApplySignals | server/Network/SessionMux.cpp:148-318 | Every operation appends exactly the signals that are due; opening, creating and a client's own leaving send nothing |
| SessionSignals.RunSignals | server/Network/SessionMux.cpp:148-318 | Over any run what has been sent is what each operation had to send, and nothing is taken back |
| SessionTable.CloseOneKeepsInv | server/Network/SessionMux.cpp:350-376 | Closing one session that is no root keeps the invariant |
| SessionTable.RootBelongs | server/Network/SessionMux.cpp:378-388 | A session is recognised as a root only while it is alive; a live session that is not recognised is no connection's root |
| SessionTable.AddConnectionEffect | server/Network/SessionMux.cpp:148-173 | Adding a connection keeps the invariant if and only if the table has at most 0xFFFF entries, since its size is cast to 16 bits unchecked |
| SessionInputs.OneConnectionTooMany | server/Network/SessionMux.cpp:148-173 | A client that connects and disconnects 65535 times leaves a table of 0x10000 entries; the next connection breaks the invariant, its root having the id 1 |
| SessionInputs.RoundsFillTable | server/Network/SessionMux.cpp:148-173 | Each connection that is opened and closed leaves one more slot behind, with the invariant kept |
| SessionInputs.PayloadWithoutHandler | server/Network/SessionMux.cpp:49-57 | A run that ends in a payload for a missing handler: a client closes a session that it has created and goes on sending to it on connection 0 |
| SessionInputs.MessageReaches | server/Network/SessionMux.cpp:58-64 | A message from one connection changes another one exactly if it is a close request for the slot of a root of that connection, for a root whose list holds a live session of it, or for the exact id of another session of it |
| SessionInputs.MessageReachesUnshared | server/Network/SessionMux.cpp:217-231 | If no id was reissued: exactly if it asks to close the slot of that connection's root, or by its exact id another session of it |
| SessionInputs.RootClosedByNumber | server/Network/SessionMux.cpp:217-231 | A close request on connection 0 that names the slot of the root of connection 1, with another token, closes connection 1 |
| SessionInputs.ClosingChanges | server/Network/SessionMux.cpp:217-231 | Closing an id changes exactly the connections that it concerns |
| SessionTable.CreateSessionEffect | server/Network/SessionMux.cpp:175-215 | A session is created only for a live parent with the exact id, in a free slot, with a token that differs from the slot's last one, on the parent's connection, and nothing else changes |
| SessionTable.CreationNeedsSlot | server/Network/SessionMux.cpp:175-215 | A session can be created exactly if its parent is alive under that very id and some slot is dead or the table has fewer than 0xFFFF entries |
| SessionTable.ClosedSlotIsNext | server/Network/SessionMux.cpp:320-332 | The slot of the session closed last is taken next, and the new session there has another id |
| SessionTable.AddedSession | server/Network/SessionMux.cpp:148-173 | A new connection gets a new slot, its root as the only id on its list, the current time in both stamps, and sends nothing |
| SessionMultiplexer.SessionMux.constructor | server/Network/SessionMux.cpp:130-137 | The new object satisfies the invariant and stands for the starting table |
| SessionMultiplexer.SessionMux.AddConnection | server/Network/SessionMux.cpp:148-173 | The object after the call is the table after adding the connection, and the invariant holds |
| SessionMultiplexer.SessionMux.CreateSession | server/Network/SessionMux.cpp:175-215 | The id returned and the table left are those of creating a session, with a token the generator may yield; the invariant holds |
| SessionMultiplexer.SessionMux.OccupyIndex | server/Network/SessionMux.cpp:320-332 | Takes the slot that the table takes, or 0 when there is none |
| SessionMultiplexer.SessionMux.CloseSessionLocked | server/Network/SessionMux.cpp:350-376 | The table left is that of closing one session; the result says whether one was closed |
| SessionMultiplexer.SessionMux.CloseConnectionLocked | server/Network/SessionMux.cpp:306-318 | The loops over a connection's ids, with and without a notice to the client, close exactly the listed ids |
| SessionMultiplexer.SessionMux.CloseSession | server/Network/SessionMux.cpp:217-231 | The table left is that of closing by id, root or not; the invariant holds |
| SessionMultiplexer.SessionMux.MarkAllConnectionsAsClosed | server/Network/SessionMux.cpp:289-298 | No session is valid afterwards, and all that was issued is reported |
| SessionMultiplexer.SessionMux.CheckConnectionsActivity | server/Network/SessionMux.cpp:233-257 | The loop over the connections is the check of the table |
| SessionMultiplexer.SessionMux.OnMessageReceived | server/Network/SessionMux.cpp:41-68 | Delivers to the handler that the table names, and keeps the invariant |
| SessionTiming.BeatsAreSpaced | server/Network/SessionMux.h:49-53 | Two heartbeats on one connection are at least 400 ms apart, over any history of the connection |
| SessionTiming.CheckedWhen | server/Network/SessionMux.cpp:233-257 | What a check does after any history, by the times on record: a heartbeat at 400 ms without message and heartbeat, a closing at 1.4 s without message, and else nothing |
| SessionTiming.BeatsAfterSilence | server/Network/SessionMux.cpp:246-251 | No heartbeat is sent within 400 ms after a message or the opening |
| SessionTiming.LastHeard | server/Network/SessionMux.cpp:41-68 | The time on record is that of the last message, or of the opening |
| SessionTiming.NeverClosedEarly | server/Network/SessionMux.cpp:233-257 | A check closes a connection only after at least 1.4 s without a message |
| SessionTiming.OpenConnectionsAreFresh | server/Network/SessionMux.cpp:233-257 | Over any run of the multiplexer, at any time at most `gap` after the last check, the last message of every open connection is less than 1.8 s + `gap` old |
| SessionTiming.TraceInOrder | server/Network/SessionMux.cpp:233-257 | Operations in the order of time give every connection a history in the order of time, with the same last check |
| SessionTiming.OpenSinceCheck | server/Network/SessionMux.cpp:244-254 | A connection that is open was not yet silent for 1.8 s when it was last checked |
| SessionTiming.ClosedInTime | server/Network/SessionMux.cpp:233-257 | One connection that hears nothing more, under a list of checks at most `gap` apart: a check at most 1.8 s + `gap` after its last message finds it closed or closes it |
| SessionTiming.SilenceCloses | server/Network/SessionMux.cpp:244-254 | The first check that comes 1.8 s or more after the last message finds the connection closed or closes it |
| SessionTiming.RunTimely | server/Network/SessionMux.h:42-53 | A connection never gets a heartbeat later than 1.4 s after its last message |
| SessionTiming.RunFollowsLink | server/Network/SessionMux.cpp:148-298 | The timestamps of every connection in any run of the multiplexer are those of the connection history the timing results speak about |
| ConveyorBarrier.NoWriteDuringProceed | server/Conveyor/Conveyor.cpp:46-97 | In every reachable state, for any number of slaves and any interleaving, while the master can write the shared state, prepare a stage or begin to stop, no thread is or can come to be inside `proceed` |
| ConveyorBarrier.SlavesFollowMaster | server/Conveyor/Conveyor.cpp:46-86 | Every slave has executed a prefix of the master's rounds, at most one behind, and is about to execute the next one with the master's logic, stage and times |
| ConveyorBarrier.MasterFollowsItself | server/Conveyor/Conveyor.cpp:60-71 | The master executes its own rounds as the slaves do, and has executed all that it announced when it is outside of the barrier |
| ConveyorBarrier.StopIsFinal | server/Conveyor/Conveyor.cpp:88-97 | Once `stop` has returned, every slave has run the terminator last, has its flag cleared, can neither proceed nor wait again, and is gone or on its way out |
| ConveyorBarrier.NoDeadlock | server/Conveyor/Conveyor.cpp:46-97 | While the master waits at the barrier some thread can always move |
| ConveyorBarrier.RoundsEnd | server/Conveyor/Conveyor.cpp:46-97 | A thread takes at most five steps for each completed round and a few more, so the threads cannot go on without completing rounds |
| ConveyorRun.SlavesRunTheChain | server/Conveyor/Conveyor.cpp:46-86 | If the master announces the rounds of a list, every slave has executed a prefix of that list, at most one round behind, and all that was announced whenever the master is outside of the barrier |
| ConveyorRun.MasterRunsTheChain | server/Conveyor/Conveyor.cpp:60-71 | The master has executed a prefix of the rounds it chose, and all of those announced when it is outside of the barrier |
| ConveyorRun.OneCall | server/Conveyor/Conveyor.cpp:46-86 | One call makes every slave execute exactly the rounds that the chain asks for at that time |
| ConveyorRun.RunPublishes | server/Conveyor/Conveyor.cpp:56-70 | What the master publishes are the rounds it announces |
| ConveyorBarrier.RunKeepsInv | server/Conveyor/Conveyor.cpp:46-97 | The protocol's invariant holds in every reachable state |
| ConveyorBarrier.LastArrival | server/Conveyor/Conveyor.cpp:68-70 | The thread that completes a barrier finds every other thread waiting at the same wait |
| ConveyorBarrier.SlaveBehind | server/Conveyor/Conveyor.cpp:77-86 | What a slave has executed, compared with what the master published |
| ConveyorChain.Conveyor.Proceed | server/Conveyor/Conveyor.cpp:45-75 | One call of `proceed` advances the time, produces the rounds of the chain and moves deadlines and time stamps of the selected logics; the rounds are exactly those that the chain asks for, once each and in order |
| ConveyorChain.Conveyor.AddLogicToChain | server/Conveyor/Conveyor.cpp:37-44 | A new logic is not quiet and counts time from now |
| ConveyorChain.StageRoundsExact | server/Conveyor/Conveyor.cpp:62-71 | A selected logic runs exactly its ready stages, each once, in increasing order, all with the time since it last ran |
| ConveyorChain.RoundsAreAsked | server/Conveyor/Conveyor.cpp:45-75 | The rounds of a call are exactly those the chain asks for: every round is a ready stage of a logic that is not quiet, with the time since that logic ran as interval; every such stage of every such entry occurs, once; and they come in the order of the chain and of the stages |
| ConveyorChain.Conveyor.ProceedStages | server/Conveyor/Conveyor.cpp:59-71 | The loop over the stages of one logic produces that logic's rounds |
| ConveyorChain.TimeIsConserved | server/Conveyor/Conveyor.cpp:56-73 | Over any run the intervals handed to a logic add up to the time at which it last ran |
| ConveyorChain.RateIsBounded | server/Conveyor/Conveyor.cpp:53-73 | After n selections a logic is quiet until n cooldowns after its start, so it never runs more often than its cooldown allows on average |
| ConveyorChain.CooldownHolds | server/Conveyor/IAbstractLogic.h:34-39 | The documented pause after a run is kept if and only if the run happens exactly when the quiet time ends; the code adds the cooldown to the old deadline |
| ConveyorChain.LateLogicRunsTwice | server/Conveyor/Conveyor.cpp:53-72 | A logic added late runs twice within a microsecond, despite its cooldown of 10 ms |
| GridGeometry.CellsPartitionGrid | server/World/Grid.h:58-62 | A point lies in cell k if and only if the lookup gives k: the cells partition the grid and `contains` agrees with `indexOf` |
| GridGeometry.CellLies | server/World/Grid.cpp:21-41 | Where each cell lies: the grid is centred on the origin and the cells follow each other without a gap, row by row |
| GridGeometry.GetCell | server/World/Grid.h:180-188 | The lookup of a point is an index into the cells, or nothing |
| GridGeometry.ColumnIs | server/World/Grid.h:96-103 | The truncated quotient is column i exactly for the coordinates between the borders of column i |
| GridGeometry.ColumnInRange | server/World/Grid.h:96-103 | The column of a coordinate is one of the grid's exactly for the coordinates inside the grid |
| GridGeometry.ColumnsReached | server/World/Grid.h:258-269 | The columns between those of the clamped ends are exactly the ones that the closed interval reaches |
| GridRange.WalkIsRowMajor | server/World/Grid.cpp:68-86 | Advancing an iterator ends, and visits the cells of its area in row-major order, each once |
| GridRange.RangeVisits | server/World/Grid.h:243-279 | For a rectangle that passes the first test the visited cells are exactly the touched ones; otherwise none |
| GridRange.RangeIsExact | server/World/Grid.h:243-279 | `range` visits exactly the cells that contain a point of the closed rectangle if and only if the rectangle does not merely graze the grid's left or bottom border |
| GridRange.GrazingExample | server/World/Grid.h:252-256 | A rectangle whose right edge is the grid's left border touches a cell but yields the empty range |
| GridRange.CellIterator.Next | server/World/Grid.cpp:68-86 | The operator moves the iterator to the next cursor |
| GridRange.MakeRange | server/World/Grid.h:243-279 | The iterator that `range` returns is the one described by the cursor |
| GridRange.VisitCells | server/World/Grid.cpp:48-51 | The loop from an iterator to `end()` terminates and visits the walk of its cursor |
| GridRange.VisitRange | server/Modules/PassiveScanner/PassiveScanner.cpp:238-244 | The loop over a range visits, in increasing order and once each, exactly the touched cells |
| ObjectGrid.Grid.Build | server/World/Grid.cpp:21-41 | Building creates one empty cell for each index, at its place |
| ObjectGrid.Grid.CellHolds | server/World/Grid.h:58-62 | A built cell contains a point exactly when the geometry says so |
| ObjectGrid.Grid.CellAt | server/World/Grid.h:180-188 | The cell returned is the one and only cell that contains the point |
| ObjectGrid.Grid.Add | server/World/Grid.h:190-197 | The id enters the cell of its position, unless it is there already, and no other |
| ObjectGrid.Grid.Track | server/World/Grid.h:222-240 | The id moves from its old cell to the cell of its position; the other cells do not change |
| ObjectGrid.TrackedLists | server/World/Grid.h:222-240 | After an object has been followed it is listed once by the cell that contains it and by no other; nobody else's entries change |
| ObjectGrid.AdmittedLists | server/World/Grid.h:190-197 | An added object is listed by the cell that contains it, once, behind the entries of before |
| UnorderedVectors.RemoveAtTakesOne | server/Utils/UnorderedVector.h:67-74 | Filling the gap with the last element removes that occurrence and nothing else |
| UnorderedVectors.RemoveAtMovesLast | server/Utils/UnorderedVector.h:67-74 | The last element is moved into the gap and the others stay in place |
| UnorderedVectors.RemoveFirstTakesOne | server/Utils/UnorderedVector.h:111-124 | Removing the first occurrence takes one copy of the value, if there is one |
| UnorderedVectors.UnorderedVector.Push | server/Utils/UnorderedVector.h:56-65 | The item is appended unless it is there and the caller asked to check |
| UnorderedVectors.UnorderedVector.IndexOf | server/Utils/UnorderedVector.h:76-85 | The loop finds the first occurrence |
| UnorderedVectors.UnorderedVector.RemoveFirstOf | server/Utils/UnorderedVector.h:111-124 | The loop removes the first occurrence and says whether there was one |
| UnorderedVectors.UnorderedVector.RemoveAll | server/Utils/UnorderedVector.h:93-109 | Every copy of the value goes and is counted; everything else stays |
| NewtonTick.IntegrateIsKinematics | server/Newton/NewtonEngine.cpp:28-38 | The update is the motion under the constant acceleration F / m for the length of the tick |
| NewtonTick.ForcesAddUp | server/Newton/NewtonEngine.cpp:28-37 | Every force counts: under two groups of forces the gain of speed, and the way beyond free flight, is the sum of those under each group |
| NewtonTick.OneForce | server/Newton/NewtonEngine.cpp:28-37 | Under one force the speed changes by force times time over weight, and the way is made at the mean of the speeds before and after |
| NewtonTick.NoForce | server/Newton/NewtonEngine.cpp:28-37 | Without forces the speed stays and the way is speed times time |
| NewtonTick.TickMovesEachOnce | server/Newton/NewtonEngine.cpp:18-55 | Whatever the number of threads and the interleaving of the claims and steps, after a tick every registered object has been integrated exactly once |
| NewtonTick.TickEnds | server/Newton/NewtonEngine.cpp:18-55 | A tick takes at most four steps for each object and one for each thread, and until all threads have finished there is a step to take: it ends |
| NewtonTick.ObjectStepDecreases | server/Newton/NewtonEngine.cpp:26-52 | Every step on an object brings the tick closer to its end |
| NewtonTick.TickLists | server/Newton/NewtonEngine.cpp:40-50 | After a tick an object's id is once in the cell that contains its position and in no other; its cell pointer is null exactly when it is outside the grid |
| NewtonTick.StepAgrees | server/World/Grid.h:222-240 | Every single step of every thread, also between entering the new cell and leaving the old one, keeps the lists in agreement with the cell pointers |
| NewtonTick.RunKeepsInv | server/Newton/NewtonEngine.cpp:18-55 | The invariant of a tick holds after any interleaving of steps |
| NewtonTick.HistorySettles | server/Newton/NewtonEngine.cpp:12-55 | Over any history of ticks, moves and creations the lists agree with the cell pointers between ticks |
| NewtonTick.EveryTickLists | server/Newton/NewtonEngine.cpp:12-55 | After every tick of any history, each object is listed exactly where its position is |
| FlightPlans.MergeAddsUp | python-sdk/expansion/procedures/navigation.py:117-135 | For any list of well-formed plans the merged plan's acceleration at every time is the sum of the plans' accelerations |
| FlightPlans.TotalsAddUp | python-sdk/expansion/procedures/navigation.py:130-132 | The total acceleration of two groups of plans is the sum of their totals |
| FlightPlans.TotalOfOne | python-sdk/expansion/procedures/navigation.py:130-132 | The total of one plan is its acceleration, and that of none is zero |
| FlightPlans.MergeIsContiguous | python-sdk/expansion/procedures/navigation.py:117-135 | The merged plan is contiguous and all its durations are positive |
| FlightPlans.SquashStaysNear | python-sdk/expansion/procedures/navigation.py:51-65 | Squashing changes the acceleration at no time by 0.00001 or more |
| FlightPlans.SquashIsContiguous | python-sdk/expansion/procedures/navigation.py:51-65 | Squashing keeps a plan contiguous and keeps its beginning and its end |
| FlightPlans.SquashJoinsAll | python-sdk/expansion/procedures/navigation.py:51-65 | No two neighbours of the squashed plan could still be joined, and it has no acceleration that was not there before |
| FlightPlans.SameIsJoinable | python-sdk/expansion/procedures/navigation.py:51-65 | Neighbours with the same acceleration could be joined |
| FlightPlans.NearIsClose | python-sdk/expansion/procedures/navigation.py:51-65 | Accelerations that are joined differ by less than 0.00001 on each axis |
| FlightPlans.SquashedMergeAddsUp | python-sdk/expansion/procedures/navigation.py:117-135 | The squashed merged plan is contiguous and at every time within 0.00001 of the sum of the plans |
| FlightPlans.CoveringManeuver | python-sdk/expansion/procedures/navigation.py:81-87 | The acceleration at a time inside a maneuver is that maneuver's |
| FlightPlans.NothingOutside | python-sdk/expansion/procedures/navigation.py:81-87 | Before the first and after the last maneuver the acceleration is zero |
| FlightPlans.PointsCoverPlan | python-sdk/expansion/procedures/navigation.py:71-79 | The time points hold the beginning and the end of every maneuver |
| FlightPlans.PointsAreBorders | python-sdk/expansion/procedures/navigation.py:71-79 | Every time point is the beginning or the end of a maneuver |
| FlightPlans.ComputeTimePoints | python-sdk/expansion/procedures/navigation.py:71-79 | The loop collects the time points |
| FlightPlans.SquashManeuvers | python-sdk/expansion/procedures/navigation.py:51-65 | The loop computes the squashed plan |
| FlightPlans.MergePlans | python-sdk/expansion/procedures/navigation.py:117-135 | The loops compute the merged plan, squashed on request |
| FlightPlans.AddAccelerations | python-sdk/expansion/procedures/navigation.py:130-132 | The inner loop adds the accelerations of all plans |
| PlanStepping.AccelerateSplits | python-sdk/expansion/procedures/navigation.py:12-21 | Accelerating for a time in two parts, in exact arithmetic, is accelerating for the whole of it |
| PlanStepping.AccelerateIsMotion | python-sdk/expansion/procedures/navigation.py:12-24 | Where an acceleration leads: the speed changes by acceleration times time, and the way is made at the mean of the speeds before and after |
| PlanStepping.PredictIsFreeFlight | python-sdk/expansion/types/position.py:75-88 | Free flight keeps the speed and makes speed times time |
| PlanStepping.ApplyMovesByPushes | python-sdk/expansion/procedures/navigation.py:137-144 | Where a plan leads: seen from any time after it, the place is that of the first speed alone, moved by each maneuver's gain of speed times the time since its middle; and the plan ends when its last maneuver does |
| PlanStepping.PlanEndsAt | python-sdk/expansion/procedures/navigation.py:137-144 | So this is the place at the end of the plan |
| PlanStepping.ManeuverPushes | python-sdk/expansion/procedures/navigation.py:35-42 | The same for a single maneuver |
| PlanStepping.NextMicrosecond | python-sdk/expansion/procedures/navigation.py:146-164 | Every microsecond of a plan is flown with the plan's acceleration at that time |
| PlanStepping.OneMicrosecond | python-sdk/expansion/procedures/navigation.py:146-164 | One microsecond from any state on the plan |
| PlanStepping.PartiallySplits | python-sdk/expansion/procedures/navigation.py:146-157 | Following a contiguous plan for a then for b is following it for a + b |
| PlanStepping.PartialTime | python-sdk/expansion/procedures/navigation.py:146-157 | The state reached carries the time asked for, or the end of the plan |
| PlanStepping.WholePlan | python-sdk/expansion/procedures/navigation.py:137-157 | From the start of the plan, stepping to its end or beyond gives the state that applying the whole plan gives |
| PlanStepping.PathEndsAtTarget | python-sdk/expansion/procedures/navigation.py:159-164 | A number of steps that reaches the end of the plan ends in the state of the applied plan |
| PlanStepping.StandStill | python-sdk/expansion/procedures/navigation.py:146-157 | Following a plan for no time changes nothing |
| PlanStepping.BuildPath | python-sdk/expansion/procedures/navigation.py:159-164 | For any positive step the loop ends; its points are the states after successive steps, only the last one at the end of the plan, and from the start of the plan the last one is the applied plan; the path along an empty plan is empty |
| PlanStepping.ApplyTo | python-sdk/expansion/procedures/navigation.py:137-144 | The loop applies the maneuvers one after the other |
| PlanStepping.PartiallyApplyTo | python-sdk/expansion/procedures/navigation.py:146-157 | The loop with its early exit follows the plan for the given duration |
| PlanStepping.WellFormedCanApply | python-sdk/expansion/procedures/navigation.py:35-42 | Applying a well-formed plan from a time before it never fails an assertion and ends at the plan's end |
| PlanStepping.ImpulseIsSum | python-sdk/expansion/procedures/navigation.py:81-87 | The accelerations times durations of a plan add up to the sum of its acceleration over every microsecond |
| PlanStepping.MergeConservesImpulse | python-sdk/expansion/procedures/navigation.py:117-135 | Merging conserves the total change of velocity of all plans |
| PlanStepping.ApplyAddsImpulse | python-sdk/expansion/procedures/navigation.py:137-144 | Applying a plan changes the velocity by its impulse |
| FastPlans.FastPlanOutcome | python-sdk/expansion/procedures/navigation.py:221-272 | For every body that moves straight towards a target at a positive distance: the empty plan comes exactly when the body counts as in place; otherwise `fast_plan` rejects exactly when the change of the squared speed exceeds 2 amax s and divides by zero exactly at the upper limit; a plan with burns of non-negative time and at most amax that ends at the target with its velocity comes exactly in the remaining cases |
| FastPlans.OutcomeInPlace | python-sdk/expansion/procedures/navigation.py:236-238 | In place the plan is empty whatever the speed, and does not lead to the target |
| FastPlans.NumberOfBurns | python-sdk/expansion/procedures/navigation.py:249-272 | A plan has two burns unless one of them would change the speed by less than half a percent of what the other does; then it has one |
| FastPlans.AgainstTheWay | python-sdk/expansion/procedures/navigation.py:222-230 | A body or target that moves against the way between them along an axis, and not just hardly, is refused |
| FastPlans.AwayFromTarget | python-sdk/expansion/procedures/navigation.py:222-230 | So is one that moves straight away |
| FastPlans.OutcomeOnTheWay | python-sdk/expansion/procedures/navigation.py:240-272 | The outcome for a body that does not count as in place |
| FastPlans.TooFastInPlace | python-sdk/expansion/procedures/navigation.py:236-238 | A body 0.01 from a target at rest, at speed 1000 with amax 1, gets the empty plan although the change of speed is not feasible |
| FastPlans.FailsAtTheLimit | python-sdk/expansion/procedures/navigation.py:250-258 | From rest to speed 2 over distance 1 with amax 2, `fast_plan` divides by zero |
| FastestPlans.TwoBurnsAreFastest | python-sdk/expansion/procedures/navigation.py:222-223 | When the plan has two burns, no burns within amax, of any number and in any directions, reach the target with its velocity in less time |
| FastestPlans.WayIsLimited | python-sdk/expansion/procedures/navigation.py:12-21 | How far any burns along a line within amax can lead in their time, from one speed to another |
| FastestPlans.TwoThrustsReachFarthest | python-sdk/expansion/procedures/navigation.py:265-272 | Full thrust forwards and then backwards reaches that limit |
| FastestPlans.BurnsAreThrusts | python-sdk/expansion/procedures/navigation.py:12-21 | Burns in the plane, seen along a line, are burns along that line |
| FastPlans.TwoBurnsOutcome | python-sdk/expansion/procedures/navigation.py:240-272 | The same for the part after the acceleration distance was computed |
| FastPlans.TwoBurnsArrive | python-sdk/expansion/procedures/navigation.py:248-272 | The two burns of the speed profile end at the target position with the target velocity |
| FastPlans.OneBurnArrives | python-sdk/expansion/procedures/navigation.py:197-218 | The single-maneuver plan ends at the target and stays within amax |
| FastPlans.BurnsFly | python-sdk/expansion/procedures/navigation.py:258-263 | Both the two burns and the fallback to a single one reach the target |
| FastPlans.ProfileTimes | python-sdk/expansion/procedures/navigation.py:250-256 | Both burn times are non-negative, and the second is zero exactly at the limit |
| WorkSharing.EachItemOnce | server/Modules/CommonModulesManager.h:128-133 | When all workers have finished, every item below the limit was worked on exactly once, whatever the interleaving of the claims |
| WorkSharing.AdvanceKeepsInv | server/Modules/CommonModulesManager.h:128-133 | Every step keeps the claims exclusive and complete |
| ModulesManager.CycleIsExact | server/Modules/CommonModulesManager.h:68-164 | One cycle, by any number of threads under any interleaving, from a list that is right: if and only if no waiting messages turn a module back, the list is right after the first stage; `proceed` is called once on every module that is active or stopping then and on no other; and afterwards the valid busy ids are distinct and exactly the active modules, their number is the size, and no module is in transition |
| ModulesManager.CycleOutcome | server/Modules/CommonModulesManager.h:68-164 | From any list: what a cycle makes of a module, how often it lists it and how often it calls `proceed` on it depend on its state, how often it was listed, its messages and what its `proceed` decides, not on the number of threads, the order of their steps or the order of the list |
| ModulesManager.HandlingOutcome | server/Modules/CommonModulesManager.h:122-143 | What the first stage makes of every module, and that it lists a module once more exactly if its messages leave it activating |
| ModulesManager.ProceedingOutcome | server/Modules/CommonModulesManager.h:145-164 | After the second stage a listed module that was stopping, or that its `proceed` stopped, is idle and has lost one entry; `proceed` was called as often as the module was listed; absent ones are dropped and unlisted ones untouched |
| ModulesManager.CyclesStayExact | server/Modules/CommonModulesManager.h:68-164 | Every cycle of a history of harmless events ends exact: modules are created and destroyed and sessions closed between cycles |
| ModulesManager.HistoryStaysListed | server/Modules/CommonModulesManager.h:68-164 | Over any history the list is right at every point if and only if every event is harmless: no messages turn a module back, no listed id is given away, no session closes while its module is activating |
| ModulesManager.HandlingKeepsListingIff | server/Modules/CommonModulesManager.h:122-143 | The list is right after the first stage if and only if no waiting messages turn a module back; no module is activating then |
| ModulesManager.ModuleListedIff | server/Modules/BaseModule.h:115-122 | One module's part of that: turned back from active or stopping it is active and listed twice, from idle or activating it is stopping and not listed |
| ModulesManager.TurnedOutcome | server/Modules/CommonModulesManager.h:122-164 | What a cycle makes of a module that its messages turn back: either listed and proceeded twice, with one entry left when it stops, or left stopping without an entry |
| ModulesManager.ListedWhileHandling | server/Modules/CommonModulesManager.h:122-143 | If no messages turn a module back, the list is right after every single step of the first stage |
| ModulesManager.ListedWhileProceeding | server/Modules/CommonModulesManager.h:145-164 | If the list was right when the second stage began, it is right after every single step of it, and `proceed` was called on each module at most once so far |
| ModulesManager.GuardedNeverTurns | server/Modules/AsteroidMiner/AsteroidMiner.cpp:120-158 | Modules that start only when idle and stop only when active, as the miner does, are never turned back |
| ModulesManager.CallsAreTimes | server/Modules/CommonModulesManager.h:151-158 | `proceed` is called on a module at most as often as it is listed, and exactly as often when all entries were claimed |
| ModulesManager.MessagesHandledOnce | server/Modules/CommonModulesManager.h:122-143 | The messages of every registered module are handled exactly once in a cycle |
| ModulesManager.HandleStepKeepsInv | server/Modules/CommonModulesManager.h:122-143 | Every step of the first stage leaves every module, and how often it is listed, as its state at the beginning and its own messages want |
| ModulesManager.ProceedStepKeepsInv | server/Modules/CommonModulesManager.h:145-164 | Every step of the second stage keeps the account of each module's state, of its entries and of the calls of its `proceed`, for lists with double entries too |
| ModulesManager.ClaimedIdsAreValid | server/Utils/IdArray.h:77-91 | A claimed index always holds a valid id, so the assertion on it never fails |
| ModulesManager.CreateKeepsListing | server/Utils/GlobalContainer.h:115-119 | A new module that takes the id of a destroyed one keeps the list right if and only if that id is no longer listed |
| ModulesManager.CloseKeepsListing | server/Modules/PassiveScanner/PassiveScanner.cpp:150-165 | Stopping a module because a session was closed keeps the list right if and only if the module is not activating |
| ReusedModule.ReusedIdIsListedTwice | server/Modules/CommonModulesManager.h:122-164 | A history from an empty container: a module is created, started in a cycle, destroyed, and its id given to a new module, which is idle yet listed and is listed twice when it starts |
| ReusedModule.FirstStageRuns | server/Modules/CommonModulesManager.h:122-143 | The first stage of that history, step by step |
| ReusedModule.SecondStageRuns | server/Modules/CommonModulesManager.h:145-164 | Its second stage, step by step |
| TurnedModule.RestartListsTwice | server/Modules/Engine/Engine.cpp:71-89 | A history from an empty container: an engine is started, then stopped and started again before the next cycle, which lists it twice and proceeds it twice |
| TurnedModule.RestartIsHandled | server/Modules/CommonModulesManager.h:122-143 | The first stage of that cycle, step by step |
| TurnedModule.BothEntriesAreProceeded | server/Modules/CommonModulesManager.h:145-164 | Its second stage, step by step |
| TurnedModule.TwoThreadsAtOnce | server/Modules/CommonModulesManager.h:145-164 | Two threads can be at work on that engine at the same time |
| TurnedModule.StoppedButListed | server/Modules/CommonModulesManager.h:145-164 | When that engine's time is over, whatever cycle comes next leaves it idle and listed |
| TurnedModule.StopIsNeverFinished | server/Modules/Engine/Engine.cpp:71-89 | A history from an empty container: a new engine is started and stopped before the next cycle, which leaves it stopping and not listed |
| TurnedModule.StopStaysUnfinished | server/Modules/CommonModulesManager.h:68-164 | It stays so through every cycle in which no message comes |
| TurnedModule.StartAfterClose | server/Modules/PassiveScanner/PassiveScanner.cpp:150-199 | A session that closes stops its active module; if one start comes before the next cycle, that cycle lists and proceeds the module twice |
| ModulesManager.ValidCountIsCardinality | server/Utils/IdArray.h:44-50 | The counter is the number of different valid ids when none is there twice |
| ModulesManager.ServeAllOutcome | server/Modules/BaseModule.h:115-122 | The state in which any messages leave a module: once a transition has begun, the last unguarded request decides its direction |
| ModulesManager.ServeAll | server/Modules/BaseModule.h:115-122 | No messages make a module idle that was not idle, or active that was not active |
| CommonModulesManager.Manager.HandleAllMessages | server/Modules/CommonModulesManager.h:122-143 | The loop of one thread is a finished run of the first stage |
| CommonModulesManager.Manager.ProceedBusyModules | server/Modules/CommonModulesManager.h:145-164 | The loop of one thread is a finished run of the second stage |
| CommonModulesManager.Manager.PrepareProceeding | server/Modules/CommonModulesManager.h:74-76 | Clearing and rewinding the list starts the second stage, which is skipped when no id is left |
| IdArrays.IdArray.Push | server/Utils/IdArray.h:36-42 | A valid id is appended and counted; the invalid one is ignored |
| IdArrays.IdArray.ClearInvalidIds | server/Utils/IdArray.h:52-63 | All marks go, and every id stays as often as it was there |
| IdArrays.IdArray.Begin | server/Utils/IdArray.h:67-70 | The cleared array is to be read from its last index down |
| IdArrays.IdArray.GetNextId | server/Utils/IdArray.h:77-91 | The largest unclaimed index that holds an id is claimed; nothing is found exactly when there is none |
| IdArrays.IdArray.DropIndex | server/Utils/IdArray.h:95-99 | One entry is marked and the counter goes down by one |
| IdArrays.IdArray.Size | server/Utils/IdArray.h:44-46 | The counter is the number of entries that are not marked |
| IdPool.GetNextIsSmallestFree | server/Utils/SimpleIdPool.h:24-34 | The id handed out is the smallest of the range that is not in use, and exactly that id becomes used; the invalid id comes exactly when all are in use |
| IdPool.ReleaseFrees | server/Utils/SimpleIdPool.h:36-44 | Releasing an id takes that id and no other one out of use |
| IdPool.InsertKeepsOrder | server/Utils/SimpleIdPool.h:50-64 | The released ids stay sorted without repetition |
| IdPool.SimpleIdPool.TakeNext | server/Utils/SimpleIdPool.h:24-34 | Result and new state are those of taking the smallest free id |
| IdPool.SimpleIdPool.PutBack | server/Utils/SimpleIdPool.h:36-44 | The new state is that of releasing the id, the sorted list included |
| IdPool.SimpleIdPool.DrawLastElement | server/Utils/SimpleIdPool.h:53-64 | The swaps move the last id to its place, and never meet an equal one |
| GlobalContainers.RunShowsLiveObjects | server/Utils/GlobalContainer.h:115-159 | Over any run of creations and destructions each slot holds the live object with that id or null, the counter is the number of non-null slots, and an attached container is slot for slot equal |
| GlobalContainers.AllocateKeepsInv | server/Utils/GlobalContainer.h:115-119 | A new object gets the smallest free id, which is at most the number of slots |
| GlobalContainers.RegisterKeepsInv | server/Utils/GlobalContainer.h:142-159 | Registering puts the object in its slot and counts it |
| GlobalContainers.DestroyKeepsInv | server/Utils/GlobalContainer.h:124-137 | Destroying empties the slot, frees the id and counts down |
| GlobalContainers.CounterIsOccupied | server/Utils/GlobalContainer.h:67-68 | The counter is the number of slots that are not null |
| GlobalContainers.ConcreteObjectsContainer.OnRegistered | server/Utils/GlobalContainer.h:230-237 | The mirror changes the same slot |
| GlobalContainers.ConcreteObjectsContainer.OnRemoved | server/Utils/GlobalContainer.h:239-242 | The mirror empties the same slot |
| GlobalContainers.GlobalContainer.RegisterSelf | server/Utils/GlobalContainer.h:142-159 | The slot, the counter and the mirror change together |
| GlobalContainers.GlobalContainer.NewObject | server/Utils/GlobalContainer.h:115-119 | Creating an object is one allocation step, and the invariant holds |
| GlobalContainers.GlobalContainer.DestroyObject | server/Utils/GlobalContainer.h:124-137 | Destroying an object is one step, its assertions hold, and so does the invariant |
| ChunksPools.RunKeepsInv | server/Utils/ChunksPool.h:47-80 | Over any run of requests and releases the free lists and the outstanding chunks partition the arena, every block is large enough, and no two outstanding blocks overlap |
| ChunksPools.GetKeepsInv | server/Utils/ChunksPool.h:47-63 | A request gets a block of at least the requested size that overlaps no outstanding one |
| ChunksPools.FirstClassServes | server/Utils/ChunksPool.h:47-63 | The pool serves whenever some class can, from the first such class, which has the smallest sufficient chunks if the classes are ordered by size; the heap is asked only when none can |
| ChunksPools.GivenBack | server/Utils/ChunksPool.h:47-85 | A chunk that is given back at once leaves the pool as it was |
| ChunksPools.ReleaseKeepsInv | server/Utils/ChunksPool.h:65-80 | A chunk returns to the list of its own class and to no other; a heap block to none |
| ChunksPools.AllReturned | server/Utils/ChunksPool.h:11-80 | When everything has been given back, every chunk is in the list of its class again, once |
| ChunksPools.FreshInv | server/Utils/ChunksPool.h:11-40 | The new pool's lists are exactly the chunks of the arena |
| ChunksPools.PoolBlocksApart | server/Utils/ChunksPool.h:33-39 | Different chunks, of any classes, do not overlap |
| ChunksPools.ChunksPool.constructor | server/Utils/ChunksPool.h:11-40 | The three loops cut the arena into those chunks |
| ChunksPools.ChunksPool.Take | server/Utils/ChunksPool.h:47-63 | The first class that is large enough and not exhausted serves the request, else the heap |
| ChunksPools.ChunksPool.PutBack | server/Utils/ChunksPool.h:65-80 | The comparisons with the arena's parts find the class of the chunk |
| IndexedVectors.RunRefinesMap | server/Utils/IndexedVector.hpp:25-116 | Over any run in which pushed keys are new, the index agrees with the items and together they are the map that the run describes |
| IndexedVectors.GetIsSearch | server/Utils/IndexedVector.hpp:51-62 | A lookup finds exactly what a linear search finds, and never meets the inconsistent state it tests for |
| IndexedVectors.PushAgrees | server/Utils/IndexedVector.hpp:25-28 | Pushing keeps the index right if and only if the key is new |
| IndexedVectors.PushOfPresentKey | server/Utils/IndexedVector.hpp:25-28 | Two items with one key: the index disagrees, and a lookup of the key meets the inconsistent state |
| IndexedVectors.PopAgrees | server/Utils/IndexedVector.hpp:68-82 | Popping takes the item of that key, if there is one, and nothing else |
| IndexedVectors.RemoveKeyAgrees | server/Utils/IndexedVector.hpp:98-106 | Removing by key leaves what popping leaves, although the steps are in another order |
| IndexedVectors.RemoveAllMatching | server/Utils/IndexedVector.hpp:85-96 | The backward loop tests every item once, from the last to the first, removes and counts exactly the matching ones, and leaves no other key indexed |
| IndexedVectors.TakeAgrees | server/Utils/IndexedVector.hpp:109-116 | Filling the gap with the last item and correcting its position removes one item |
| IndexedVectors.IndexSize | server/Utils/IndexedVector.hpp:55 | The index has as many keys as there are items |
| IndexedVectors.IndexedVector.Append | server/Utils/IndexedVector.hpp:25-28 | The object stays valid if and only if the key was new |
| IndexedVectors.IndexedVector.Lookup | server/Utils/IndexedVector.hpp:51-62 | The object finds what a linear search finds |
| IndexedVectors.IndexedVector.PopItem | server/Utils/IndexedVector.hpp:68-82 | Result and new state are those of popping, and the index still agrees |
| IndexedVectors.IndexedVector.Remove | server/Utils/IndexedVector.hpp:98-106 | Result and new state are those of removing by key, and the index still agrees |
| IndexedVectors.IndexedVector.RemoveMatching | server/Utils/IndexedVector.hpp:85-96 | The loop leaves, counts and tests what the backward removal prescribes, and the index still agrees |
| IndexedVectors.IndexedVector.RemoveAt | server/Utils/IndexedVector.hpp:109-116 | The swap and the corrected index remove one item |
| Subscriptions.DrainServesDue | server/Utils/SubscriptionsBox.cpp:47-78 | Asking for updates at one time until there is none returns the due sessions, each once, in the order of their due times, and leaves each at its first multiple of the period after that time and the others alone |
| Subscriptions.NextUpdateRefines | server/Utils/SubscriptionsBox.cpp:47-78 | An update serves a session that is due soonest, and none exactly when none is due; only that session's next time moves |
| Subscriptions.ServedComesBeforeEqual | server/Utils/SubscriptionsBox.cpp:60-75 | A served subscription comes before those that are due no sooner than its next time and behind all the rest |
| Subscriptions.AddRefines | server/Utils/SubscriptionsBox.cpp:5-24 | Adding replaces the session's subscription or makes one; the vector stays sorted, with one entry per session |
| Subscriptions.NewComesBehindEqual | server/Utils/SubscriptionsBox.cpp:5-24 | A new subscription comes behind those that are due no later and before all the rest |
| Subscriptions.RemoveRefines | server/Utils/SubscriptionsBox.cpp:26-45 | Removing takes the session's subscription, if there is one, and keeps the order |
| Subscriptions.PlaceRepresents | server/Utils/SubscriptionsBox.cpp:80-112 | Moving one item to its place, left or right, sorts the vector again |
| Subscriptions.FirstAfterIsMultiple | server/Utils/SubscriptionsBox.cpp:61-63 | The new time is the first one past now that is a whole number of periods, at least one, after the old |
| Subscriptions.ServedGoesBehind | server/Utils/SubscriptionsBox.cpp:65-77 | A served subscription goes behind all that are still due |
| Subscriptions.PeriodIsExact | server/Utils/SubscriptionsBox.cpp:9 | The period in microseconds is the one asked for if and only if it is at most 4294967 ms; it is zero exactly for multiples of 2^29 ms |
| Subscriptions.PeriodsThatWrap | server/Utils/SubscriptionsBox.cpp:9 | 4294968 ms are taken for 704 us, and 2^29 ms for none |
| Subscriptions.LoopEndsIff | server/Utils/SubscriptionsBox.cpp:61-63 | The loop that adds the period ends if and only if the period is positive or the time was past now before it began |
| Subscriptions.TurnsOfLoop | server/Utils/SubscriptionsBox.cpp:61-63 | With a period it ends with the time that the update leaves |
| Subscriptions.UpdateEndsIff | server/Utils/SubscriptionsBox.cpp:47-63 | Once a subscription is due, the loop of the update that serves it ends if and only if the period passed to `add` is no multiple of 2^29 ms, zero included |
| Subscriptions.AddKeepsPeriodic | server/Utils/SubscriptionsBox.cpp:5-24 | Adding keeps all periods positive if and only if the period asked for is no such multiple |
| SubscriptionsBoxes.SubscriptionsBox.AddSubscription | server/Utils/SubscriptionsBox.cpp:5-24 | The vector left is that of adding; it represents the table with the session's subscription replaced |
| SubscriptionsBoxes.SubscriptionsBox.RemoveSubscription | server/Utils/SubscriptionsBox.cpp:26-45 | The vector left is that of removing; it represents the table without the session |
| SubscriptionsBoxes.SubscriptionsBox.TakeUpdate | server/Utils/SubscriptionsBox.cpp:47-78 | Result and vector left are those of an update, the loop over the periods included |
| SubscriptionsBoxes.SubscriptionsBox.SetFront | server/Utils/SubscriptionsBox.cpp:65-77 | The shifting loop puts the updated item in its place |
| SubscriptionsBoxes.SubscriptionsBox.PlaceItem | server/Utils/SubscriptionsBox.cpp:80-112 | The two shifting loops move an item to its place |
| SubscriptionsBoxes.SubscriptionsBox.SwapOut | server/Utils/SubscriptionsBox.cpp:39-43 | The swaps take one item out and keep the order of the rest |
| DelayedQueue.HandledWhenFirstReached | server/Network/BufferedProtobufTerminal.h:74-112 | Over any run in which the queue has room, a call handles a message exactly as often as it arrived before without an earlier call reaching its timestamp: every message once, in the first call that reaches it |
| DelayedQueue.WaitingIsUnreached | server/Network/BufferedProtobufTerminal.h:74-112 | What waits in the terminal are exactly the messages that no call has reached since they arrived |
| DelayedQueue.HandleServesDue | server/Network/BufferedProtobufTerminal.h:81-112 | A call handles exactly the waiting messages whose time has come and keeps the others |
| DelayedQueue.HandleOrder | server/Network/BufferedProtobufTerminal.h:87-110 | While the queue has room the new messages that are due are handled first, in the order in which they stand, then the delayed ones by their timestamps; what remains is sorted and in the future; DelayedQueue.HandledInOrderOfArrival is about the order of arrival |
| DelayedQueue.HandledInOrderOfArrival | server/Network/BufferedProtobufTerminal.h:74-110 | In any run without overflow a call begins with the due messages that arrived since the last call, each once and in the order of their arrival; then come the delayed ones by their timestamps |
| DelayedQueue.NewMessagesAre | server/Network/BufferedProtobufTerminal.h:74-79 | The new messages are those that arrived since the last call, in the order of their arrival |
| DelayedQueue.DrawPlaces | server/Network/BufferedProtobufTerminal.h:112-128 | A delayed message goes behind those that are due later or at the same time and before the others, whose order stays |
| DelayedQueue.ReleaseFromEnd | server/Network/BufferedProtobufTerminal.h:100-109 | Delayed messages are released from the end of the queue on |
| DelayedQueue.ReceiveCompletes | server/Network/BufferedProtobufTerminal.h:87-99 | The pass over the new messages completes if and only if the delayed ones, old and new, stay within 1024 |
| DelayedQueue.ReceiveSorts | server/Network/BufferedProtobufTerminal.h:87-99 | A complete pass handles the due messages in order and delays the others |
| DelayedQueue.ReleaseSplits | server/Network/BufferedProtobufTerminal.h:102-111 | The released messages are due and in the order of time; the rest is not due |
| DelayedQueue.DrawKeepsOrder | server/Network/BufferedProtobufTerminal.h:114-128 | A delayed message comes to its place in the queue |
| DelayedQueue.OverflowKeepsHandled | server/Network/BufferedProtobufTerminal.h:87-95 | When the queue has no room, all messages that the call has handled stay among the new ones, and the next call at a time no earlier handles each of them again |
| DelayedQueue.HandledOnceIffRoom | server/Network/BufferedProtobufTerminal.h:81-112 | Nothing that a call has handled goes on waiting if and only if the queue had room or nothing was handled |
| DelayedQueue.FullQueueHandlesTwice | server/Network/BufferedProtobufTerminal.h:87-95 | With 1024 delayed messages, one due and one future message: the due one is handled by this call and by the next |
| DelayedQueue.OverflowReleasesNothing | server/Network/BufferedProtobufTerminal.h:89-111 | Such a call releases no delayed message, not even a due one |
| DelayedQueue.LeftInPlace | server/Network/BufferedProtobufTerminal.h:87-99 | What a pass leaves of the new messages, one by one: the message itself, or the husk of one that was moved to the queue |
| DelayedQueue.FullQueueLeavesAll | server/Network/BufferedProtobufTerminal.h:89-92 | A full queue and a future message: the new messages are left as they were |
| DelayedQueue.HandledIsLeft | server/Network/BufferedProtobufTerminal.h:93-98 | What a pass has handled is among what it leaves |
| DelayedQueue.LeftIsHandledAgain | server/Network/BufferedProtobufTerminal.h:87-99 | A later pass over what a pass has left handles all of that again |
| DelayedQueue.BufferedTerminal.HandleBufferedMessages | server/Network/BufferedProtobufTerminal.h:81-112 | The loops compute the new queues and the handled messages |
| DelayedQueue.BufferedTerminal.ReceiveAll | server/Network/BufferedProtobufTerminal.h:87-99 | The loop over the new messages, with its early return |
| DelayedQueue.BufferedTerminal.ReleaseDue | server/Network/BufferedProtobufTerminal.h:102-111 | The loop over the delayed messages |
| DelayedQueue.BufferedTerminal.DrawLast | server/Network/BufferedProtobufTerminal.h:114-128 | The swaps move the last message to its place |
| Clocks.InGameIsSumOfIntervals | server/Utils/Clock.cpp:18-82 | From a start on and whatever is asked of the clock, with readings that never go back the assertion on the expected time never fails and in-game time is the sum of the intervals returned |
| Clocks.RunAccounts | server/Utils/Clock.cpp:26-82 | The same from any state whose accounted time is not in the future |
| Clocks.TickAccounts | server/Utils/Clock.cpp:26-82 | After a tick in-game time plus deviation is the real time sampled; a real-time tick is cut only at the maximum of 10 ms |
| Clocks.AcceptedRequest | server/Utils/Clock.cpp:84-127 | After an accepted request the clock stays in debug mode and refuses to leave it, and refuses other requests, until that many ticks were taken, unless it is terminated or started anew |
| Clocks.FirstTick | server/Utils/Clock.cpp:18-82 | The first tick after a start: in real time the time that passed, in debug mode only what is left of a request |
| Clocks.FirstTickAfterSwitch | server/Utils/Clock.cpp:84-113 | Leaving debug mode the clock goes on in real time, entering it it stands; time that passed before is not counted again |
| Clocks.RequestIsAnswered | server/Utils/Clock.cpp:120-127 | A request for some ticks of a given duration is answered by just that many ticks of that duration, and then the clock stands |
| Clocks.RequestedTicksLast | server/Utils/Clock.cpp:61-76 | Each pending tick lasts the debug duration, and after them ticks last nothing |
| Clocks.TerminatedStands | server/Utils/Clock.cpp:77-118 | A terminated clock stands, whatever is asked of it, until it is started again |
| Clocks.CloseReadingsFit | server/Utils/Clock.cpp:45-71 | If successive readings and the debug durations are below 2^32 - 1, the assertions that an interval fits 32 bits never fail |
| Clocks.RealTimeFitsIff | server/Utils/Clock.cpp:45 | A clock that only ticks in real time fails them if and only if two successive readings are that far apart |
| Clocks.PendingTicks | server/Utils/Clock.cpp:61-76 | While requested ticks are left each tick lasts the debug duration and counts one down |
| Clocks.NoMoreThanRequested | server/Utils/Clock.cpp:61-76 | However often the clock is asked, it counts no more debug ticks than were requested |
| Clocks.Clock.Begin | server/Utils/Clock.cpp:18-24 | The new state is that of starting; requested ticks are not cleared |
| Clocks.Clock.NextInterval | server/Utils/Clock.cpp:26-82 | Result and new state are those of a tick in the current mode |
| Clocks.Clock.LeaveDebugMode | server/Utils/Clock.cpp:84-99 | Granted exactly when no requested tick is left and the clock is not terminated |
| Clocks.Clock.EnterDebugMode | server/Utils/Clock.cpp:101-113 | Granted unless the clock is terminated |
| Clocks.Clock.ProceedRequest | server/Utils/Clock.cpp:120-127 | Granted exactly in debug mode with no requested tick left |
| SessionMultiplexer.SessionMux.GenerateToken | server/Network/SessionMux.cpp:9-13 | A token is not zero and differs from the one given |
| SessionMultiplexer.SessionMux.TokenForNextSlot | server/Network/SessionMux.cpp:23-31 | The token of a revived slot differs from the slot's last token |
| SessionRuns.CloseFirstEffect | server/Network/SessionMux.cpp:289-298 | After the first n connections were visited they are closed and the others untouched |
| SessionTiming.StepFollowsLink | server/Network/SessionMux.cpp:148-298 | One operation of the multiplexer changes a connection's timestamps as its own events do |
| ConveyorBarrier.DoKeepsInv | server/Conveyor/Conveyor.cpp:46-97 | Every step of every thread keeps the protocol's invariant |
| NewtonTick.HappensKeeps | server/Newton/NewtonEngine.cpp:12-55 | A tick, a move or a creation keeps the lists in agreement with the cell pointers |
| FlightPlans.CollectPoints | python-sdk/expansion/procedures/navigation.py:119-122 | The time points of all plans, sorted and without repetition |
| PlanStepping.MergedSum | python-sdk/expansion/procedures/navigation.py:117-135 | Over any interval the merged plan's acceleration adds up to that of all plans |
| ModulesManager.AllProceeded | server/Modules/CommonModulesManager.h:145-164 | When every worker has finished, each module is in its final state, `proceed` was called on it as often as it was listed, and absent ones are off the list |
| ModulesManager.ProceedingBegins | server/Modules/CommonModulesManager.h:74-76 | Clearing the list keeps every id as often as it was there and starts the second stage |
| CommonModulesManager.Manager.HandleModule | server/Modules/CommonModulesManager.h:134-141 | Handling one module is its work and its check in the first stage |
| CommonModulesManager.Manager.ProceedModuleAt | server/Modules/CommonModulesManager.h:153-162 | Proceeding one listed module is its work and its check in the second stage; an absent one is dropped |
| GlobalContainers.GlobalContainer.AttachObserver | server/Utils/GlobalContainer.h:221-228 | An attached mirror starts as a copy of all slots |
| GlobalContainers.Run | server/Utils/GlobalContainer.h:115-159 | The invariant holds at the end of any sequential run |
| ChunksPools.Cut | server/Utils/ChunksPool.h:33-39 | The loop cuts chunks one after the other, and ends where their sizes add up |
| IndexedVectors.RemoveWhereExact | server/Utils/IndexedVector.hpp:85-96 | From any point of the backward loop: the rest of the items is tested once each, last to first |
| IndexedVectors.ApplyRefines | server/Utils/IndexedVector.hpp:25-116 | Every operation changes the map of items by key as it should |
| SubscriptionsBoxes.SubscriptionsBox.IndexOf | server/Utils/SubscriptionsBox.cpp:13-20 | The search finds the first entry of the session |
| SubscriptionsBoxes.SubscriptionsBox.MoveLeft | server/Utils/SubscriptionsBox.cpp:88-97 | The loop shifts later items right and puts the item before them |
| SubscriptionsBoxes.SubscriptionsBox.MoveRight | server/Utils/SubscriptionsBox.cpp:98-111 | The loop shifts earlier items left and puts the item behind them |
| DelayedQueue.AfterIsValid | server/Network/BufferedProtobufTerminal.h:81-128 | In any run without overflow the delayed queue stays sorted and within its limit |
| DelayedQueue.BufferedTerminal.OnMessageReceived | server/Network/BufferedProtobufTerminal.h:74-79 | The message joins the new ones, and nothing is handled |
| Clocks.Clock.Stop | server/Utils/Clock.cpp:115-118 | The clock is terminated and keeps its times |

## Left out

- Protobuf encoding, UDP sockets, boost::asio, YAML and the configuration readers, the user interfaces, the web client and the Python transport: input and output.
- Commutator, Messanger, Shipyard, ResourceContainer and the bodies of the engine, the miner and the scanners: not part of this model, except for how their messages and `proceed` switch the module's state.
- `stop_at_plan`, `long_plan`, `approach_to_plan`, `decelerating_plan` and the other searches built on `fast_plan`: heuristics with tolerances and trigonometry.
- Floating-point rounding and memory ordering: reals are exact and the steps of threads are atomic; `IdArray::push` is one step.
- 64-bit time stamps and counters that overflow only after hundreds of thousands of years are unbounded.
- The destructor of the conveyor, which would call `stop` a second time when no slave is left to come to the barrier.
- Destroying a physical object: its destructor leaves the id in the cell. Ids in the grid are those of objects that stay.
- `Grid::build` a second time, which does not clear the old cells, and grids longer than 2^31, whose right border overflows.
- Statistics of the clock (`exportStat`), the autotests variants of the clock and of the cooldowns, ships' and modules' own states.
- Observers of the global container other than one mirroring container, and detaching them.
- SessionMultiplexer.SessionMux.CreateSession: the token is any value that the generator may yield; handlers are not null and do not call back into the multiplexer; the channel is attached; the assertion in `isRootSession` has no effect.
- SessionRuns.FreshRunIsolation: needs the hypothesis that no (index, token) pair is reissued, because a closed id stays in its connection's list and the generator only avoids the slot's last token; ReissuedSession.ClosingReaches is the exact condition without it.
- SessionTiming.OpenConnectionsAreFresh: speaks about times before the 64-bit clock wraps around.
- SessionTiming.ClosedInTime: speaks about one connection and a list of checks; SessionTiming.OpenConnectionsAreFresh is the bound over runs.
- ConveyorBarrier.NoDeadlock: says that some thread can move, not that the scheduler lets it move; with ConveyorBarrier.RoundsEnd, rounds end if it does.
- ConveyorChain.StageRoundsExact: the answers of `prephare` are a function of logic and stage that is fixed for one cycle.
- ConveyorChain.Conveyor.ProceedStages: the loop over the stages of one logic, which `proceed` has in its body, is a method of its own.
- NewtonTick.TickMovesEachOnce: speaks about ticks whose threads have all finished; weights are positive and no object is created or destroyed within a tick.
- FlightPlans.SquashStaysNear: lengths are compared by their squares.
- FastestPlans.TwoBurnsAreFastest: speaks about the plan of two burns; the fallback to a single one is not the fastest, as its comment says.
- PlanStepping.BuildPath: for an empty plan the position's time is not negative, which the source's assertion demands.
- PlanStepping.ApplyMovesByPushes: the position has a time stamp; without one the first maneuver begins at once (PlanStepping.AccelerateIsMotion) and the rest follows by this lemma.
- PlanStepping.AccelerateSplits: time stamps are whole microseconds, so rounding them changes nothing; the rounding of real durations is left out.
- FastPlans.FastPlanOutcome: both velocities point along the way to the target, burn times are taken before they are rounded to microseconds, and the square root is any function that squares back.
- ModulesManager.CycleIsExact: a module's messages and its `proceed` change that module only, and a message that the module rejects for another reason is none; sessions that are closed while a stage is running are left out; the check after `proceed` and the removal are one step, and every call of a module's `proceed` in one cycle decides the same; both matter only for a module that is listed twice.
- GlobalContainers.RunShowsLiveObjects: runs are sequential, every object registers itself once after its construction, and ids are not exhausted.
- ChunksPools.RunKeepsInv: chunk sizes are positive, and the heap returns blocks outside the arena and apart from each other.
- Subscriptions.DrainServesDue: periods are positive; Subscriptions.AddKeepsPeriodic says when adding keeps them so.
- DelayedQueue.HandledWhenFirstReached: the queue never overflows; for calls that find it full see DelayedQueue.OverflowKeepsHandled.
- DelayedQueue.HandledInOrderOfArrival: the queue never overflows either.
- DelayedQueue.OverflowKeepsHandled: of a message that was moved away its session is taken to be left, with an empty body and timestamp 0, as generated message classes leave it; DelayedQueue.HandledOnceIffRoom and DelayedQueue.FullQueueHandlesTwice do not depend on that.
- Clocks.InGameIsSumOfIntervals: the machine clock never goes back; a clock that was never started is left out.
