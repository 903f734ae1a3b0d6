# Verification of the NRTB simulation engine

NRTB is a fixed-step simulation engine. One engine thread deals its objects into
packets, hands the packets to worker threads through condition-variable queues,
waits for them at a counting barrier, tests all pairs of objects for collisions,
moves the objects, resolves the collisions and carries additions and removals over
to the next turn as messages. Around it stand a delimited stream reader and the text
functions that its configuration and its protocols use.

This project models those parts in Dafny and proves what they promise.

| files | what they model |
|---|---|
| `QueueSystem`, `QueueInvariants` | the queue `abs_queue` as a transition system: a program counter per thread, one event per lock, atomic access, notification or park, 32-bit counters, and histories of what was enqueued, delivered, lost and performed; the invariants that every event keeps |
| `QueueBarrier`, `QueueProgress`, `QueueReturn` | `join` and `task_done`: no lost wakeup, what the return of a join means, a pool that never gets stuck, a join that always comes back |
| `QueueControl`, `QueueWakeup` | order, conservation, hold, shutdown; exactly when a bare release can lose a wakeup, and why `bot_mk1::unlock` cannot |
| `QueueShutdown` | what a shutdown does for the threads that wait in `pop`: all are woken, and every call comes back refused |
| `AbsQueue`, `QueueLinear` | the queue's member functions as methods of a class that take effect one at a time, and the proof that every interleaved run has the results of such calls |
| `Schedule` | jobs in any order, round-robin packets, the list of pairs |
| `Physics`, `BaseObject`, `Effects`, `Collision`, `Separation`, `Ballistic` | the motion of one object and its effectors, the swept-sphere test, the push-apart, many turns under constant force or of burning fuel |
| `SimWorld`, `SimRun`, `SimCore` | the engine's turn as functions, whole runs with messages arriving at any moment, and the engine as a class that changes its fields |
| `ParallelTurn` | the worker phases on the queue refine the sequential loops |
| `LineReader` | `tcp_socket::getln` |
| `CommonRl`, `HttpHex` | find, gsub, split, trim, `mconvert`; percent encoding and decoding |
| `ConfLine`, `ConfReader` | one configuration line and its printer; whole files and the command line |

Where the code does something other than its comments say, the model follows the code:

- `do_apply` overwrites the `alive` that `do_tick` stored, and the statements
  `alive != killme` change nothing, so a death in `tick` that `apply` does not repeat is
  forgotten (`SimRun.TickDeathIsForgotten`, `SimRun.WhoIsDeleted`).
- The last comparison of `check_collision` is always true, so pairs whose closest approach
  lies inside the quantum but outside contact distance are reported as collisions. The test
  is right on exactly the other pairs (`Collision.ExactButForNearMisses`).
- A stop message runs on into the case for unknown nouns and ends the run with an error
  (`SimWorld.StopIsAnError`).
- `release` does not take the lock and can lose a wakeup: exactly if it comes while the
  queue is held, ready and not empty, the consumer has seen it held but has not parked
  yet, and nobody is about to push (`QueueWakeup.ReleaseKeepsIff`,
  `QueueWakeup.TooEarlyCanBeFatal`). A caller that looks at the queue alone is safe
  exactly if it is empty, shut down or not held (`QueueWakeup.SafeToReleaseIff`).
- With a limit that does not exceed the delimiter's length, `getln` still returns a line of
  up to one byte more than the delimiter (`LineReader.LimitIsKeptIff`).
- `trim` returns a string of white space alone unchanged. `gsub` throws on an empty string.
  Together they make a configuration line of white space, or an indented comment, end the
  reading of the file (`ConfLine.AbortsIff`, `ConfReaders.BlankLineLosesTheRest`).
- A name without a value is not stored, although the documentation says that it is
  (`ConfLine.NothingIff`).
- `mconvert` writes a NUL as a backslash and the digit 0, not as a backslash and a NUL.
- A comment glued to a value that ends in a backslash becomes part of the value
  (`ConfLine.ParseTextIff`).
- `http_unhex` looks at what it has decoded again (`HttpHex.UnhexIsPushback`,
  `HttpHex.DecodedTwice`).

## Model

| member | source | states |
|---|---|---|
| QueueInvariants.QueueStep | cpp/common/abs_queue/abs_queue.h:151-239 | every event of every thread keeps mutual exclusion on both locks, FIFO order, the counters as exact counts of items and threads, and the account of every job |
| QueueInvariants.QueueRun | cpp/common/abs_queue/abs_queue.h:151-239 | all those invariants hold in every reachable state, for any number of threads |
| QueueBarrier.NoLostWakeup | cpp/common/abs_queue/abs_queue.h:222-239 | whenever a joiner is parked or bound to park while the stored counters agree, some worker is between its increment of `completed` and its `notify_all`; fewer than 2^32 packets outstanding |
| QueueBarrier.JoinMeansDone | cpp/common/abs_queue/abs_queue.h:222-239 | when the sole producer's `join` has returned, the buffer is empty and every job of every packet ever pushed has been performed exactly once, although the counters wrap and are read one after the other |
| QueueBarrier.PhaseBarrier | cpp/sim_engine/sim_core/sim_core.cpp:132-139 | between two returns of `join` exactly the jobs of the packets pushed in between are performed, each once |
| QueueProgress.NeverStuck | cpp/common/abs_queue/abs_queue.h:151-239 | with one engine and at least one worker, in every reachable state some thread can perform an action that keeps the pool a pool, without a spurious wakeup |
| QueueReturn.MeasureStep | cpp/common/abs_queue/abs_queue.h:170-239 | while the engine is in `join`, every event but a spurious wakeup makes a measure of the remaining work smaller |
| QueueReturn.JoinComesBack | cpp/common/abs_queue/abs_queue.h:222-239 | once the engine is in `join`, a run without spurious wakeups is no longer than that measure and can go on until the engine is back, so every maximal one ends with the return |
| QueueReturn.RunToReturn | cpp/common/abs_queue/abs_queue.h:222-239 | from every such state the engine's return is reachable |
| QueueControl.FifoAndConservation | cpp/common/abs_queue/abs_queue.h:151-188 | what was enqueued is what was delivered, then what a shutdown threw away, then the buffer; with the lock free, the stored counters differ by the buffer and the pushers between their count and their enqueue |
| QueueControl.HoldLetsOneThrough | cpp/common/abs_queue/abs_queue.h:170-201 | from `hold` to `release` at most one further item is taken by all consumers together, and none unless a consumer had already passed its test |
| QueueControl.NothingAfterShutdown | cpp/common/abs_queue/abs_queue.h:209-220 | once `ready` is false, nothing is ever delivered again, even what a late pusher enqueues |
| QueueShutdown.ShutdownReleases | cpp/common/abs_queue/abs_queue.h:209-220 | over all runs: once the queue is not ready nobody is about to park or holds an item that `pop` has yet to return; when no shutdown is between clearing `ready` and its `notify_all`, nobody is parked; a shutdown about to return leaves the buffer empty |
| QueueShutdown.NotifyAllWakesAll | cpp/common/abs_queue/abs_queue.h:196-220 | the `notify_all` of `release` and of `shutdown` wakes every thread parked in `pop` |
| QueueShutdown.PopIsRefused | cpp/common/abs_queue/abs_queue.h:170-188 | a thread leaves `pop` of a queue that is shut down only by the refusal |
| QueueShutdown.PopsComeBack | cpp/common/abs_queue/abs_queue.h:170-220 | after a shutdown, however the threads go on, those inside the queue make no more steps than a measure and the number of new calls allow, and as long as one is inside `pop` one of them can make a step: every `pop` comes back |
| QueueShutdown.RunToRefusal | cpp/common/abs_queue/abs_queue.h:170-220 | from every such state a state with nobody inside `pop` is reachable |
| QueueWakeup.ReleaseKeepsIff | cpp/common/abs_queue/abs_queue.h:196-201 | one consumer, any producers: a release keeps the promise that a consumer beside a ripe queue will be notified if and only if it does not come too early |
| QueueWakeup.NotificationKeepsIff | cpp/common/abs_queue/abs_queue.h:196-201 | the same at the `notify_all`: it is wasted if and only if the consumer is about to park beside a ripe queue and nobody will push |
| QueueWakeup.TimelyReleasesLoseNoWakeup | cpp/common/abs_queue/abs_queue.h:151-201 | a run from the start in which no release comes too early never loses a wakeup |
| QueueWakeup.TooEarlyCanBeFatal | cpp/common/abs_queue/abs_queue.h:196-201 | after a release that comes too early, whatever the state, some continuation ends with the consumer parked beside a ripe queue and nobody left to notify it |
| QueueWakeup.SafeToReleaseIff | cpp/common/abs_queue/abs_queue.h:190-201 | whatever the threads are doing, a release is not too early if and only if the queue is empty, shut down or not held |
| QueueWakeup.UnlockLosesNoWakeup | cpp/sim_engine/bot_mk1/bot_mk1.cpp:247-256 | with every release followed by a push no wakeup is ever lost: if the queue is ripe and the consumer parked, some thread has yet to notify |
| QueueWakeup.ReleaseLosesAWakeup | cpp/common/abs_queue/abs_queue.h:196-201 | a run of three threads from the start that loses the wakeup to a release that comes too early |
| QueueWakeup.LostTooEarly | cpp/common/abs_queue/abs_queue.h:196-201 | the release of that run is the one that comes too early |
| QueueLinear.RunsAreLinear | cpp/common/abs_queue/abs_queue.h:151-239 | for any number of threads and any interleaving, the calls made one at a time, in the order in which they take effect, are all allowed with the results they have in the run; pops return the delivered items in order, and at rest the fields agree |
| QueueLinear.LinearStep | cpp/common/abs_queue/abs_queue.h:151-239 | every event of every thread either lets a call take effect, a shutdown with the pushes that had seen the queue ready just before it, or changes nothing that a caller sees |
| AbsQueues.AbsQueue.Push | cpp/common/abs_queue/abs_queue.h:151-168 | the call and its result are allowed, and the fields, 32-bit words included, change by exactly this call |
| AbsQueues.AbsQueue.Pop | cpp/common/abs_queue/abs_queue.h:170-188 | the same for `pop`, when it need not wait |
| AbsQueues.AbsQueue.Shutdown | cpp/common/abs_queue/abs_queue.h:209-220 | the same for `shutdown`; the loop empties the buffer |
| AbsQueues.AbsQueue.TaskDone | cpp/common/abs_queue/abs_queue.h:230-239 | the same for `task_done`, which notifies exactly if the stored counters agree afterwards |
| Schedule.OrderDoesNotMatter | cpp/sim_engine/sim_core/sim_core.cpp:493-537 | jobs that commute leave the same world in every order |
| Schedule.PacketsHoldEveryJob | cpp/sim_engine/sim_core/sim_core.cpp:124-131 | round robin puts every job in exactly one packet, for any number of workers |
| Schedule.RoundRobin | cpp/sim_engine/sim_core/sim_core.cpp:124-131 | row k of packet p is job k * n + p |
| Schedule.RoundRobinLength | cpp/sim_engine/sim_core/sim_core.cpp:124-131 | every packet has as many rows as its place is filled, so no two differ by more than one job |
| Schedule.Packetise | cpp/sim_engine/sim_core/sim_core.cpp:124-131 | the loop deals the jobs round robin |
| Schedule.EachPairOnce | cpp/sim_engine/sim_core/sim_core.cpp:150-167 | the loops list every unordered pair of different objects exactly once, the lower id first |
| Schedule.ListPairs | cpp/sim_engine/sim_core/sim_core.cpp:150-167 | the nested iterator loops produce that list |
| Schedule.PairCounterFits | cpp/sim_engine/sim_core/sim_core.cpp:149-163 | the `int` pair counter does not overflow exactly up to 65536 objects |
| ParallelTurn.PhasePerformsEachJobOnce | cpp/sim_engine/sim_core/sim_core.cpp:132-139 | for every worker count and interleaving, push-all-then-join performs each job once and leaves the queue ready for the next phase |
| ParallelTurn.RoundsFromStart | cpp/sim_engine/sim_core/sim_core.cpp:132-139 | turn after turn on the same queue, every turn performs exactly its own jobs, each once, although the wrapping counters are never reset |
| ParallelTurn.ParallelTick | cpp/sim_engine/sim_core/sim_core.cpp:122-134 | the world after the parallel tick is the one of the sequential tick over the map |
| ParallelTurn.ParallelApply | cpp/sim_engine/sim_core/sim_core.cpp:137-139 | the same for apply |
| ParallelTurn.ParallelCheck | cpp/sim_engine/sim_core/sim_core.cpp:145-172 | the recorded collisions are exactly the pairs on which the test says yes, each once, lower id first |
| ParallelTurn.WholeTurn | cpp/sim_engine/sim_core/sim_core.cpp:122-172 | the three phases together: ticked world, records and moved world are those of the sequential turn, so the results on whole runs apply |
| Physics.GapIsQuadratic | cpp/sim_engine/base_object/base_object.cpp:223-244 | the squared distance over the quantum minus the squared contact distance is the quadratic with the coefficients that the code computes |
| Collision.CheckCases | cpp/sim_engine/base_object/base_object.cpp:231-251 | the division is by a positive number and the last comparison never changes the answer |
| Collision.NoTunnelling | cpp/sim_engine/base_object/base_object.cpp:221-252 | if the test says no, the spheres are strictly apart at every moment before the end of the quantum and do not overlap at its end |
| Collision.ExactButForNearMisses | cpp/sim_engine/base_object/base_object.cpp:221-252 | the test agrees with contact during the quantum if and only if the pair is not a near miss, and it reports every near miss |
| Collision.NearMissExample | cpp/sim_engine/base_object/base_object.cpp:248-251 | near misses exist |
| Collision.CheckIsSymmetric | cpp/sim_engine/base_object/base_object.cpp:221-252 | it does not matter which object asks |
| Collision.TurnSeparation | cpp/sim_engine/base_object/base_object.cpp:205-252 | two motions on which the test says no are still at least the sum of radii apart after both have been applied |
| SimRun.RecordedIff | cpp/sim_engine/sim_core/sim_core.cpp:135-172 | a pair of objects is recorded, once, if and only if the ticked objects touch before the end of the quantum or are a near miss |
| SimRun.UnrecordedStayApart | cpp/sim_engine/sim_core/sim_core.cpp:135-139 | objects whose pair is not among the records of the turn are at least the sum of radii apart after the turn's moves |
| Separation.OverlapResolved | cpp/sim_engine/sim_core/sim_core.cpp:300-313 | overlapping objects with distinct centres end exactly the sum of radii apart, same midpoint, same line, same side |
| SimWorld.SurvivorsSeparate | cpp/sim_engine/sim_core/sim_core.cpp:290-317 | the same on the object map: both survive, nobody else moves, no removal is asked for |
| SimWorld.DistanceAfter | cpp/sim_engine/sim_core/sim_core.cpp:295-314 | after the record of two survivors with distinct centres their distance is the larger of the distance before and the sum of their radii |
| SimWorld.OthersStay | cpp/sim_engine/sim_core/sim_core.cpp:295-314 | a record of two objects that do not overlap, or of which one says that it dies, changes no object at all |
| SimWorld.UntouchedStays | cpp/sim_engine/sim_core/sim_core.cpp:286-319 | an object that is in no record of two overlapping survivors is left by the whole resolution as it was |
| Ballistic.ThrustAndGravityAreSteady | cpp/sim_engine/gravity_effector/gravity.cpp:38-42 | a constant force and gravity are a steady push on an object whose accumulators are clear |
| Ballistic.TurnsFollow | cpp/sim_engine/base_object/base_object.cpp:157-219 | many turns follow the velocity and position recurrence, because each tick clears the accumulators |
| Ballistic.BallisticTurns | cpp/sim_engine/base_object/base_object.cpp:157-219 | n turns of length q give velocity v0 + nqA and position x0 + nq v0 + q^2 A n(n+1)/2 on every axis, and the object lives |
| Ballistic.DriftIsLinear | cpp/sim_engine/base_object/base_object.cpp:157-219 | after time T the simulated position is off the ballistic one by exactly AqT/2 |
| Effects.EffectorsRun | cpp/sim_engine/base_object/base_object.cpp:178-182 | every effector runs, in order, on what the one before left, and the object dies if and only if one of them says so |
| Effects.TickLaw | cpp/sim_engine/base_object/base_object.cpp:157-203 | accumulators cleared first; the mass changes by what the effectors asked for; with none left the object dies and keeps its velocity, otherwise it obeys Newton's law with the new mass and dies exactly if an effector said so |
| Effects.ApplyLaw | cpp/sim_engine/base_object/base_object.cpp:205-219 | the object moves first, then the post-effectors see it where it is, and it dies exactly if one of them says so |
| Effects.BurnTurns | cpp/sim_engine/base_object/base_object.cpp:157-203 | under a constant loss of mass the mass falls linearly over the turns, and some tick says that the object dies exactly if none is left in the end |
| BaseObjects.BaseObject.Tick | cpp/sim_engine/base_object/base_object.cpp:157-203 | the fields after `tick` are those of the tick of `Effects.TickLaw`; `alive` is unchanged |
| BaseObjects.BaseObject.Apply | cpp/sim_engine/base_object/base_object.cpp:205-219 | the fields after `apply` are those of the apply of `Effects.ApplyLaw`; `alive` is unchanged |
| BaseObjects.BaseObject.TakeTurn | cpp/sim_engine/sim_core/sim_core.cpp:493-519 | after both worker phases only the verdict of `apply` is in `alive` |
| SimWorld.DrainSucceedsIffSafe | cpp/sim_engine/sim_core/sim_core.cpp:174-266 | the message loop ends without error exactly if every message is an addition, or the removal of an object then in the map; then it leaves none behind |
| SimWorld.DrainMarks | cpp/sim_engine/sim_core/sim_core.cpp:201-216 | after the loop an object is alive exactly if it was and no message asked for its removal |
| SimWorld.AdditionArrives | cpp/sim_engine/sim_core/sim_core.cpp:201-208 | what an addition puts in the map: the object as given, alive exactly if it was and no later message asks for its removal |
| SimWorld.DrainStopsAt | cpp/sim_engine/sim_core/sim_core.cpp:181-264 | an error leaves the map as the messages before the bad one made it, and the messages behind it in the queue |
| SimRun.AddedStarts | cpp/sim_engine/sim_core/sim_core.cpp:174-281 | an added object starts the turn equal to what was given, exactly if it is alive and no later message removes it |
| SimRun.UnnamedStarts | cpp/sim_engine/sim_core/sim_core.cpp:174-281 | an object that no message adds starts the turn equal to what the map held, exactly if it is alive and no message removes it |
| SimRun.OnlyTheseStart | cpp/sim_engine/sim_core/sim_core.cpp:174-281 | nobody else is in the map |
| SimWorld.StopIsAnError | cpp/sim_engine/sim_core/sim_core.cpp:231-264 | a stop message sets the end of the run and still ends in the error case |
| SimWorld.AnyTickOrder | cpp/sim_engine/sim_core/sim_core.cpp:493-505 | every order of ticking the objects gives the world of the sequential loop |
| SimWorld.AnyApplyOrder | cpp/sim_engine/sim_core/sim_core.cpp:507-519 | the same for apply |
| SimWorld.AnyCheckOrder | cpp/sim_engine/sim_core/sim_core.cpp:521-537 | every order of comparing the pairs records the same bag of collisions |
| SimWorld.ResolveKeeps | cpp/sim_engine/sim_core/sim_core.cpp:286-319 | resolution adds, drops, renames and kills nobody, and asks only for removals of objects in the map |
| SimWorld.RemovalsAreCondemned | cpp/sim_engine/sim_core/sim_core.cpp:286-319 | an object's removal is asked for exactly if some record condemns it |
| SimWorld.RemovalsIgnoreOrder | cpp/sim_engine/sim_core/sim_core.cpp:286-319 | who is removed does not depend on the order in which the workers recorded the collisions |
| SimRun.TurnKeeps | cpp/sim_engine/sim_core/sim_core.cpp:425-441 | a turn keeps: keys are ids, and the queue can be drained without error |
| SimRun.EveryTurnInitSucceeds | cpp/sim_engine/sim_core/sim_core.cpp:174-319 | over whole runs every `turn_init` drains its queue without meeting a missing object, whatever the workers' order and the arrivals |
| SimRun.WhoIsDeleted | cpp/sim_engine/sim_core/sim_core.cpp:209-281 | an object is gone at the next turn exactly if its `apply` said so, a recorded collision condemned it, or another thread asked; `tick` plays no part |
| SimRun.ApplyKillsIff | cpp/sim_engine/base_object/base_object.cpp:213-218 | the verdict of `apply` is whether one of the post-effectors, on the state it finds after the move, says that the object dies |
| SimRun.OneEffectorDeletes | cpp/sim_engine/sim_core/sim_core.cpp:209-281 | one post-effector that says yes is enough for the object to be gone at the next turn |
| SimRun.TickedIsAlive | cpp/sim_engine/sim_core/sim_core.cpp:499-500 | `alive` in the collision phase says that no pre-effector killed and some mass is left |
| SimRun.TickDeathIsForgotten | cpp/sim_engine/sim_core/sim_core.cpp:493-519 | an object without mass is told to die by every `tick` and lives on |
| SimCores.SimCore.OneTurn | cpp/sim_engine/sim_core/sim_core.cpp:425-433 | one iteration of the game cycle, with other threads pushing messages while it drains and while it resolves, takes the engine's fields from a state to the next state of a run and keeps the invariant |
| SimCores.SimCore.AddObject | cpp/sim_engine/sim_core/sim_core.cpp:331-345 | keeps the invariant: keys are ids, and the queue can be drained without error |
| SimCores.SimCore.RemoveObj | cpp/sim_engine/sim_core/sim_core.cpp:347-361 | while running, keeps it if and only if the object is in the map or an earlier message brings it; otherwise, if no message left in the queue removes the object too |
| SimWorld.SafeAppend | cpp/sim_engine/sim_core/sim_core.cpp:321-361 | exactly when one more message may be queued |
| SimCores.SimCore.TurnInit | cpp/sim_engine/sim_core/sim_core.cpp:174-284 | the messages queued at its start, and no others, are drained in order while more arrive; on success the dead are erased and the collisions cleared, on error neither happens; what arrived stays |
| SimCores.SimCore.EraseDead | cpp/sim_engine/sim_core/sim_core.cpp:272-281 | exactly the objects that are not alive are erased |
| SimCores.SimCore.Tick | cpp/sim_engine/sim_core/sim_core.cpp:122-143 | the engine's turn of the workers leaves the sequential world and exactly the colliding pairs of the ticked one |
| SimCores.SimCore.CollisionCheck | cpp/sim_engine/sim_core/sim_core.cpp:145-172 | the collision queue holds exactly the colliding pairs |
| SimCores.SimCore.ResolveCollisions | cpp/sim_engine/sim_core/sim_core.cpp:286-319 | the queue is empty after exactly as many iterations as it had records; objects and removals are those of the records in order, other threads' messages in between |
| SimCores.SortedIds | cpp/sim_engine/sim_core/sim_core.cpp:128-131 | the map's iteration: every key once, in ascending order |
| LineReader.Socket.GetLn | cpp/common/sockets/base_socket.cpp:406-493 | the shortest prefix of the stream that ends in the delimiter, the stream left just behind it; returned exactly if it is not too long, otherwise an overrun after at most maxlen + max(0, L - 2) bytes for a limit above L |
| LineReader.LimitIsKeptIff | cpp/common/sockets/base_socket.cpp:424-474 | no returned line is longer than the limit if and only if the limit exceeds the delimiter's length |
| LineReader.Socket.NextChunk | cpp/common/sockets/base_socket.cpp:446-460 | a chunk of more than one byte cannot contain or end in a delimiter |
| LineReader.NoneStarts | cpp/common/sockets/base_socket.cpp:448-456 | where the delimiter's first byte is absent from the tail, no delimiter ends within less than its length |
| CommonRl.Gsub | cpp/common/common_rl/common.cpp:71-91 | the search loop is the one-pass leftmost replacement; an empty target or pattern throws |
| CommonRl.OneCharacterGsub | cpp/common/common_rl/common.cpp:71-91 | with a one-byte pattern it maps each byte on its own |
| CommonRl.MConvert | cpp/common/common_rl/common.cpp:136-158 | four passes yield the byte-by-byte escape |
| CommonRl.FourPassesAreOne | cpp/common/common_rl/common.cpp:149-155 | the four successive replacements equal a single pass, on every byte string |
| CommonRl.UnescapeEscape | cpp/common/common_rl/common.cpp:136-158 | a one-pass reader undoes the escape |
| CommonRl.EscapeIsInjective | cpp/common/common_rl/common.cpp:136-158 | no two strings are escaped to the same one |
| CommonRl.EscapedIsQuotable | cpp/common/common_rl/common.cpp:136-158 | the escaped string holds no quote of its own, no NUL and no unfinished escape |
| CommonRl.Split | cpp/common/common_rl/common.cpp:93-118 | the loop yields the pieces between the tokens, none for an empty string |
| CommonRl.JoinSplit | cpp/common/common_rl/common.cpp:93-118 | joining the pieces with the token gives the string back, and no piece holds a token |
| CommonRl.SplitJoin | cpp/common/common_rl/common.cpp:93-118 | splitting joined token-free pieces gives them back, except for the single empty piece |
| CommonRl.Trim | cpp/common/common_rl/common.cpp:120-134 | the two erasures leave the trimmed string |
| CommonRl.TrimPadded | cpp/common/common_rl/common.cpp:120-134 | exactly the padding of white space goes |
| CommonRl.TrimTrimsIff | cpp/common/common_rl/common.cpp:120-134 | the ends are free of white space afterwards if and only if the string was empty or not all white space |
| HttpHex.HttpEnhex | cpp/common/common_rl/common.cpp:209-228 | the loop writes three bytes for each byte |
| HttpHex.EnhexAlphabet | cpp/common/common_rl/common.cpp:209-228 | what is written holds percent signs, digits and upper-case letters only |
| HttpHex.Hexits | cpp/common/common_rl/common.cpp:66-68 | digits and their places are those of the source's string of digits |
| HttpHex.EitherCase | cpp/common/common_rl/common.cpp:175-188 | two digits stand for sixteen times the first and once the second, whatever their case |
| HttpHex.WordArithmetic | cpp/common/common_rl/common.cpp:175-188 | on any two bytes, digits or not, the result is that of the source's unsigned 64-bit arithmetic cut to a byte |
| HttpHex.HttpUnhex | cpp/common/common_rl/common.cpp:230-247 | the rewriting loop ends on every input, and what it returns holds no percent sign |
| HttpHex.UnhexIsPushback | cpp/common/common_rl/common.cpp:230-247 | on every input the rewriting loop is the left-to-right reader that pushes each decoded byte back in front of the rest |
| HttpHex.UnhexIsOnePassIff | cpp/common/common_rl/common.cpp:230-247 | the loop agrees with the single pass wherever that decodes no percent sign, also when it ends at a lone one; where the pass ends well, if and only if |
| HttpHex.LonePercent | cpp/common/common_rl/common.cpp:230-247 | where the pass decodes a percent sign and then meets a lone one, the loop may fail or succeed |
| HttpHex.EnhexRoundTripIff | cpp/common/common_rl/common.cpp:175-247 | decoding undoes encoding if and only if the string holds no percent sign |
| HttpHex.DecodedTwice | cpp/common/common_rl/common.cpp:230-247 | an encoded percent sign followed by two digits is decoded again |
| ConfLine.StripComment | cpp/common/confreader/confreader.cpp:57-72 | the loop cuts the line at its first comment sign without a backslash before it |
| ConfLine.ParseLine | cpp/common/confreader/confreader.cpp:56-91 | the sequence of strip, trim, split and unescape calls, with its exceptions, has the outcome that the results on lines are about |
| ConfLine.AbortsIff | cpp/common/confreader/confreader.cpp:74-96 | a line aborts the reading of the file if and only if white space, and nothing else, is left before its comment |
| ConfLine.NothingIff | cpp/common/confreader/confreader.cpp:74-91 | a line stores nothing if and only if its trimmed text holds no tab and no blank |
| ConfLine.CommentIgnored | cpp/common/confreader/confreader.cpp:57-72 | a comment changes nothing, whatever stands before it, if the comment signs in there are escaped and its own is not |
| ConfLine.CommentLine | cpp/common/confreader/confreader.cpp:57-91 | a line that is a comment says nothing |
| ConfLine.NulEndsTheLine | cpp/common/confreader/confreader.cpp:55-56 | what follows a NUL in a line is lost |
| ConfLine.UnescapeHash | cpp/common/confreader/confreader.cpp:80-81 | unescaping undoes the escaping of comment signs, whatever backslashes the text holds |
| ConfLine.ParseTextIff | cpp/common/confreader/confreader.cpp:55-91 | the parser undoes the printer, for every layout and any comment, if and only if the comment is not glued to a value that ends in a backslash; the reserved name is an include |
| ConfReaders.LoadWritten | cpp/common/confreader/confreader.cpp:51-92 | every line of a written file is stored, in order, whatever follows |
| ConfReaders.FileRoundTrip | cpp/common/confreader/confreader.cpp:41-101 | reading back a written file gives its names and values in order |
| ConfReaders.OpenFileRoundTrip | cpp/common/confreader/confreader.cpp:53-92 | the same if nothing ends the last line |
| ConfReaders.CommentLineSkipped | cpp/common/confreader/confreader.cpp:53-92 | lines of comment do not matter |
| ConfReaders.OverlongLine | cpp/common/confreader/confreader.cpp:52-56 | a line of more than 16383 bytes ends the reading after its first 16383 |
| ConfReaders.BlankLineLosesTheRest | cpp/common/confreader/confreader.cpp:53-98 | everything behind a line of white space is lost |
| ConfReaders.InsertedValues | cpp/common/confreader/confreader.cpp:87-90 | a name has its earlier values, then those of the file, in order |
| ConfReaders.TakenApart | cpp/common/confreader/confreader.cpp:117-132 | split and reassembly give the text before and behind the first equals sign |
| ConfReaders.ArgTakenApart | cpp/common/confreader/confreader.cpp:117-132 | "name=value" is taken apart exactly, whatever equals signs the value holds; a bare name has an empty value |
| ConfReaders.LastIsStoredLast | cpp/common/confreader/confreader.cpp:108-143 | the last value stored for a name is that of its last argument |
| ConfReaders.CommandLineDominates | cpp/common/confreader/confreader.cpp:144-162 | the first value of a name is that of its last argument, and the file's later values follow |
| ConfReaders.OtherNamesAreKept | cpp/common/confreader/confreader.cpp:144-162 | names that are not on the command line keep the file's values |
| ConfReaders.FileAndCommandLine | cpp/common/confreader/confreader.cpp:41-165 | both together, from the text of a file to the values after the merge |
| ConfReaders.ConfReader.Read | cpp/common/confreader/confreader.cpp:41-101 | the file loop, with its file name, its clearing and its early ends |
| ConfReaders.ConfReader.ReadArguments | cpp/common/confreader/confreader.cpp:103-165 | the command line, the choice of the file and the merge |
| ConfReaders.ConfReader.Merge | cpp/common/confreader/confreader.cpp:146-162 | whatever order the names are taken in, the loop that overwrites or inserts one value at a time leaves the last command-line value first |
| ConfReaders.FirstAfterMerge | cpp/common/confreader/confreader.cpp:144-211 | after the merge `operator[]` (the method `First`) gives the value of the last argument for the name, without one what the file gives |
| ConfReaders.GivenWins | cpp/common/confreader/confreader.cpp:103-211 | the same in terms of argv: the last argv[i] that gives the name |
| ConfReaders.ProgramNameIsStored | cpp/common/confreader/confreader.cpp:110-116 | argv[0] is the value of "__exec_name", unless an argument gives that |
| ConfReaders.FileDecides | cpp/common/confreader/confreader.cpp:103-162 | a name that no argument gives has the file's values |
| ConfReaders.FileNameAfterArguments | cpp/common/confreader/confreader.cpp:137-145 | the file read is that of the last "configfile=" argument, without one the given one |
| ConfReaders.ConfReader.All | cpp/common/confreader/confreader.cpp:192-203 | all values of a name, in order |

## Left out

- Rotation, attitude and torque (`rotatable`), polar coordinates, `diff_steer`, hover and radar: they need transcendental functions.
- Floating-point rounding: positions and velocities are reals; `triad::range` is a parameter, used where its square is the squared distance and it is not negative; the result of normalising a zero vector is a parameter.
- AbsQueues.AbsQueue.Pop: does not wait, because a method takes effect at once; waiting, like everything between threads, is in the transition system.
- AbsQueues.AbsQueue.Shutdown: wakes nobody, for the same reason; the wakeups are events of the transition system.
- QueueLinear.RunsAreLinear: the buffer after a shutdown is not compared, because pushers that had seen the queue ready may still put items in it, which nothing delivers (`QueueControl.NothingAfterShutdown`); `join` has results only through the barrier.
- QueueReturn.JoinComesBack: spurious wakeups are excluded, because a system that wakes waiters again and again for no reason keeps any waiter busy.
- SimCores.SimCore.OneTurn: the orders in which the workers perform their jobs are parameters; `ParallelTurn.WholeTurn` shows that the queues supply such orders.
- SimCores.SimCore.Tick: the same.
- SimCores.SimCore.CollisionCheck: the same.
- BaseObjects.BaseObject.Tick: without rotation, torque and the list of dropped attributes.
- BaseObjects.BaseObject.Apply: without attitude.
- `clear`, `resize`, `size` and `is_blocked` of the queue, and queues of bounded capacity.
- Wrap-around of the queue's counters once 2^32 or more packets are outstanding: the barrier's results assume fewer.
- Exceptions thrown by effectors inside a worker: ticks and applies return.
- A job is one event: two workers that interleave inside the tick of two objects are covered because a tick changes its own object only; effectors that read or write other objects, or the id or `alive` of their own, are not modelled.
- Objects are values keyed by id rather than shared pointers, so a record's object is the map's object of that id; additions that reuse the id of a living object share it in the model.
- Requests by other threads to remove an object that is not in the map: they end the run (`SimWorld.DrainSucceedsIffSafe`), and the results on whole runs assume that none arrives.
- `bot_mk1::check_collision`, which answers yes for a bot that is dead and so depends on more than motion and on who asks: every object uses the test of `base_object`.
- Effectors that keep state of their own from turn to turn: an effector is a function of the object and the quantum.
- The list of dropped attributes that `base_object::tick` works off, commands to effectors, and the containers of effectors.
- SimCores.SimCore.EraseDead: the filter that is meant; the source erases inside a range-for over the same map, whose behaviour is undefined.
- The contact list (`panopticon`), reports, logging, the wall clock and sleeping, the start and end of the engine thread, and the locking of bots around a turn inside `run_sim`.
- Socket calls, timeouts and short reads of `get`, and `put`: the stream is endless and `get(n)` delivers n bytes.
- LineReader.Socket.GetLn: without a limit it is stated only for streams in which the delimiter comes, because otherwise the source never returns.
- HttpHex.HttpUnhex: a percent sign that is the last byte makes the source read beyond the string; the model returns None there.
- ConfLine.Parse: the byte that the source reads before a comment sign at the start of a line is a parameter.
- ConfReaders.ConfReader.Read: the contents of files named by `*INCLUDE` are not read, and the number of stored values is not returned.
- ConfReaders.ConfReader.ReadArguments: the same.
- ConfReaders.ConfReader.All: the multimap is a map to lists, so the walk over equal keys is a walk over one list.
- ConfReaders.FirstAfterMerge: `find` on the multimap is taken to give the first of equal keys, as common libraries do.
- ConfLine.ParseTextIff: names and values that hold a NUL are not written, because the reader's character buffer ends there.
- Names `*INCLUDE` and lines of more than 16383 bytes are outside the printer's promise; the reader's handling of both is in the model.
- `upcase`, `downcase`, `dateflip`, `http_chartohex`, random numbers, the serialiser, singletons, timers, plugins, railgun and the Python prototypes.
