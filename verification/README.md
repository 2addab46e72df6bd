# DoIP stack: models and proofs

Dafny models of the stateful pieces of a DoIP (ISO 13400-2) stack, the server process, the node
client and the internal tester client, with proofs about every run, every read and every input.

| part | files |
|---|---|
| group-serialising thread pool | `PoolCore`, `PoolSystem`, `PoolInvariants`, `PoolRuns`, `PoolTheorems`, `PoolLimits`, `PoolExact`, `PoolForced`, `PoolGrowth`, `PoolEnding`, `ThreadPool` |
| routing activation and the TCP connection table | `Routing`, `RoutingInvariants`, `RoutingTheorems`, `RoutingUnique`, `RoutingRound`, `RoutingSingle`, `RoutingAnswers`, `RoutingFigure`, `RoutingOrphan`, `RoutingCode` |
| segmented diagnostic messages, server to node to application | `Wire`, `DiagServer`, `DiagDelivery`, `DiagPieces`, `DiagRefusals`, `DiagNode`, `NodeDelivery`, `DiagEndToEnd`, `DiagAsync`, `DiagCode` |
| gateway store-and-forward and its linked queue | `Gateway`, `DataQueue` |
| timer manager | `TimerSpec`, `TimerDrain`, `TimerIds`, `TimerEffects`, `TimerCode` |
| select registry | `SelectSpec`, `SelectCode` |
| replies to an internal tester | `IpcReplies` |
| circular list | `RingList` |

How the models are built:

- Code that changes state in place is a class or a method over arrays and linked nodes
  (`ThreadPool`, `RoutingCode`, `DiagCode`, `TimerCode`, `SelectCode`, `DataQueue`, `Gateway.Target`,
  `IpcReplyCode`, `RingList`). Each method is proved equal to a function on values, and the promises
  are proved about that function, over all runs.
- The pool is a system of threads: one lock-protected section is one step; condition waits, signals,
  expired waits and the two places that destroy the pool are steps of their own. A signal wakes
  exactly one unsignalled waiter, spurious wakeups are allowed, and a wait can expire only while it
  is unsignalled. Whether the system creates a thread is a parameter.
- The connection table changes by one event at a time. An alive timeout is resolved by the
  connection that owns the timer. Inactivity timers and the closing of all connections are
  `Disconnected` events; a change of the registered entity or of the activation line is an event.
- A clock reading is a parameter, a write appends to an output sequence, and what `select` left set
  is an input.

What turned out not to hold, each with a concrete run or an exact condition:

- A worker whose wait expired leaves without another look at the queue. For every maximum of threads,
  and without refused threads, an accepted task can be stranded in a running pool with no thread
  exactly if waits are timed (`PoolExact.StrandsIffTimed`), and a graceful stop can hang for a queued
  task exactly then (`PoolExact.DrainHangsIffTimed`).
- A push whose thread is refused reports failure, though the task is queued and may yet run
  (`PoolGrowth.PushAcceptedIff`).
- A forced, waiting `free` can hang exactly if waits have no time limit and both the waiting workers
  and the queued tasks outnumber the waiters that are certain to leave (`PoolForced.ForcedStopHangsIff`,
  and `PoolForced.ForcedCallHangsIff` at the call). Those are the signalled waiters, and the ones that
  running ids without queued tasks will signal, as long as ready tasks last, and one for each running
  id that holds queued tasks back. A caller that sees no waiter or an empty queue under the lock is
  safe (`PoolForced.CallerCanCheck`). `PoolLimits.ForcedStopHangs` is a run that hangs.
- The accept cap counts in eight bits and works exactly for `mcts <= 254`
  (`RoutingTheorems.AcceptCapIff`).
- Without the address guard (gateway or node with `egw_control` set), a second connection becomes
  active unauthenticated; activation is always authorised exactly when the guard is on
  (`RoutingUnique.AuthorityIffGuarded`).
- Addresses stay unique except exactly when a request finds no registered socket while another one
  still waits with the same address (`RoutingUnique.UniquenessIff`; over whole runs
  `RoutingUnique.AddressesUniqueIffOrderly`); such a state is reachable
  (`RoutingOrphan.OrphanDuplicatesAddress`).
- `ne_doip_net_unpack` discards a read of fewer than eight bytes even in the middle of a message. A
  first piece of one to four bytes is refused. A fail flag left by an earlier refusal withholds every
  piece between the first and the last of a later message. `DiagPieces.MessageArrivesIff` gives the
  exact condition.
- The last piece of a refused message is forwarded all the same, to the node of an earlier message
  (`DiagRefusals.RefusedForwardsLast`).
- The position of a payload is passed in eight bits (`DiagPieces.WholeMessageArrivesIff`), and the
  node takes a frame that does not start its read only if it lies wholly in it
  (`NodeDelivery.FrameIndicatedIff`).
- Tasks of group g finish in push order in every run exactly if g is not 0
  (`PoolExact.OrderKeptIffGrouped`), and every 256th large message gets task id 0
  (`DiagAsync.TaskIdIff`).
- A repeating timer with period zero that is due fires for ever (`TimerDrain.DrainEndsIff`). A
  repeating timer whose callback stops it without clearing its repeat flag comes back under an id
  that another timer may hold (`TimerIds.EndKeepsIdsIff`, over whole runs
  `TimerIds.IdsThroughoutIffOrderly`, and a run in `TimerIds.StoppedRepeatDuplicates`).
- A second request to a gateway target overtakes stored chunks
  (`Gateway.EarlyRequestKeepsOrderIff`). Clearing the chunk queue empties it exactly of its leading
  entries (`DataQueue.DropLeadingClears`).
- A dispatch never reports a descriptor at or above the length of the caller's array, however few
  are ready (`SelectSpec.DispatchReportsIff`).

## Model

| member | source | states |
|---|---|---|
| `PoolTheorems.GroupsAreSerial` | libdoipstack/ne_doip_threadpool.c:150-184 | over every run, the accepted tasks of a nonzero id are, in push order, finished, at most one running, thrown away (only by a forced stop), queued; the id is marked exactly while its task runs |
| `PoolTheorems.TasksAreConserved` | libdoipstack/ne_doip_threadpool.c:150-212 | no task is lost, invented or run twice |
| `PoolTheorems.GracefulStopRunsAll` | libdoipstack/ne_doip_threadpool.c:294-340 | a waiting, unforced free leaves its wait only when every accepted task ran exactly once, each group in push order |
| `PoolTheorems.DestroyedOnce` | libdoipstack/ne_doip_threadpool.c:110-132 | the pool is freed at most once, by one thread, with no live worker left |
| `PoolTheorems.CallerIsWoken` | libdoipstack/ne_doip_threadpool.c:188-212 | a caller of free that waits unsignalled could not go |
| `PoolTheorems.NoLostWakeup` | libdoipstack/ne_doip_threadpool.c:676-709 | until a forced stop, while a worker waits unsignalled, the eligible groups are at most the signalled waiters |
| `PoolTheorems.WorkIsNeverStranded` | libdoipstack/ne_doip_threadpool.c:342-392 | without an expired wait or a refused thread, queued work always has a worker that runs or will look |
| `PoolTheorems.DrainIsNeverStuck` | libdoipstack/ne_doip_threadpool.c:294-340 | nor does a draining pool get stuck |
| `PoolTheorems.CountersAreExact` | libdoipstack/ne_doip_threadpool.c:166-189 | waiting threads, threads and task count agree with the threads and the queue and keep their bounds, 1000 for the tasks |
| `PoolGrowth.PoolGrowsWithWork` | libdoipstack/ne_doip_threadpool.c:342-392 | in every run without an expired wait or a refused thread, while the pool runs: each group with a task that may run, and each task of id 0, has a new or signalled worker of its own coming, or the pool has its maximum of threads |
| `PoolGrowth.PoolGrowsOnlyForWork` | libdoipstack/ne_doip_threadpool.c:380-385 | a push that creates a thread is accepted, brings a group that neither runs nor is queued, and finds no more waiters than queued groups and fewer live threads than the maximum |
| `PoolGrowth.PushAcceptedIff` | libdoipstack/ne_doip_threadpool.c:342-378 | a push is accepted exactly while the pool runs, for an id of 0 to 255, with fewer than 1000 tasks queued or running; it returns 0 exactly if it is accepted and no thread was refused |
| `PoolEnding.StopEndsInDestruction` | libdoipstack/ne_doip_threadpool.c:188-221 | in every run without an expired wait or a refused thread: once the caller of free has returned and no worker has anything left to do, the pool has been destroyed exactly once and every worker is gone, whether the stop was forced or waited for or neither |
| `PoolEnding.DestructionLeavesNothing` | libdoipstack/ne_doip_threadpool.c:188-221 | in such a run an unforced stop, waited for or not, destroys the pool only after every accepted task has run exactly once, each group in push order |
| `PoolInvariants.ShutdownTest` | libdoipstack/ne_doip_threadpool.c:592-620 | group length equals minus the thread count exactly when nothing is queued and every thread waits |
| `PoolCore.TakeIsOldestOfGroup` | libdoipstack/ne_doip_threadpool.c:657-674 | taking the oldest eligible task takes the oldest task of its group and leaves all other groups alone |
| `PoolCore.EligibleAfterRun` | libdoipstack/ne_doip_threadpool.c:657-674 | starting a task uses up exactly one eligible group |
| `PoolExact.StrandsIffTimed` | libdoipstack/ne_doip_threadpool.c:685-700 | for every maximum of threads: a run without refused threads that ends with a queued task, a running pool and no thread exists exactly if waits are timed |
| `PoolExact.DrainHangsIffTimed` | libdoipstack/ne_doip_threadpool.c:294-340 | a graceful stop can wait for a queued task with no thread left exactly if waits are timed |
| `PoolExact.OrderKeptIffGrouped` | libdoipstack/ne_doip_threadpool.c:657-674 | tasks of group g finish in push order in every run exactly if g is not 0 |
| `PoolForced.ForcedStopHangsIff` | libdoipstack/ne_doip_threadpool.c:166-212 | from any state of a forced stop whose caller waits: a continuation that is stuck for good exists exactly if waits are untimed and both waiters and queued tasks outnumber the waiters certain to leave |
| `PoolForced.ForcedCallHangsIff` | libdoipstack/ne_doip_threadpool.c:294-340 | the same, read off the state at the call of free with both flags |
| `PoolForced.CallerCanCheck` | libdoipstack/ne_doip_threadpool.c:294-340 | the fields under the lock alone give a condition at the call under which the stop never hangs |
| `PoolForced.QuietStopIsStuckIff` | libdoipstack/ne_doip_threadpool.c:307-322 | once no worker moves by itself, the caller may go exactly unless a waiter sleeps beside a queued task |
| `PoolLimits.ExpiryStrandsTask` | libdoipstack/ne_doip_threadpool.c:685-700 | for every maximum of threads, a timed run that strands an accepted task |
| `PoolLimits.ExpiryHangsDrain` | libdoipstack/ne_doip_threadpool.c:294-340 | and one whose graceful stop then hangs |
| `PoolLimits.ForcedStopHangs` | libdoipstack/ne_doip_threadpool.c:166-212 | a run in which a forced, waiting free never returns |
| `PoolLimits.ZeroIdOvertakes` | libdoipstack/ne_doip_threadpool.c:657-674 | a run in which the second of two tasks of id 0 finishes while the first runs |
| `ThreadPool.Pool.QueueGroupLength` | libdoipstack/ne_doip_threadpool.c:592-620 | the scratch-array count is queued groups minus waiters |
| `ThreadPool.Pool.QueueValidTask` | libdoipstack/ne_doip_threadpool.c:657-674 | finds the oldest task whose id is not marked |
| `ThreadPool.Pool.QueueIdInPool` | libdoipstack/ne_doip_threadpool.c:443-464 | true exactly when a task of that nonzero id runs or is queued |
| `ThreadPool.Pool.QueuePushUnlocked` | libdoipstack/ne_doip_threadpool.c:634-654 | appends the task; signals exactly if its id is idle and somebody waits |
| `ThreadPool.Pool.ThreadpoolPush` | libdoipstack/ne_doip_threadpool.c:342-392 | the push step: refusals, thread creation, counters and return value |
| `ThreadPool.Pool.StartThread` | libdoipstack/ne_doip_threadpool.c:223-242 | starts a thread only below the maximum |
| `ThreadPool.Pool.ThreadpoolWakeupStop` | libdoipstack/ne_doip_threadpool.c:134-148 | one stop token for each remaining thread |
| `ThreadPool.Pool.Leave` | libdoipstack/ne_doip_threadpool.c:188-221 | the leaving worker's part of the shutdown |
| `ThreadPool.Pool.LookSection` | libdoipstack/ne_doip_threadpool.c:80-108 | a worker's lock section as a step of the system |
| `ThreadPool.Pool.WakeSection` | libdoipstack/ne_doip_threadpool.c:676-709 | a woken waiter's lock section |
| `ThreadPool.Pool.ExpiredSection` | libdoipstack/ne_doip_threadpool.c:685-700 | an expired waiter's lock section |
| `ThreadPool.Pool.CompleteTask` | libdoipstack/ne_doip_threadpool.c:166-184 | the bookkeeping after a task returned |
| `ThreadPool.Pool.FreeAgain` | libdoipstack/ne_doip_threadpool.c:294-340 | what a woken caller of free does |
| `ThreadPool.Pool.ThreadpoolFree` | libdoipstack/ne_doip_threadpool.c:294-340 | the free step |
| `RoutingTheorems.SocketBound` | libdoipstack/ne_doip_server.c:490-496 | guarded, 1 <= mcts <= 254: at most mcts+1 open and mcts registered sockets after every run |
| `RoutingTheorems.AcceptCapIff` | libdoipstack/ne_doip_server.c:490-496 | the open sockets stay within mcts+1 over all runs exactly if mcts <= 254 |
| `RoutingTheorems.ActiveMeansAuthorised` | libdoipstack/ne_doip_server_manager.c:2531-2562 | guarded: after every run every pending or active connection is registered, and one that is active or awaits confirmation sent the configured value, unless that is 0 |
| `RoutingTheorems.ActivationIsLegitimate` | libdoipstack/ne_doip_server_manager.c:4237-4273 | guarded: an event activates a connection only if the registered entity wants no confirmation, or as a PASS or NO_CON answer while it was pending; takeover is no exception |
| `RoutingTheorems.NoActivationWithoutAuthority` | libdoipstack/ne_doip_server_manager.c:2482-2562 | the same over whole runs: every active connection was activated by a legitimate event of the run and has been active ever since, so it is the connection of that event though fds are reused |
| `RoutingUnique.UniquenessIff` | libdoipstack/ne_doip_server_manager.c:2686-2790 | guarded: an event keeps tester addresses unique exactly if it is not the clashing request |
| `RoutingUnique.AddressesUniqueIffOrderly` | libdoipstack/ne_doip_server_manager.c:2686-2790 | guarded: over a whole run addresses are unique in every state exactly if no event clashes |
| `RoutingUnique.TesterAddressesAreUnique` | libdoipstack/ne_doip_server_manager.c:2686-2790 | guarded: nonzero addresses are unique over every run without an orphaned waiter |
| `RoutingUnique.UnguardedIntrusion` | libdoipstack/ne_doip_server_manager.c:2740-2743 | without the guard, a run that activates a second, unauthenticated holder of an address |
| `RoutingUnique.AuthorityIffGuarded` | libdoipstack/ne_doip_server_manager.c:2726-2757 | with authentication configured, all runs are authorised exactly if the handler is guarded |
| `RoutingOrphan.OrphanDuplicatesAddress` | libdoipstack/ne_doip_server_manager.c:2686-2692 | a guarded run that ends with two holders of one address |
| `RoutingRound.AllSocketRound` | libdoipstack/ne_doip_server_manager.c:2760-2781 | in any order of answers and timeouts: refused with 0x01 and closed exactly if all answer, registered and never refused exactly if one times out, counter back to zero |
| `RoutingRound.RoundEnds` | libdoipstack/ne_doip_server_manager.c:4687-4713 | the same from any state in the middle of a round |
| `RoutingSingle.SingleCheckDecides` | libdoipstack/ne_doip_server_manager.c:2722-2739 | a contested address stays with its holder if the holder answers (newcomer refused with 0x03 and closed) and goes to the newcomer, registered, with the holder closed, if it does not |
| `RoutingAnswers.AnswerTellsState` | libdoipstack/ne_doip_server_manager.c:2564-2793 | guarded: the one message a request adds and the state afterwards determine each other: closed and 0x00, 0x06 or 0x02 for the stated reasons, 0x10 and active, user asked and pending, 0x04 and unauthenticated, or others asked and unchanged |
| `RoutingFigure.RefusedOrAdmitted` | libdoipstack/ne_doip_server_manager.c:2564-2793 | a request of proper length, by its fields alone: an address outside the permitted ones, a type of 0x02 to 0xDF, or another address than the registered one closes the connection with 0x00, 0x06 or 0x02, in this order; if a place is free it is registered, and told 0x04 exactly if a value is configured and the sent one, 0 for length 7, differs; otherwise the user is asked or it is activated with 0x10 |
| `RoutingFigure.OthersAreAsked` | libdoipstack/ne_doip_server_manager.c:2722-2781 | if the address is taken its holder is asked whether it is alive, and without the guard the newcomer is activated instead; if all places are taken every registered connection is asked; the newcomer is not registered meanwhile |
| `RoutingFigure.AskedAreRegistered` | libdoipstack/ne_doip_server_manager.c:2760-2781 | each registered connection is asked, once, and no other |
| `RoutingFigure.WrongLengthIsRefused` | libdoipstack/ne_doip_server_manager.c:2564-2572 | another length than 7 or 11 gets a header refusal and changes nothing |
| `RoutingFigure.NoEntityNoVerdict` | libdoipstack/ne_doip_server_manager.c:2549-2561 | while no entity is registered a request is told no verdict |
| `RoutingFigure.TakeOverIsJudged` | libdoipstack/ne_doip_server_manager.c:4687-4713 | a connection that takes a place over is judged by the information of its own request, as if it had just asked |
| `RoutingFigure.SilentHolderYields` | libdoipstack/ne_doip_server_manager.c:4657-4714 | a silent holder: the newcomer is admitted under its address, judged, and the holder closed |
| `RoutingFigure.SilentSocketAdmits` | libdoipstack/ne_doip_server_manager.c:4657-4714 | the first silent connection of a round: the one that waits is admitted and judged, the silent one closed |
| `RoutingFigure.StrayAnswer` | libdoipstack/ne_doip_server_manager.c:2795-2884 | an alive check response of a wrong length is refused, one for an unknown address ignored, one that nobody asked for only stops the timer |
| `RoutingFigure.UserDecides` | libdoipstack/ne_doip_server_manager.c:4237-4280 | while the answer is pending: passed activates with 0x11, not needed with 0x10, anything else is told 0x05 and changes nothing; otherwise it is ignored |
| `RoutingFigure.UserIsIgnored` | libdoipstack/ne_doip_server_manager.c:4230-4237 | without an entity, or for an address that nobody holds, the answer is ignored |
| `RoutingFigure.AcceptedIff` | libdoipstack/ne_doip_server.c:464-557 | a new connection is taken exactly while an edge gateway's activation line is active and the open sockets, in eight bits, are at most mcts |
| `RoutingFigure.DropTakesOne` | libdoipstack/ne_doip_server.c:1507-1559 | closing takes exactly that connection off both lists |
| `RoutingCode.Manager.FindByFd` | libdoipstack/ne_doip_server_manager.c:99-108 | the first entry of that fd |
| `RoutingCode.Manager.FindByLogicAddress` | libdoipstack/ne_doip_server_manager.c:111-120 | the first entry of that address |
| `RoutingCode.Manager.RegistFdCount` | libdoipstack/ne_doip_server_manager.c:135-145 | the registered sockets in eight bits |
| `RoutingCode.Manager.ListLength` | libdoipstack/ne_doip_util.c:49-63 | the open sockets in eight bits |
| `RoutingCode.Manager.ServerDisconnect` | libdoipstack/ne_doip_server.c:1510-1559 | client and table entry go together, or nothing changes |
| `RoutingCode.Manager.CheckConfirmation` | libdoipstack/ne_doip_server_manager.c:2482-2529 | pending and asked, or active and answered |
| `RoutingCode.Manager.CheckAuthentication` | libdoipstack/ne_doip_server_manager.c:2531-2562 | the authentication step |
| `RoutingCode.Manager.UnpackRoutingActivationReq` | libdoipstack/ne_doip_server_manager.c:2564-2793 | the whole handler of Figure 13 with its error answers |
| `RoutingCode.Manager.CheckAllAlive` | libdoipstack/ne_doip_server_manager.c:2760-2781 | asks and marks exactly the registered connections |
| `RoutingCode.Manager.UnpackAliveCheckRes` | libdoipstack/ne_doip_server_manager.c:2795-2884 | the answer step, 8-bit count included |
| `RoutingCode.Manager.AliveCheckTimerCallback` | libdoipstack/ne_doip_server_manager.c:4657-4714 | the timeout step, which always ends by closing the silent connection |
| `RoutingCode.Manager.UserConfResult` | libdoipstack/ne_doip_server_manager.c:4237-4280 | the confirmation step |
| `RoutingCode.Manager.TcpSocketData` | libdoipstack/ne_doip_server.c:464-557 | the accept step |
| `DiagDelivery.ServerDelivers` | libdoipstack/ne_doip_server_manager.c:3780-3812 | any good messages, cut into reads in any way within the bounds: every node is sent exactly its frames, in order, and the connection ends clean |
| `DiagDelivery.ReadDelivers` | libdoipstack/ne_doip_server_manager.c:4115-4127 | each read pays exactly what it brings: written plus still owed is constant |
| `DiagDelivery.HeaderStep` | libdoipstack/ne_doip_server_manager.c:3956-3975 | a header forwards the piece in the read behind kind, total length and address type |
| `DiagPieces.MessageArrivesIff` | libdoipstack/ne_doip_server_manager.c:2917-2990 | a message arrives unharmed exactly if no later read is below eight bytes, the first read holds the header alone or at least five bytes more, and no fail flag, stale or set by an empty first piece, meets a middle piece |
| `DiagPieces.WholeMessageArrivesIff` | libdoipstack/ne_doip_server_manager.c:3956-3975 | a whole message arrives exactly if the bytes at its 8-bit payload position are its payload, which holds below offset 248 |
| `DiagRefusals.ForwardedIff` | libdoipstack/ne_doip_server_manager.c:2982-3080 | a first piece reaches a node exactly if power mode is ready, routing active, the source the registered address, the target known, the message within the data size and the piece of 5 to 1504 bytes; then that node, as the frame of the whole message, with an acknowledgement |
| `DiagRefusals.RefusedBecause` | libdoipstack/ne_doip_server_manager.c:2982-3080 | every other first piece is refused for its first failing reason, with that reason's code, fail flag and closing |
| `DiagRefusals.FirstIsCounted` | libdoipstack/ne_doip_server_manager.c:2969-2980 | refused or not, a first piece is counted: the message is over with it or waits for its rest |
| `DiagRefusals.RefusedForwardsLast` | libdoipstack/ne_doip_server_manager.c:2917-2966 | of the rest of a refused message exactly the last piece is forwarded, to the node of an earlier message, and the refusal is forgotten with it |
| `DiagRefusals.HeaderJudged` | libdoipstack/ne_doip_server_manager.c:3814-3890 | a header is refused for version, type or length, in this order, with 0x00, 0x01 or 0x02 |
| `DiagRefusals.RefusedIsSkipped` | libdoipstack/ne_doip_server_manager.c:3866-3886 | where parsing goes on after a refused header: behind the message exactly if more than eight bytes follow it |
| `NodeDelivery.NodeDelivers` | libdoipstack/ne_doip_node_manager.c:149-285 | any frames, cut into reads within the bounds: the application puts together exactly the payloads; position is the running sum and the total on the last piece, addresses and totals are right |
| `NodeDelivery.ReadAdvances` | libdoipstack/ne_doip_node_manager.c:360-390 | node and application advance together by each read |
| `NodeDelivery.FrameIndicatedIff` | libdoipstack/ne_doip_node_manager.c:212-235 | a frame is indicated exactly if it starts its read or lies wholly in it |
| `NodeDelivery.NoticeRoundTrip` | libdoipstack/ne_doip_node_manager.c:287-351 | a packed confirmation request or send confirmation calls back with its addresses, at the addressed node only, and parsing goes on behind it |
| `NodeDelivery.IndicatedIfAddressed` | libdoipstack/ne_doip_node_manager.c:236-285 | a complete first piece is indicated exactly if it names this node or is functional |
| `NodeDelivery.UnknownFrameStops` | libdoipstack/ne_doip_node_manager.c:352-355 | a frame of another kind ends the read and changes nothing |
| `DiagEndToEnd.EndToEnd` | libdoipstack/ne_doip_server_manager.c:1494-1544 | server and node together: the application receives exactly its messages, for every cutting of both streams |
| `DiagAsync.AsyncRefinesSync` | libdoipstack/ne_doip_server_manager.c:4716-4773 | in every interleaving with the pool, what tasks of a nonzero group put out is what direct calls would have put out for the reads handled so far, and for all reads once the tasks have finished |
| `DiagAsync.ReadTakenWhole` | libdoipstack/ne_doip_server_manager.c:3791-3804 | however far the position lags, a read that fits the message is taken whole |
| `DiagAsync.TaskIdIff` | libdoipstack/ne_doip_server_manager.c:3966-3970 | the n-th large message has a group of its own exactly if n is no multiple of 256 |
| `DiagServerCode.Connection.SubDiagnosticToSelf` | libdoipstack/ne_doip_server_manager.c:1494-1544 | the buffer filled at an advancing position is the frame, or the refusal is sent |
| `DiagServerCode.Connection.UnpackDiagnostic` | libdoipstack/ne_doip_server_manager.c:2902-3084 | first or later piece, with every refusal and the fail flag |
| `DiagServerCode.Connection.NetUnpackExec` | libdoipstack/ne_doip_server_manager.c:3780-4073 | one turn of the parse loop |
| `DiagServerCode.Connection.NetUnpackRead` | libdoipstack/ne_doip_server_manager.c:4075-4127 | one read |
| `DiagNodeCode.NodeClient.NodeUnpackExec` | libdoipstack/ne_doip_node_manager.c:149-358 | one turn of the node's parse loop |
| `DiagNodeCode.NodeClient.NodeUnpackRead` | libdoipstack/ne_doip_node_manager.c:360-390 | one read of the IPC stream |
| `Gateway.StoreAndForward` | libdoipstack/ne_doip_server_manager.c:1461-1480 | in every run without an early second request or a refusal, wire plus stored is what arrived, in order; once sending is direct nothing is stored |
| `Gateway.NothingIsLost` | libdoipstack/ne_doip_server_manager.c:1461-1480 | over every polite run from the start, wire plus stored is, in order, every chunk that the events brought from the connecting request on, as read off the events alone; all of it is on the wire once the target has answered, nothing before |
| `Gateway.EarlyRequestKeepsOrderIff` | libdoipstack/ne_doip_server_manager.c:1739-1748 | an early second request keeps the order exactly if every stored chunk equals it |
| `Gateway.RefusalDropsStored` | libdoipstack/ne_doip_server_manager.c:3310-3331 | a refused activation sends nothing and leaves nothing stored |
| `Gateway.Target.SubDiagnosticToOther` | libdoipstack/ne_doip_server_manager.c:1546-1779 | the first chunk for a target |
| `Gateway.Target.EgwPhysRouting` | libdoipstack/ne_doip_server_manager.c:1436-1492 | a further chunk, sent or stored |
| `Gateway.Target.UnpackRoutingActivationRes` | libdoipstack/ne_doip_server_manager.c:3289-3331 | the activation answer drains or clears the queue |
| `DataQueue.QueueManager.Insert` | libdoipstack/ne_doip_data_queue.c:76-107 | append, from every reachable heap |
| `DataQueue.QueueManager.Front` | libdoipstack/ne_doip_data_queue.c:109-135 | take the head, or nothing |
| `DataQueue.QueueManager.Size` | libdoipstack/ne_doip_data_queue.c:60-74 | the sum of the stored bytes |
| `DataQueue.QueueManager.Clear` | libdoipstack/ne_doip_data_queue.c:137-174 | unlinks the leading entries of the fd; frees exactly its entries, linked or not |
| `DataQueue.DropLeadingClears` | libdoipstack/ne_doip_data_queue.c:137-174 | clearing removes every entry of the fd exactly if they lead the queue |
| `DataQueue.DropLeadingAll` | libdoipstack/ne_doip_data_queue.c:137-174 | clearing empties a queue of that fd only |
| `TimerSpec.PlusIsExact` | libdoipstack/ne_doip_util.c:84-110 | adding a period is exact to the nanosecond and keeps the time normal |
| `TimerSpec.InsertSortedStable` | libdoipstack/ne_doip_timer.c:72-94 | insertion keeps the list sorted and stable; the new timer becomes the head exactly if strictly earliest |
| `TimerSpec.InsertHas` | libdoipstack/ne_doip_timer.c:72-94 | insertion preserves all other timers |
| `TimerDrain.DrainInOrder` | libdoipstack/ne_doip_timer.c:153-181 | fires in nondecreasing deadline order, never early, as often as the measure says; only later deadlines are left |
| `TimerDrain.DrainEachExactly` | libdoipstack/ne_doip_timer.c:153-181 | each timer fires and remains exactly as it would on its own |
| `TimerDrain.TicksAre` | libdoipstack/ne_doip_timer.c:162-172 | a due repeating timer fires (now-d)/p+1 times, the k-th k periods after the first, without drift |
| `TimerDrain.SleepsUntilEarliest` | libdoipstack/ne_doip_timer.c:173-185 | the sleep ends exactly at the earliest deadline left, and is endless exactly if none is |
| `TimerDrain.DrainEndsIff` | libdoipstack/ne_doip_timer.c:153-181 | the loop ends exactly if every due repeating timer has a positive period |
| `TimerIds.IdsAreDistinctAndFresh` | libdoipstack/ne_doip_timer.c:205-272 | over any run: live ids distinct, in 1..255, marked; a returned id is fresh; 0 only for a negative period or a full table; the list stays sorted |
| `TimerIds.EndKeepsIdsIff` | libdoipstack/ne_doip_timer.c:162-172 | putting a fired timer back keeps this exactly if it was not stopped while set to repeat |
| `TimerIds.IdsThroughoutIffOrderly` | libdoipstack/ne_doip_timer.c:153-181 | over a whole run the ids are in order in every state exactly if no fired timer is put back so |
| `TimerIds.StoppedRepeatDuplicates` | libdoipstack/ne_doip_timer.c:162-172 | a run that gives two live timers one id |
| `TimerEffects.StartLists` | libdoipstack/ne_doip_timer.c:221-249 | a start adds exactly one timer, due a period from now, under the returned id, and marks that id; with id 0 nothing happens |
| `TimerEffects.StopUnlists` | libdoipstack/ne_doip_timer.c:252-273 | a stop gives back exactly this id and leaves every other timer |
| `TimerEffects.RestartReplaces` | libdoipstack/ne_doip_timer.c:275-305 | a restart replaces exactly the listed timer of that id, due a period from now |
| `TimerEffects.FiringTakesHead` | libdoipstack/ne_doip_timer.c:153-161 | a firing begins exactly when none is under way and some timer is due, and takes the earliest |
| `TimerEffects.FiringEnds` | libdoipstack/ne_doip_timer.c:162-172 | after the callback the timer is listed again, one period later, exactly if it is set to repeat |
| `TimerCode.TimerManager.NextId` | libdoipstack/ne_doip_timer.c:44-57 | the smallest unmarked id, 0 if all are marked |
| `TimerCode.TimerManager.AddRequest` | libdoipstack/ne_doip_timer.c:72-94 | sorted insertion; signals exactly if the timer is the earliest |
| `TimerCode.TimerManager.Start` | libdoipstack/ne_doip_timer.c:221-249 | marks and inserts, or returns 0 and changes nothing |
| `TimerCode.TimerManager.Stop` | libdoipstack/ne_doip_timer.c:252-273 | gives the id back and removes its timer |
| `TimerCode.TimerManager.Restart` | libdoipstack/ne_doip_timer.c:275-305 | moves the timer to its new place under its id; signals exactly if it becomes the earliest |
| `TimerCode.TimerManager.DrainDue` | libdoipstack/ne_doip_timer.c:153-185 | the drain loop, and the sleep it computes |
| `SelectSpec.RegistryAgrees` | libdoipstack/ne_doip_select.c:262-337 | after any operations a bit is set exactly if the one event listed for the fd asks for it, and max_fd bounds all |
| `SelectSpec.AddLists` | libdoipstack/ne_doip_select.c:262-301 | an add lists the event as given under its fd, unless the fd is listed |
| `SelectSpec.DelUnlists` | libdoipstack/ne_doip_select.c:303-337 | a delete takes exactly the events of the fd off the list |
| `SelectSpec.ModRelists` | libdoipstack/ne_doip_select.c:128-153 | a modification replaces exactly the event of the fd |
| `SelectSpec.ModReplaces` | libdoipstack/ne_doip_select.c:128-153 | a modification makes the new event the fd's and leaves all others |
| `SelectSpec.ReportsInOrder` | libdoipstack/ne_doip_select.c:203-236 | reports strictly increasing, listed descriptors with their event and the ready flags |
| `SelectSpec.DispatchReportsIff` | libdoipstack/ne_doip_select.c:155-241 | whatever changes while select waits, an fd is reported exactly if ready, below length, and still listed as an ordinary event |
| `SelectCode.Select.AddEvent` | libdoipstack/ne_doip_select.c:262-301 | list, bits, max_fd and return value of add |
| `SelectCode.Select.DelEvent` | libdoipstack/ne_doip_select.c:303-337 | list, bits and return value of delete |
| `SelectCode.Select.ModEvent` | libdoipstack/ne_doip_select.c:128-153 | delete, then add |
| `SelectCode.Select.FindEvent` | libdoipstack/ne_doip_select.c:339-356 | the event listed for the fd |
| `SelectCode.Select.Collect` | libdoipstack/ne_doip_select.c:203-236 | the scan fills the caller's array with exactly the reports |
| `IpcReplies.ReplyRoundTrip` | libdoipstack/ne_doip_client_manager.c:264-455 | unpacking gives back every packed field, to the addressed tester only |
| `IpcReplies.ReplyCodes` | libdoipstack/ne_doip_def.h:58-68 | the first byte of each packed reply, and its length behind it |
| `Wire.ByteOrder` | libdoipstack/ne_doip_util.c:137-154 | which byte of a number comes first: network order, and the least significant first where the code copies an int |
| `IpcReplies.ReadIsHeard` | libdoipstack/ne_doip_client_manager.c:457-487 | a read makes the application hear exactly the whole replies in it, in order |
| `IpcReplyCode.PackRoutingActivationRes` | libdoipstack/ne_doip_server_manager.c:875-938 | the filled buffer is the packed reply; a response code above 0x11 writes nothing |
| `IpcReplyCode.PackEntityStatusRes` | libdoipstack/ne_doip_server_manager.c:1155-1209 | the filled buffer is the packed reply |
| `IpcReplyCode.PackDiagnosticAck` | libdoipstack/ne_doip_server_manager.c:2110-2234 | the filled buffer is the packed acknowledgement or refusal; a refusal code outside 0x02..0x08 writes nothing |
| `IpcReplyCode.TestEquip.EquipUnpackExec` | libdoipstack/ne_doip_client_manager.c:264-455 | one reply, or stop at one that is cut off |
| `IpcReplyCode.TestEquip.EquipUnpack` | libdoipstack/ne_doip_client_manager.c:457-487 | the parse loop of the client |
| `RingList.Insert` | libdoipstack/ne_doip_util.c:31-38 | links an element in right behind the given one |
| `RingList.Remove` | libdoipstack/ne_doip_util.c:40-47 | unlinks an element and leaves the others in order |
| `RingList.Length` | libdoipstack/ne_doip_util.c:49-63 | the number of elements in eight bits |
| `RingList.InsertList` | libdoipstack/ne_doip_util.c:71-82 | splices all elements of another ring in behind the head |

## Left out

- Sockets, TCP and UDP sends, epoll, interface lookup and the IPv6 copies of the handlers: foreign calls; a write appends to an output sequence and is taken to succeed.
- Configuration files, logging, real clock reads and random values: the configuration is a constant record, a clock reading a parameter.
- Vehicle announcement, identification and entity status over UDP: message emission without state worth an invariant.
- Functional addressing: the fan-out repeats the physical path for each node.
- The table of equipment connections, other than the queue and step of one gateway target: the removal of a target on disconnect is not modelled.
- Allocation failures, and unsigned overflow of message sizes near 4 GiB.
- The ring list under the tables is modelled on its own (`RingList`); the tables, timers and select events that use it are sequences, so aliasing between tables is not captured.
- The pool's `running`, `immediate` and `waiting` flags are read under the lock: push's and free's test of `running` is taken as atomic with the lock.
- The timer's signal flag and condition are guarded by different locks; no liveness is claimed for the sleeping thread.
- ThreadPool.Pool.Leave: the destruction of the pool itself is a step of `PoolSystem`, not part of the method.
- PoolGrowth.PoolGrowsWithWork: no wait has expired and no thread was refused so far; `PoolExact.StrandsIffTimed` says what expired waits can do.
- PoolEnding.StopEndsInDestruction: the same; a caller that never returns is the subject of `PoolForced.ForcedStopHangsIff` and `PoolExact.DrainHangsIffTimed`.
- TimerDrain.DrainInOrder: one clock reading holds for the whole drain, though the code reads the clock in each turn, and callbacks leave the list alone; `TimerIds` covers callbacks that start, stop and restart timers.
- TimerDrain.SleepsUntilEarliest: assumes deadlines at most 2^31-1 ms ahead, which periods of C type `int` give.
- RoutingRound.AllSocketRound: one round at a time, with an entity registered and no unrelated disconnect, as the handler keeps a single counter for all rounds.
- RoutingTheorems.ActiveMeansAuthorised: an authentication value of 0 in the configuration accepts every request, as in the code.
- RoutingCode.Manager.UnpackAliveCheckRes: with no entity registered the code dereferences a null pointer; the model sends no response.
- RoutingCode.Manager.TcpSocketData: client and table entry are inserted in one step, and the new fd is not in use.
- DiagDelivery.ServerDelivers: power mode ready, routing active, right source address and known physical target; the refusals are in `DiagServer.FirstPiece` and are part of `DiagServerCode.Connection.UnpackDiagnostic`.
- DiagServerCode.Connection.NetUnpackRead: after a read that ended right behind a header, a read of more than 1494 bytes is excluded, because the code then fills its 1500-byte buffer beyond its end; what it would do is not defined.
- DiagServerCode.Connection.SubDiagnosticToSelf: chunks of 1495 to 1504 bytes are excluded for the same reason.
- DiagServerCode.Connection.UnpackDiagnostic: the branches for functional addresses, for a gateway's other targets and for answers of equipment connections are not modelled; `Gateway` has the gateway's queue on its own.
- DiagServerCode.Connection.NetUnpackExec: payload kinds other than diagnostic messages are a marker here; routing activation and alive check are `RoutingCode`.
- DiagPieces.MessageArrivesIff: the whole header lies in the first read, as for all parsing of headers here.
- Gateway.Target.SubDiagnosticToOther: a chunk is what goes on the wire, so the two addresses that the code writes over the tester's, and the activation request it sends on a new connection, are not modelled; nor is the refusal when no entity is registered.
- DiagAsync.AsyncRefinesSync: one large message in flight, no refused push, and no byte of the next message read before the last task ran.
- Gateway.StoreAndForward: one message for the target until it answers; `Gateway.EarlyRequestKeepsOrderIff` says what happens otherwise.
- IpcReplies.ReadIsHeard: a reply that is cut off must show its five header bytes in the read.
- RingList.InsertList: the emptied head keeps its stale links, as in the code.
