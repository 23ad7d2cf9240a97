# Eurus: a verified model

Eurus pins WebSocket sockets to service instances through gateways. This project models the state its gateways,
services and NATS transport share, and the protocols between them, and proves what keeps a socket with its instance,
its messages in order and its closing final.

Each component has a machine or a set of operations on values, and the code that works in place on fields is a class
whose methods are proved against it.

- `DispatchModel`, `SocketDispatcher`: the per-socket dispatcher as interleaved atomic steps, and its code. Workers are
  draining until they have deleted their key, then exiting until they call Done.
- `IndexModel`, `IndexAgreement`, `IndexPinning`, `IndexBalance`, `GatewayServiceIndexer`: the service index, the
  agreement of its four structures over runs, pinning, least-connections balance, and the class.
- `GatewayModel`, `GatewayPins`, `GatewayLeaks`: the socket table with competing closers and concurrent Handle calls, how
  calls end, and what they can leave behind.
- `HandleModel`, `HandleRuns`, `HandleRetries`, `Gateway`: one Handle call on its own, as a run of the gateway, its
  retries among all the others, and the gateway's handlers.
- `Freshness`: announcing, re-announcing and pruning in time, over the index.
- `ServiceModel`, `Heartbeat`, `Service`, `SystemModel`: connections, tombstones and delayed callbacks; batched
  heartbeats; the service class; gateways, network and service together.
- `DeliveryModel`, `OpenConnection`, `MailboxModel`, `Connection`: from the dispatcher through chunk transfers that may
  fail to the bounded mailboxes of a socket's successive connections, and the connection class.
- `ChunkModel`, `MessagePump`, `MessageServer`, `SendModel`: the chunk protocol, the acks of the pump, the pump loop and
  the sender, and all of them together over a network that loses and delays.
- `LifecycleModel`, `Lifecycle`: the run lifecycle.
- `Sequences`: facts about sequences.

Interleavings are sequences of actions that each name the goroutine taking them, in any order the enabling conditions
allow. `Steps` relates a state to one a run reaches from it; `Trace` lists every state on the way, for what speaks of
several points of a run. In `SocketDispatcher`, `MessageServer` and `Lifecycle` the proof of a method lets other
goroutines take any steps where it runs without the lock (`Interfere`, `WorkersRun`). The methods of `Gateway.Router` and
`Service.ServiceConnections` run by themselves; how they interleave is in `GatewayModel`, `ServiceModel` and `SystemModel`.
Clocks, the answers of the network and of instances, and route matching are parameters.

## Assumptions and limits found

- An instance ID belongs to one service name and an indexed descriptor starts without sockets; `SetAgrees` and
  `DuplicateIdSplitsListings` show that both are needed.
- A service may be named "" (service.go does not refuse it). Unsetting its instance then leaves mappings behind
  (`EmptyNameDangles`, `UnsetAgrees`), and the retry loop gives up after one failure instead of trying the others
  (`RetryMovesOn`); `HandleAgrees` and `HandleRemovesFailed` cover both kinds of name.
- README.md:247 promises that every message goes to the same instance until the connection closes. The code removes an
  instance when any socket's delivery to it fails (gateway.go:313), and the other sockets pinned to it are mapped
  afresh; `PinStable` says exactly what ends a pin and `UnsetRemapsOthers` exhibits this case.
- README.md:469-470 promises one heartbeat request per gateway regardless of the number of connections. The code
  sends one per 4096 sockets (`BatchCount`).
- transport.go:45-47 promises that an error of MessageService means that the message was not delivered. An ack, or the ack
  of the last chunk, can be lost or late (transport/natstransport/message.go:186-188), so that the message is run all
  the same (`LostAckHidesDelivery`, `ErrorYetHeld`). Handle then unsets that instance and sends the message to another
  one, and two have it (`TwoHaveIt`, `WhoHasIt`), or closes the socket as unreachable although one has it.
- A close can leave its socket behind in two ways. If it falls between the registration and the mapping of one Handle
  call, the socket stays mapped with nobody to unmap it (`SplitHandleLeaks`). If it falls before the registration of a call
  that has resolved its service already, the call puts the closed socket back (`ReopenedStays`), and heartbeats report it
  alive from then on. `NothingLeft` and `LeftBehindExact` say that nothing else does.
- A streamed message whose transfer fails after it was accepted, or whose payload does not decode, is dropped without
  closing anything (transport/natstransport/message-service.go:89-104), and later messages of the socket are still
  delivered (`FailedTransferSkips`); `ReceivesAll` says that nothing else loses a message on an open connection.
- The onClosed callback deletes whatever connection its socket has by then (service.go:296-300). If it is delayed beyond
  the TTL that is a newer one (`DelayedCallbackOrphans`); `NoOrphanExact` and `PromptCallback` say when it is not.
- A live service survives exactly if lost announcement rounds and re-announcement latency fit into one interval
  (`SurvivalExact`).

## Model

| member | source | states |
|---|---|---|
| DispatchModel.FifoInEveryInterleaving | transport/natstransport/dispatch.go:28-63 | in every interleaving of dispatches and worker steps a socket's accepted work is its executed, then running, then pending work, in order; a key is in `queues` iff one draining worker exists for it; at most queueSize + 1 pieces are outstanding |
| DispatchModel.ApplyInv | transport/natstransport/dispatch.go:28-63 | each atomic step keeps one draining worker per key, the wait group count, conservation and the queue bound, with exiting workers coexisting |
| DispatchModel.WaitGroupCounts | transport/natstransport/dispatch.go:39-56 | the wait group counts draining workers plus workers that deleted their key but have not called Done |
| DispatchModel.WaitMeansDone | transport/natstransport/dispatch.go:65-69 | once the count is zero no queue is left and every socket has executed all it accepted |
| DispatchModel.WorkerStepDecreases | transport/natstransport/dispatch.go:48-63 | every worker step decreases a measure over pending, running and exiting work |
| DispatchModel.DrainsWithin | transport/natstransport/dispatch.go:48-69 | without dispatches a run is no longer than that measure, and while the count is positive some worker step is possible |
| DispatchModel.SocketsIndependent | transport/natstransport/dispatch.go:5-14 | steps for different sockets commute: a slow socket changes nothing another socket can do or see |
| DispatchModel.OnlyOwnSocket | transport/natstransport/dispatch.go:28-63 | a step leaves every other socket's queue, logs and workers unchanged |
| SocketDispatcher.Dispatcher.Dispatch | transport/natstransport/dispatch.go:28-46 | dispatch in place is the atomic step of the machine: accepted, appended to the queue and the log, iff there is room, with a worker started iff there was no queue, else one overflow callback |
| SocketDispatcher.Dispatcher.TakeNext | transport/natstransport/dispatch.go:50-60 | one locked section of run pops the oldest work or deletes the key |
| SocketDispatcher.Dispatcher.Leave | transport/natstransport/dispatch.go:49 | the deferred Done removes the worker and decrements the count |
| SocketDispatcher.Dispatcher.Run | transport/natstransport/dispatch.go:48-63 | the worker loop, with other goroutines stepping at every unlocked point, is a run of the machine that it leaves with its Done; it ends once dispatching stops |
| SocketDispatcher.OthersOnlyAppend | transport/natstransport/dispatch.go:28-63 | while a worker drains a socket nobody else pops that socket's queue |
| IndexModel.FirstWithId | gateway-service-indexer.go:80 | the first instance with the ID, or none |
| IndexModel.LeastLoaded | gateway-service-indexer.go:226-232 | an instance of the list with the fewest sockets |
| IndexModel.StaleIds | gateway-service-indexer.go:155-159 | exactly the IDs of the listed instances never seen or older than the threshold |
| IndexModel.FreshRefs | gateway-service-indexer.go:133-140 | exactly the listed instances seen within the threshold |
| IndexAgreement.EmptyAgrees | gateway-service-indexer.go:18-24 | a new index is in agreement |
| IndexAgreement.LookupFinds | gateway-service-indexer.go:51-58 | under agreement looking an ID up under a name, or in the flat list, finds it iff it is indexed there |
| IndexAgreement.SetAgrees | gateway-service-indexer.go:41-65 | SetServiceDescriptor keeps the four structures in agreement iff it re-announces an instance of that name or brings an unloaded descriptor whose ID no instance has |
| IndexAgreement.SetAnnounces | gateway-service-indexer.go:41-65 | an announcement on an open index leaves one instance of that name and ID with the announced routes and the time; a re-announced one keeps its sockets and place, and nothing else changes |
| IndexAgreement.PickFinds | gateway-service-indexer.go:78-89 | under agreement the search over names finds the one instance with that ID, whatever the iteration order |
| IndexAgreement.UnsetRemoves | gateway-service-indexer.go:73-111 | unsetting removes that instance from both listings and every mapping to it, and changes nothing else |
| IndexAgreement.UnsetMisses | gateway-service-indexer.go:73-111 | unsetting an unknown ID changes nothing |
| IndexAgreement.UnsetAgrees | gateway-service-indexer.go:73-111 | agreement survives an unset iff it does not leave mappings of a service named "" dangling |
| IndexAgreement.MapAdds | gateway-service-indexer.go:221-244 | a new mapping adds exactly one fact to the socket table, to an indexed instance that did not list the socket |
| IndexAgreement.MapExact | gateway-service-indexer.go:207-245 | MapSocket answers the pinned instance, a new one of that service, or none, and changes at most that mapping and that instance, by one appended socket |
| IndexAgreement.MapAgrees | gateway-service-indexer.go:207-245 | MapSocket keeps agreement |
| IndexAgreement.ReleasesExactly | gateway-service-indexer.go:277-288 | UnmapSocket releases the socket from exactly the instances it is mapped to |
| IndexAgreement.UnmapExact | gateway-service-indexer.go:264-292 | UnmapSocket removes exactly the mappings of the socket and the socket from the instances that listed it |
| IndexAgreement.UnmapAgrees | gateway-service-indexer.go:264-292 | UnmapSocket keeps agreement |
| IndexAgreement.UnsetsRemove | gateway-service-indexer.go:178-182 | unsetting a list of IDs removes exactly them, in any order of map iteration |
| IndexAgreement.FreshInOrder | gateway-service-indexer.go:133-140 | the fresh instances come in the order of the list, none twice if none is listed twice |
| IndexAgreement.StaleInOrder | gateway-service-indexer.go:155-159 | the stale IDs come in the order of the list, none twice if none is listed twice |
| IndexAgreement.PruneExact | gateway-service-indexer.go:143-185 | pruning removes precisely the instances older than the threshold with the mappings to them, leaves the rest in order, and reports exactly the sockets that lost a mapping |
| IndexAgreement.CloseAgrees | gateway-service-indexer.go:26-33 | Close keeps agreement |
| IndexAgreement.StepAgrees | gateway-service-indexer.go:26-292 | every operation keeps agreement when it is Sound: a well-announced descriptor, or an unset or prune that leaves no mapping of a service named "" dangling |
| IndexAgreement.RunAgrees | gateway-service-indexer.go:26-292 | every run of well-announced operations from a new index keeps the four structures in agreement, and each of its operations is Sound |
| IndexAgreement.ClosedAbsorbs | gateway-service-indexer.go:26-33 | a closed index is unchanged by every operation and maps nothing |
| IndexAgreement.ReportIsLoad | gateway-service-indexer.go:247-262 | reading the socket table by instance gives each instance's own socketIDs |
| GatewayServiceIndexer.SentOnce | gateway-service-indexer.go:247-262 | with agreement at most one service maps a socket to an ID, so the report lists none twice |
| IndexAgreement.DuplicateIdSplitsListings | gateway-service-indexer.go:51-95 | a run in which one ID under two names makes an unset drop the listings of two different instances |
| IndexAgreement.EmptyNameDangles | gateway-service-indexer.go:97-99 | a run in which a socket of a service named "" stays pinned to an instance that is gone |
| IndexPinning.PinStep | gateway-service-indexer.go:101-292 | an operation ends a pin iff it closes the index, unmaps the socket, unsets that instance or prunes it |
| IndexPinning.PinStable | gateway-service-indexer.go:215-219 | over any run the pair keeps resolving to the same instance, not new, iff no operation of the run broke the pin |
| IndexPinning.UnsetRemapsOthers | gateway-service-indexer.go:101-108 | the limit: after another socket's failed delivery unset the instance, a pinned socket is mapped afresh to a different one |
| IndexPinning.UnmapUndoesMap | gateway-service-indexer.go:207-292 | unmapping a socket right after its first mapping restores the index exactly |
| IndexBalance.MapLoads | gateway-service-indexer.go:226-244 | a new mapping raises exactly one load of that service, a minimal one, by one |
| IndexBalance.MapSpread | gateway-service-indexer.go:226-244 | mapping never raises any service's load spread above max(old spread, 1) |
| IndexBalance.LoadsSum | gateway-service-indexer.go:237-242 | a service's loads sum to the number of sockets mapped to it |
| IndexBalance.EvenLoads | gateway-service-indexer.go:226-232 | loads at most one apart are the floor or the ceiling of their mean |
| IndexBalance.FillsEvenly | gateway-service-indexer.go:207-245 | from unloaded instances, however mappings of several services interleave, every load is floor(k/n) or ceil(k/n) |
| GatewayServiceIndexer.Indexer.constructor | gateway-service-indexer.go:18-24 | a new indexer is the empty index |
| GatewayServiceIndexer.Indexer.Close | gateway-service-indexer.go:26-33 | Close in place |
| GatewayServiceIndexer.Indexer.SetServiceDescriptor | gateway-service-indexer.go:41-65 | in place: an open index then lists, under the name and ID, an instance that offers exactly the announced routes and was seen now; the first descriptor with that ID is refreshed, or the shared object appended to both listings |
| GatewayServiceIndexer.Indexer.UnsetService | gateway-service-indexer.go:67-111 | in place: one outcome of the search, then both listings and the mappings, as the specification says |
| GatewayServiceIndexer.Indexer.DropFromNames | gateway-service-indexer.go:79-89 | the first loop: finds a name holding the ID and drops its first match, or finds that there is none |
| GatewayServiceIndexer.Indexer.EraseMappings | gateway-service-indexer.go:101-108 | the loop over socketToInstance removes exactly the mappings of that service to that ID and entries left empty |
| GatewayServiceIndexer.Indexer.FreshServiceDescriptors | gateway-service-indexer.go:125-141 | the loop returns exactly the fresh descriptors, in order |
| GatewayServiceIndexer.Indexer.PruneStaleServices | gateway-service-indexer.go:143-185 | in place: unsets the stale IDs one after the other and returns each affected socket once |
| GatewayServiceIndexer.Indexer.CollectAffected | gateway-service-indexer.go:163-176 | the nested loops list, without duplicates, exactly the sockets mapped to a stale instance |
| GatewayServiceIndexer.Indexer.MapSocket | gateway-service-indexer.go:207-245 | in place: answers and changes what the specification says |
| GatewayServiceIndexer.Indexer.LeastLoadedOf | gateway-service-indexer.go:226-232 | the scan finds the least-loaded instance of the specification |
| GatewayServiceIndexer.Indexer.UnmapSocket | gateway-service-indexer.go:264-292 | in place: releases the socket everywhere and drops its entry |
| GatewayServiceIndexer.Indexer.ReleaseAll | gateway-service-indexer.go:277-289 | the loop over the socket's services changes exactly the instances the specification releases |
| GatewayServiceIndexer.Indexer.SocketIDsByServiceInstance | gateway-service-indexer.go:247-262 | lists a socket under an ID as often as services map it there |
| GatewayServiceIndexer.Indexer.ResolveService | gateway-service-indexer.go:187-205 | finds a name with an instance serving the path, or no instance serves it |
| GatewayModel.StepInv | gateway.go:205-405 | every critical section of Handle and of the closers keeps one Close per removal, an empty mapping once the index is closed, and a swept table holding just sockets about to be closed |
| GatewayModel.RemovalMakesToken | gateway.go:205-214 | each removal of a socket from the table creates exactly one obligation to close it, and nothing else does |
| GatewayModel.RemovalsMatchCloses | gateway.go:205-405 | in every run the Close calls made and still owed are together the removals, each once |
| GatewayModel.CoverStep | gateway.go:276-282 | a step keeps "mapped implies registered or about to be unmapped" iff it is not a late mapping: a MapSocket of a socket that is neither |
| GatewayModel.MappedIsRegistered | gateway.go:276-282 | over every run that holds at every point iff no step was a late mapping |
| GatewayModel.LateMapIsSplit | gateway.go:255-282 | in every run a late mapping has a cause: after its Handle call registered the socket and before it mapped it, some closer went through with UnmapSocket for that socket |
| GatewayModel.UnsplitIsRegistered | gateway.go:255-282 | so in every run without such a split a mapped socket is registered or about to be unmapped |
| GatewayLeaks.RemovedStaysGoneExact | gateway.go:255-405 | over every run, a socket once taken out of the table is at no point registered again, or mapped without a closer about to unmap it, iff no call registers a socket after its removal and no mapping is late |
| GatewayLeaks.NothingLeft | gateway.go:255-405 | so in a run with no registration after a removal and no split call, a closed socket with no call and no closer left is neither registered nor mapped |
| GatewayLeaks.LeftBehindExact | gateway.go:255-405 | in every run of sound index operations, a closed socket with no call and no closer left is registered iff a call registered it since its last removal, and else pinned to an instance iff a split call pinned it and nothing has broken that pin since |
| GatewayLeaks.ReopenedStays | gateway.go:266-278 | a run in which a close completes between resolving and registering: the closed socket is put back, and stays registered and mapped with no call split |
| GatewayPins.CallEnds | gateway.go:255-322 | in every run of sound index operations, a call that ends was answered without an error by the instance its last MapSocket pinned the socket to, a pin that then holds iff nothing breaks it, or took its socket out of the table with one obligation to close it |
| GatewayModel.SplitHandleLeaks | gateway.go:276-282 | a run with a close between registration and mapping: the socket stays mapped with no registration and no closer |
| GatewayModel.ShutdownLeavesNothing | gateway.go:84-85 | after the index is closed and the table swept, the index stays closed and empty, a registered socket is one an in-flight Handle is about to close, and with none in flight the table is empty |
| HandleModel.FailureDrops | gateway.go:313-315 | a failed delivery drops the instance it went to with everything mapped to it and nothing else, leaving fewer instances; for a service named "" its mappings stay and the socket is stuck on it |
| HandleModel.LoopTries | gateway.go:280-321 | the retry loop asks distinct instances of the service, all but the answering one failed, and a pinned socket only its own; of a service named "" only one, which after failing is asked again |
| HandleModel.HandleAgrees | gateway.go:255-322 | a call keeps the index in agreement iff the service has a name or no other socket was mapped to an instance that failed |
| HandleModel.HandleEnds | gateway.go:255-322 | one call ends acknowledged by exactly one instance, to which the socket is then pinned, or by none and the socket unmapped; each instance of a named service is asked at most once |
| HandleModel.WhoHasIt | gateway.go:280-321 | who has the message after a call: the instance that acknowledged it and every instance whose failure hid that it had arrived; so an acknowledged message is with exactly one instance, and an unacknowledged one with none, iff no failure hid an arrival |
| HandleModel.TwoHaveIt | gateway.go:296-320 | whenever the service has a second instance, a failure that hides an arrival leaves the message with two instances, one of which acknowledged it |
| HandleModel.HandleRemovesFailed | gateway.go:255-322 | exactly the failed instances are removed, and exactly the other sockets' mappings to them, which for a service named "" stay |
| HandleModel.AcknowledgedIff | gateway.go:280-321 | an unpinned socket's message is acknowledged iff some instance would accept, or for a service named "" iff the least-loaded one would, when none answers slow consumer |
| HandleModel.AllFailed | gateway.go:280-321 | an unpinned socket found unreachable has had every instance tried and failed; for a service named "" the least-loaded one |
| HandleModel.SlowStaysIndexed | gateway.go:307-311 | a slow-consumer answer leaves the instance indexed and unmaps the socket |
| HandleModel.RetryMovesOn | gateway.go:313-320 | after a failure the next turn goes to another instance iff the service name is nonempty |
| HandleRuns.HandleIsRun | gateway.go:255-322 | a Handle call by itself, with its registration, turns and close, is a run of the interleaved gateway that ends in what the model of one call says |
| HandleRetries.RetriesBounded | gateway.go:280-321 | among any other Handle calls, prunes and closers, over any stretch of a run without announcements, one call maps its socket at most once more than its service had instances, whatever the service is named, in any index whose two listings agree |
| Gateway.Router.Handle | gateway.go:255-322 | the call goes to a service of which some indexed instance serves the path, registers the socket and has the effect the model says of that service; without one it finds no service and changes nothing |
| Gateway.Router.Route | gateway.go:280-321 | the retry loop terminates with the result of the model |
| Gateway.Router.CloseSocket | gateway.go:387-405 | closes, announces and unmaps a registered socket once, and does nothing for another |
| Gateway.Router.HandleGatewayMessage | gateway.go:185-203 | drops a message to an unregistered socket; a failed send closes, announces and unmaps the socket; otherwise nothing changes |
| Gateway.Router.HandleSocketClosure | gateway.go:205-218 | closes and unmaps a registered socket without announcing it again |
| Gateway.Router.HandleSocketHeartbeats | gateway.go:220-231 | reports exactly the absent sockets, in query order |
| Gateway.Router.HandleServiceAnnouncement | gateway.go:168-183 | indexes a descriptor iff it is for all gateways or names this one; an open index then offers exactly its routes under its name and ID |
| Gateway.Router.PruneTick | gateway.go:360-368 | a tick removes exactly the stale instances and closes and announces, each once, the registered sockets that were mapped to one, which end up unmapped |
| Gateway.Router.CloseAllSockets | gateway.go:372-385 | closes every registered socket once and leaves the table empty; a closed index is unchanged |
| Gateway.Router.Shutdown | gateway.go:84-85 | leaves the index closed and the table empty, every socket closed once |
| Freshness.OmittedIff | gateway.go:337-345 | an announcement omits the instance iff its age exceeds 3 intervals or it is not indexed |
| Freshness.HandleGatewayAnnounce | service.go:221-247 | a service announces again iff the gateway is wanted and its announcement omits the service |
| Freshness.AnnounceStep | gateway.go:337-345 | the first announcement omitting a live instance falls at an age in (3T, 4T] |
| Freshness.AgeBound | gateway.go:352-370 | an instance on time is never older than 4T plus one T per lost round plus the latency |
| Freshness.LiveNeverPruned | gateway.go:329-370 | over every run whose lost rounds and latency fit into one interval a live service stays indexed and its age never exceeds 5T |
| Freshness.LivePinSurvives | gateway.go:329-370 | over such a run every socket pinned to it stays pinned until it is unmapped |
| Freshness.LiveCanBePruned | gateway.go:360-362 | a run in which a live service is pruned whenever losses and latency exceed one interval |
| Freshness.SurvivalExact | gateway.go:329-370 | a live service survives every run iff losses x T + latency <= T |
| Freshness.SilentGone | gateway.go:360-362 | a silent service is gone by the first prune tick after 5T, so within 6T |
| ServiceModel.ApplyInv | service.go:283-358 | every lock section and every connection close keeps connections and tombstones disjoint |
| ServiceModel.RunInv | service.go:283-358 | in every interleaving live connections and tombstones are disjoint |
| ServiceModel.NoRevival | service.go:283-318 | no connection is made or found for a socket closed at t until more than the TTL has passed |
| ServiceModel.PruneForgets | service.go:348-358 | a prune forgets exactly the closes older than the TTL, and a socket is admitted iff its last close is forgotten |
| ServiceModel.NoOrphanExact | service.go:296-300 | over every run no open connection is left out of the table with nobody to close it iff no stale onClosed callback ran |
| ServiceModel.PromptCallback | service.go:296-318 | a callback that runs within the TTL of its close is not stale |
| ServiceModel.DelayedCallbackOrphans | service.go:296-300 | a run in which a delayed callback takes the socket's new connection out of the table |
| Service.CloseOneIsRun | service.go:308-318 | closeConnection is a run of the interleaved machine that leaves the socket with a tombstone and out of the table, its connection closed and owed to nobody, and every other one as it was |
| Service.CloseEveryIsRun | service.go:320-332 | closeAllConnections, in any order, is a run of the interleaved machine that closes every connection of the table and leaves the tombstones and all others as they were |
| Service.ServiceConnections.EnsureConnection | service.go:283-306 | refuses a tombstoned socket, else returns the connection the table then has for this socket: the one it had, or a fresh one of this socket and gateway |
| Service.ServiceConnections.CloseConnection | service.go:308-318 | takes the socket out of the table, sets its tombstone, and closes its connection with this status and reason unless it was closed, and no other |
| Service.ServiceConnections.HandleClose | service.go:296-300 | closes this connection with this status and reason, and no other; the first close runs the callback, later ones change nothing |
| Service.ServiceConnections.CloseAllConnections | service.go:320-332 | closes every connection of the table as stopping, and no other; empties the table and sets no tombstone |
| Service.ServiceConnections.PruneStaleResources | service.go:348-358 | the loop drops exactly the expired tombstones |
| Service.ServiceConnections.GroupByGateway | service.go:377-384 | grouping by gateway loses and repeats no connected socket |
| Service.ServiceConnections.HeartbeatConnections | service.go:377-400 | a round closes the connections of exactly the reported sockets, or all of a gateway that failed to answer, as not responding; it tombstones them at the time and announces each once |
| Service.QuietRound | service.go:377-400 | if the reachable gateways answer every batch from one unchanged table, the connections a round leaves of its snapshot are exactly those registered there |
| Service.NoFalseAlarm | service.go:386-399 | whatever happens to the gateways' tables during a round, a socket of its snapshot that is registered at every answer is not closed and one registered at none is |
| Heartbeat.AnswerHeartbeat | gateway.go:220-231 | the loop reports exactly the absent sockets, in order |
| Heartbeat.Batches | transport/natstransport/socket-heartbeat.go:43-45 | no batch is empty or larger than 4096 |
| Heartbeat.BatchCount | transport/natstransport/socket-heartbeat.go:43-45 | one request per 4096 sockets or part of it, so a single one iff the sockets fit one batch |
| Heartbeat.BatchesCover | transport/natstransport/socket-heartbeat.go:43-50 | the batches joined are the query: nothing lost, repeated or reordered |
| Heartbeat.HeartbeatSockets | transport/natstransport/socket-heartbeat.go:35-69 | the loop returns the joined replies iff every batch was answered, and stops at the first that was not |
| Heartbeat.BatchedIsOneShot | transport/natstransport/socket-heartbeat.go:32-69 | with an unchanged table the joined replies are the in-order filter of absent sockets |
| Heartbeat.ReportedWasAbsent | transport/natstransport/socket-heartbeat.go:43-66 | a socket is reported iff it was absent when a batch holding it was answered |
| SystemModel.ConnectionsRegistered | gateway.go:275-302 | in every run of gateways, network and service, every service connection's socket was registered at its gateway: it still is, or was removed since |
| SystemModel.DeadWasRemoved | service.go:377-400 | in every run a socket the heartbeat closes had been registered at that gateway, and either was absent from its table when its batch was answered or its batch got no reply |
| SystemModel.QuietRound | service.go:377-400 | in every run, once a round's batch is answered and its reported socket closed, with no removal in between, the connection of the snapshot, if it is still there, has its socket registered |
| DeliveryModel.EndToEnd | connection.go:64-92 | in every run, for every connection a socket ever had: what it reads is a prefix of what entered its mailbox, which is exactly the executed messages that went to it, an in-order subsequence of what the dispatcher accepted |
| DeliveryModel.PiecesInOrder | service.go:211-219 | the connections of one socket divide its log among them: each message goes to one of them, and once one went to a later connection none goes to an earlier one |
| DeliveryModel.UntilClosed | connection.go:64-92 | until a close touches the socket, accepted is read plus buffered plus running plus queued plus lost transfers, so at most queueSize + 1 + mailboxSize + lost are unread, and everything executed has entered iff none was lost |
| DeliveryModel.HistoryMeans | transport/natstransport/message-service.go:89-104 | the lost messages are the transfers that failed so far, and a socket counts as closed iff some close of it happened |
| DeliveryModel.NothingMissingExact | transport/natstransport/message-service.go:89-104 | over every run without a close of the socket, its mailbox has received all that was executed at every point iff no transfer of it failed |
| OpenConnection.ReceivesAll | connection.go:64-92 | for every connection of a socket, from its making to the first event that closes it or takes it out of the table: it has received all that was executed since iff no transfer failed, and what was accepted since is read, buffered, running, queued or lost, with at most queueSize + 1 + mailboxSize + lost unread |
| DeliveryModel.FailedTransferSkips | transport/natstransport/message-service.go:89-104 | a run in which a failed transfer leaves a gap: the second accepted message is read, the first never, and nothing closes |
| DeliveryModel.DoInv | service.go:211-219 | every step of dispatcher, transfers, connections, mailboxes, readers and closers keeps one fate per executed message, mailboxes in step with their fates, and the capacity bounds |
| Connection.Conn.constructor | connection.go:39-58 | an empty mailbox of the given size, a negative size counting as 0 |
| Connection.Conn.HandleMessage | connection.go:64-69 | the message enters iff there is room, may be dropped only once closed, and blocks exactly when open and full |
| Connection.Conn.HandleClose | connection.go:71-81 | the first call decides status and reason and runs onClosed, later ones do nothing |
| Connection.Conn.Read | connection.go:83-92 | takes the oldest message, or nothing once closed, canceled or empty |
| Connection.Conn.Write | connection.go:94-100 | a failed write closes the connection |
| ChunkModel.ChunksCarry | transport/natstransport/message.go:112-122 | chunks carry the payload in order in nonempty pieces no larger than the limit, ended by one EOF |
| ChunkModel.JoinedPrefix | transport/natstransport/message.go:112-122 | any prefix of the chunks joins to a prefix of the payload, all data chunks to the whole |
| ChunkModel.StepsInv | transport/natstransport/message.go:112-184 | every step of sender, receiver and network keeps the transfer in lock step |
| ChunkModel.TransferExact | transport/natstransport/message.go:112-184 | when chunks and acks may be lost or delayed but not duplicated, the buffer is always a prefix of the payload, receiver success means the whole payload, and sender success means the receiver has taken every chunk and the EOF |
| ChunkModel.LossFreeCompletes | transport/natstransport/message.go:112-184 | without losses the transfer can always go on, to success on both sides, in five steps a chunk |
| ChunkModel.StreamChunks | transport/natstransport/message.go:112-122 | the loop sends the chunks in order, each after the ack of the one before, and succeeds iff all were acked |
| ChunkModel.ReceiveChunks | transport/natstransport/message.go:159-184 | the loop returns the data joined up to the first EOF, or nothing if a read fails first |
| ChunkModel.RoundTrip | transport/natstransport/message.go:112-184 | what the sender streams, delivered in order, is what the receiver returns |
| ChunkModel.DuplicatedChunk | transport/natstransport/message.go:159-184 | a duplicated data chunk is appended twice, since no index is checked |
| MessagePump.AckDiscipline | transport/natstransport/message.go:207-248 | in every interleaving of pump and workers a request is decided at most one ack: accepted for an inline one iff its work is logged; a rejected one was never logged and stands for one overflow |
| MessagePump.StepsInv | transport/natstransport/message.go:207-248 | every step keeps acks unique and truthful |
| MessagePump.RunsOnce | transport/natstransport/message.go:239-246 | a request runs at most once, on one worker, and was accepted |
| MessageServer.Server.ServeMessages | transport/natstransport/message.go:207-248 | the pump loop, with workers stepping in between, is a run of that machine, and every message it read is answered or owed its answer by a worker |
| MessageServer.Server.ServeOne | transport/natstransport/message.go:232-246 | one turn answers a malformed envelope, a full queue and an inline message itself |
| MessageServer.SenderConcludes | transport/natstransport/message.go:96-108 | for an ack that reaches the sender: it parses without an error iff the work was accepted, and as ErrSlowConsumer iff the queue was full and an overflow was raised |
| SendModel.ErrorYetAccepted | transport/natstransport/message.go:59-184 | in every run of senders, lossy network and instance: a call without an error means that the message was accepted and is all there; a call with one was accepted all the same iff the request was admitted and no ack of it, or not every chunk ack, reached the sender in time |
| SendModel.ErrorYetHeld | transport/natstransport/message.go:59-184 | no error means that the instance has the whole message, slow consumer that it has not, and a failure hides that it has it iff it was inline, admitted and its ack lost or late, or streamed and the receiver acked the end, whose ack was lost or late |
| SendModel.ApplyInv | transport/natstransport/message.go:59-248 | every step of senders, network, pump, workers and transfers keeps the senders, acks and transfers in step |
| SendModel.LostAckHidesDelivery | transport/natstransport/message.go:186-198 | a run in which the instance runs and acks an inline message, and the sender takes it as undelivered |
| MessageServer.SendEnvelope | transport/natstransport/message.go:59-94 | no reply, or an undecodable one, is an error; the slow-consumer text ErrSlowConsumer and any other text a rejection; an empty one success for an inline payload, and for a streamed one iff it names a subject and every chunk is acked in order |
| LifecycleModel.ExclusiveRuns | lifecycle.go:20-101 | in every interleaving at most one run is claimed, cancel and done are set together, and no channel is closed twice |
| LifecycleModel.CloseWaitsForItsRun | lifecycle.go:90-101 | once close has sampled run r, then at every later point of every run it can return iff r has ended, and if it has returned, r has ended and was canceled, whatever later runs do |
| LifecycleModel.CloseWithoutRun | lifecycle.go:98-100 | a close that starts while no run is running is never blocked at any later point of any run, even after a new run has begun |
| LifecycleModel.EndAlwaysPossible | lifecycle.go:72-86 | no other thread can disable the steps of end of a claimed run |
| LifecycleModel.NotYetReady | lifecycle.go:36-86 | after an end nobody finds a ready channel closed until the next markReady |
| LifecycleModel.ReadyStays | lifecycle.go:29-58 | a ready channel once made stays the same until the next end |
| LifecycleModel.CanceledBy | lifecycle.go:62-101 | a run is canceled only by its own end, by a close or interrupt that sampled it, or by its parent context |
| LifecycleModel.DiscardedReadyNeverFires | lifecycle.go:76-78 | a ready channel that end discards unclosed is never closed |
| Lifecycle.RunLifecycle.Begin | lifecycle.go:20-33 | claims the lifecycle iff no run is claimed; a ready channel taken before stays the one of the run |
| Lifecycle.RunLifecycle.MarkReady | lifecycle.go:36-47 | closes the ready channel once |
| Lifecycle.RunLifecycle.ReadyChan | lifecycle.go:51-58 | returns the ready channel, making it if needed |
| Lifecycle.RunLifecycle.End | lifecycle.go:72-86 | with other threads stepping between its parts: ends its own run, which is canceled and whose done channel is closed, in three steps of the machine |
| Lifecycle.RunLifecycle.Interrupt | lifecycle.go:62-69 | with other threads stepping between its parts: the run claimed when it started is canceled |
| Lifecycle.RunLifecycle.StartClose | lifecycle.go:90-98 | with other threads stepping between its parts: cancels the run it sampled and goes to wait for that one |
| Lifecycle.RunLifecycle.FinishClose | lifecycle.go:98-100 | the wait returns once the sampled channel is closed, and the sampled run has then ended |

## Left out

- HandleModel.WhoHasIt: counts instances, not copies; for a service named "" the failed instance is asked again, with the same answer, and may have the message twice.
- GatewayPins.CallEnds: as GatewayLeaks.LeftBehindExact, about a run of sound index operations.
- GatewayLeaks.LeftBehindExact: for runs whose index operations are sound, that is without a second instance of an ID and without mappings of a service named "" left dangling; RemovedStaysGoneExact and NothingLeft are for all runs.
- SendModel.ErrorYetHeld: that the payload of a held message decodes is not part of the model.
- HandleModel.AcknowledgedIff: one Handle call without concurrent index changes, each instance giving one answer per call (an instance of a named service is asked at most once); any answers and concurrent calls are in GatewayPins.CallEnds.
- Freshness.LiveNeverPruned: tickers fire on time; a failed delivery to the instance and shutdown are excluded from the run, since both remove it by design.
- Freshness.SilentGone: as LiveNeverPruned, for an instance that is not announced again.
- ChunkModel.TransferExact: duplicated chunks are excluded; DuplicatedChunk shows why.
- MessagePump.AckDiscipline: acks are those the pump decides on; that one may reach nobody is in SendModel.
- MessageServer.SenderConcludes: only about an ack that reaches the sender; lost and late ones are in SendModel.ErrorYetAccepted.
- MessageServer.Server.ServeMessages: covers the messages read before the subscription ends; the final wait is WaitMeansDone.
- SystemModel.DeadWasRemoved: for a batch without a reply it can only say that the sockets had been registered; the code closes them all.
- SystemModel.QuietRound: one batch and socket at a time; that the batches make up the snapshot is Heartbeat.BatchesCover.
- Connection.Conn.HandleMessage: returns that it would block instead of blocking and meets no waiting Read; both are in DeliveryModel.
- Lifecycle.RunLifecycle.FinishClose: is called once the channel is closed; the waiting itself is in LifecycleModel.CloseWaitsForItsRun.
- Service.ServiceConnections.HeartbeatConnections: no other goroutine steps between its requests and its closes; those runs are in SystemModel.
- Service.NoFalseAlarm: about the sockets of the round's snapshot; other closers acting meanwhile are in SystemModel.
- SocketDispatcher.Dispatcher.Run: ends if only finitely many dispatches come in, since a worker whose queue is refilled for ever does not stop.
- Service.ServiceConnections.HandleClose: a second caller returns at once instead of waiting for the first one's callback.
- GatewayServiceIndexer.Indexer.UnsetService: the lists are sequence values in fields, so the sharing of backing arrays by slices.Delete and append is not modelled.
- SocketDispatcher.Dispatcher.Interfere, Lifecycle.RunLifecycle.Interfere and MessageServer.Server.WorkersRun: stand for arbitrary steps of other goroutines; their contracts matter, their bodies do nothing.
- One Connect call per gateway: a gateway connected again gets a new index.
- Liveness under fair scheduling; only that work left can be done and that it is bounded.
- The order in which Connect and Listen subscribe their streams, errgroup, and context plumbing beyond cancellation.
- Velaros routers, sockets and WebSocket I/O: a socket is its ID, pattern matching a predicate.
- The NATS client and msgpack: requests either come back with a decoded reply or fail.
- LocalTransport, which hands one descriptor object to several gateways: handler maps only.
- Announcement, socket-closure and message publishing files: marshal and publish.
- namespace.go and generate-id.go: character mapping and random IDs, taken as unique.
