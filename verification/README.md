# Horse in Dafny

Horse couples a discrete-event simulation of a network's data plane to a real control plane. This project
models the parts of it whose correctness is not visible from any one function, and proves what they keep
over every input and every run. `dafny verify dfyconfig.toml` checks all of it.

- **Event engine** (`EventQueue`, `EventHandlers`, `EventHandlerObject`, `Engine`, `EngineRuns`). The
  time-ordered list, the handlers that insert events while it is drained, and the two threads that hand
  control back and forth, as a step system with a program counter per thread, the mutex, the mode and the
  data. A run is any interleaving of thread steps, clock ticks and message arrivals.
- **Flow tables and pipeline** (`FlowKey`, `FlowTable`, `FlowTableIndex`, `FlowTableObject`, `FlowStats`,
  `ReplyGrowth`, `Pipeline`). One hash table per mask with lazy expiry, against a plain set of prioritised
  entries from which everything expired is dropped first; the multi-table pipeline with its action set; the
  replies to statistics requests.
- **BGP peer** (`BgpDecision`, `BgpPeer`, `BgpPeerObject`, `BgpRuns`, `BgpHistory`, `BgpNetwork`). The decision
  process, one peer with its tables, its decision one announcement at a time against the decision over all of
  them, and a network of peers with announcements under way.
- **Path search and fat tree** (`Routing`, `FatTree`). The bidirectional search by layers, and the
  stateless numbering and wiring for every even k.
- **Demand estimator** (`Demand`, `DemandMatrix`, `DemandObject`), over reals: the flows, the matrix beside them
  and the test that ends the rounds.
- **Algorithms and codecs** (`Crc32`, `Heap`, `FibCodec`, `PacketCodec`, `PacketBuffer`).
- `Options`, `Sequences`, `Arithmetic` and `Bytes` hold what several of these share.

Where the source changes things in place the model is a class, or a method with loops, proved equal to a
function of the old state; the properties are proved of the functions. Objects stand for the source's
structures: `Scheduler`, `EventHandler`, `Table`, `Buffer`, `Datapath`, `StructuredRouting`, `RouteTable`,
`NeighborTable`, `BgpSpeaker`, `Estimator`, `Crc`, `EventHeap`, `FibMessage`, `FatTreeTopo`.

What the model takes for granted, as the source does:

- The 32-bit divisor computed from a port's speed is not zero, and no port is numbered as a flood
  (`EventHandlers.NodeOk`). Times and counters do not wrap at 64 bits.
- A callback into a node or an application (`EventHandlers.Reply`) never lowers a flow's start time, and an
  application that starts begins its flow at the event's own time.
- A message arrives as one step, stamped with the clock. Arrivals in the two windows between picking an
  event and moving the clock (src/sim/sim.c:154-155 and src/sim/sim.c:212-213) can break the order;
  `EngineRuns.ArrivalSafeIff` gives the exact condition under which they do not, `EngineRuns.UnsafeArrivals`
  a run into each window, and runs are those whose arrivals meet the condition.
- Stored flow keys are canonical, and no two entries of a table share mask and key: adding a flow does not
  look for an existing one (src/net/flow_table.c:155-173).
- The entries a controller installs (`Pipeline.EntryOk`) go to tables below 128 (src/net/datapath.h:26), and
  their write actions are filed under their own kinds (src/lib/action_set.c:18-48).
- Non-output actions are an arbitrary rewriting of the packet's key, passed in as a function.
- BGP paths of the network are read as the peers write them; the multi-exit discriminator (MED) is a number. Paths
  are taken as non-empty: the model gives an empty one the AS 0, where the source raises an error
  (horse/bgp_peer/decision_process.py:147-148).
- In `decision_process_local` one branch returns a list inside a list (horse/bgp_peer/peer.py:187); the model
  returns the flat list.

Where the code and its purpose differ the model follows the code:

- The write-metadata instruction ignores its mask (src/net/datapath.c:112): `Pipeline.WriteMetadataIff` says
  exactly when that agrees with the masked write, `Pipeline.WriteMetadataDiffers` where it does not.
- The out-port loop does not end if a port is numbered as a flood: `EventHandlerObject.LoopEndsIff` and
  `EventHandlerObject.LoopForever`.
- The divisor of the send time is computed in 32 bits (src/lib/netflow.c:521-525): `EventHandlers.TxDivisorIsMbps`
  says exactly for which speeds it is zero.
- An announcement is compared with the first kept route alone, on the ground that there is no need to look at the
  others (horse/bgp_peer/peer.py:148-168). `BgpHistory.BestThroughoutIff` says exactly when this agrees with the
  decision over all accepted announcements, and `BgpHistory.EscapedRoute` and `BgpHistory.OvertakenRoute` show
  announcements for which it does not. The shortest path and the number of routes do not depend on it.
- A route that its neighbour has replaced can stay first in the local table: `BgpHistory.CurrentThroughoutIff`
  says exactly when it does not, `BgpHistory.OutdatedRoute` is an example.
- A statistics request for all tables keeps its buffer from table to table and restarts the size it believes the
  buffer to have (src/net/flow_table.c:274): `ReplyGrowth.AllFitIff` says exactly when every write is inside the
  buffer, `ReplyGrowth.ThirdIsOutside` is a failing input. The handlers clear the request before they serve it
  (src/net/datapath.c:343), so that it asks for all of table 0: `FlowStats.ClearedRequest`.
- The DSCP is written one bit closer to the ECN than it is read (src/lib/netflow.c:223 and
  src/lib/netflow.c:422), and the TCP flags are read (src/lib/netflow.c:451) and never written
  (src/lib/netflow.c:250-257): `PacketCodec.WriteThenReadIff` says exactly which packets survive a round trip,
  `PacketCodec.DscpIsHalved` and `PacketCodec.FlagsAreLost` show two that do not.
- IPv6 headers are written (src/lib/netflow.c:235-245) and not read: `PacketCodec.Ipv6NotRead`.
- The receiver's share is computed in a single pass, since the loop is never told to go on
  (experiments/fat_tree_dc/riplryu/demand.py:73-86): `Demand.ReceiverIsFairIff` says exactly when that is the fair
  share, `Demand.RaisedFlow` shows a flow that is given more than it asks for.

## Model

| member | source | states |
|---|---|---|
| `EventQueue.InsertAt` | src/sim/scheduler.c:48-56 | an inserted event goes directly behind all strictly earlier ones |
| `EventQueue.InsertSorted` | src/sim/scheduler.c:48-56 | insertion keeps the list in order of time |
| `EventQueue.InsertMembers` | src/sim/scheduler.c:48-56 | insertion adds exactly the one event |
| `EventQueue.RemoveSorted` | src/sim/scheduler.c:59-65 | deletion keeps the list in order of time |
| `EventQueue.RemoveMembers` | src/sim/scheduler.c:59-65 | deletion removes exactly one occurrence of the event |
| `EventQueue.SortedTimesUnique` | src/sim/scheduler.c:13-20 | two sorted lists of the same events agree on the time at every position, whatever the order of equal times |
| `EventQueue.Scheduler.Schedule` | src/sim/scheduler.c:48-56 | the loop through the list inserts in place and keeps it sorted |
| `EventQueue.Scheduler.Delete` | src/sim/scheduler.c:59-65 | the loop through the list unlinks one occurrence and nothing else |
| `EventQueue.Scheduler.Dispatch` | src/sim/scheduler.c:75-85 | takes out an event none of the others precedes |
| `EventHandlers.TxDivisorIsMbps` | src/lib/netflow.c:521-525 | the 32-bit divisor is the speed in whole megabits exactly up to 4294967 kilobits, and zero exactly when the wrapped product is below a million |
| `EventHandlers.ServeEventsPerPort` | src/sim/event_handler.c:68-126 | one event per resulting out-port, for that port, in order of time, none before the flow and none after its new start |
| `EventHandlers.LaunchEventsPerPort` | src/sim/event_handler.c:247-308 | one new live flow and one event per out-port, none before the flow |
| `EventHandlers.ExpandFlood` | src/net/datapath.c:181-190 | a flood in front of the list is replaced by the node's other ports at its end; one flood fewer is left |
| `EventHandlers.FloodPortsMembers` | src/net/datapath.c:181-190 | a flood stands for exactly the node's ports other than the input port |
| `EventHandlers.HandleKeeps` | src/sim/event_handler.c:68-386 | every handler keeps the queue sorted, every pending flow event at or before its flow's start, all pending events, and adds none before the handled one |
| `EventHandlerObject.LoopEndsIff` | src/sim/event_handler.c:68-126 | the out-port loop ends if and only if there is no flood in the list or no port is numbered as a flood |
| `EventHandlerObject.LoopForever` | src/sim/event_handler.c:68-126 | a node with two ports, one numbered as a flood, for which the list is never empty |
| `EventHandlerObject.EventHandler.AfterFlowRecv` | src/sim/event_handler.c:68-126 | the loop ends, schedules exactly the events of the resulting ports and leaves the list empty |
| `EventHandlerObject.EventHandler.HandleRecvNetflow` | src/sim/event_handler.c:128-145 | the queue, live flows and counter become those of `EventHandlers.Handle` |
| `EventHandlerObject.EventHandler.AfterFlowSend` | src/sim/event_handler.c:147-198 | a sent flow arrives at the other end of its link after the latency, and a repeating application starts again a second later, as in `EventHandlers.AfterSend` |
| `EventHandlerObject.EventHandler.HandleSendNetflow` | src/sim/event_handler.c:200-227 | as `EventHandlers.Handle`: a lost flow is not sent on |
| `EventHandlerObject.EventHandler.HandleOfIn` | src/sim/event_handler.c:247-308 | as `EventHandlers.Handle`: one launched flow per out-port of a packet-out |
| `EventHandlerObject.EventHandler.HandleStartApp` | src/sim/event_handler.c:350-386 | as `EventHandlers.Handle`: the flow of a starting application is launched |
| `EventHandlerObject.EventHandler.HandleEvent` | src/sim/event_handler.c:408-411 | dispatch by kind agrees with `EventHandlers.Handle` for every event |
| `Engine.ThreadsStep` | src/sim/sim.c:148-246 | every step keeps the mutex with its owner, the mode with the active thread, and a waiting thread with a reason to wait |
| `Engine.TimesStep` | src/sim/sim.c:139-248 | every step keeps the log sorted, the queue behind it, the clock between, and the last-seen stamps behind the clock |
| `Engine.StepKeepsInv` | src/sim/sim.c:139-248 | the whole invariant is inductive |
| `EngineRuns.EveryRunIsSafe` | src/sim/sim.c:139-248 | in every run events execute in order of time, the queue is not empty before the end, pending flow events are not after their flow, no elapsed-time subtraction underflows, and one thread at a time processes events, the one the mode names |
| `EngineRuns.ClockNeverGoesBack` | src/sim/sim.c:139-248 | the clock does not go back between any two points of a run unless the end came between |
| `EngineRuns.NoDeadlock` | src/sim/sim.c:148-184 | before the end some thread can take a step of its own: no wake-up is lost |
| `EngineRuns.ArrivalSafeIff` | src/sim/sim.c:154-155 | an arrival is followed by no overdue event in any continuation if and only if it does not fall in a window before an earlier clock |
| `EngineRuns.UnsafeArrivals` | src/sim/sim.c:154-155 | runs from a start state into the window of each thread, where a message can arrive that some continuation executes late |
| `FlowKey.NonStrictIffSubsumes` | src/net/flow_table.c:220-241 | for a canonical entry the comparison of masked keys holds if and only if every packet the entry matches is matched by the request |
| `FlowTable.RunSimulates` | src/net/flow_table.c:56-78 | dropping expired entries when they are come across simulates the list that drops all of them first |
| `FlowTable.TableRunConcat` | src/net/flow_table.c:108-356 | runs of lazy steps in order of time join to one run |
| `FlowTable.LazyExpiryIsExact` | src/net/flow_table.c:108-356 | for every sequence of operations and counter updates in order of time each answer is the plain list's, and so are the live entries |
| `FlowTableIndex.SweepForgets` | src/net/flow_table.c:56-78 | a sweep drops exactly the selected expired entries and keeps the index well formed |
| `FlowTableIndex.ModifyStep` | src/net/flow_table.c:243-260 | non-strict modify replaces the instructions of exactly the live subsumed entries |
| `FlowTableIndex.ModifyStrictStep` | src/net/flow_table.c:195-213 | strict modify replaces the instructions of exactly the live entry with the same match and priority |
| `FlowTableIndex.DeleteStep` | src/net/flow_table.c:332-356 | non-strict delete removes exactly the subsumed entries |
| `FlowTableIndex.DeleteStrictStep` | src/net/flow_table.c:312-330 | strict delete removes exactly the entry with the same match and priority |
| `FlowTableIndex.StatsStep` | src/net/flow_table.c:271-298 | what a statistics request leaves is a lazy step that answers with the live subsumed entries |
| `FlowTableObject.Search` | src/net/flow_table.c:108-142 | the loop over the mini tables finds a live match of the highest priority if there is one, and drops only expired entries |
| `FlowTableObject.ModifyPass` | src/net/flow_table.c:243-260 | the loops over mini tables and entries rebuild the index as `FlowTableIndex.ModifyStep` describes |
| `FlowTableObject.ModifyStrictPass` | src/net/flow_table.c:195-213 | the hash lookup rebuilds the index as `FlowTableIndex.ModifyStrictStep` describes |
| `FlowTableObject.DeletePass` | src/net/flow_table.c:332-356 | the loops that delete while they iterate rebuild the index as `FlowTableIndex.DeleteStep` describes |
| `FlowTableObject.DeleteStrictPass` | src/net/flow_table.c:312-330 | the hash lookup rebuilds the index as `FlowTableIndex.DeleteStrictStep` describes |
| `FlowTableObject.InsertEntry` | src/net/flow_table.c:155-173 | a new key in the mini table of its mask adds exactly that entry; masks stay distinct and mini tables non-empty |
| `FlowTableObject.AppendEntry` | src/net/flow_table.c:155-173 | a new mask opens a mini table that holds exactly that entry |
| `FlowTableObject.Table.Find` | src/net/flow_table.c:108-142 | lookup is a lazy step: best live match, last-used stamp, expired entries dropped |
| `FlowTableObject.Table.AddFlow` | src/net/flow_table.c:155-173 | adding is a lazy step that stamps the entry |
| `FlowTableObject.Table.ModifyFlow` | src/net/flow_table.c:262-269 | modify, strict or not, is a lazy step |
| `FlowTableObject.Table.DeleteFlow` | src/net/flow_table.c:358-365 | delete, strict or not, is a lazy step |
| `FlowTableObject.Table.Count` | src/net/datapath.c:151-152 | counting on a live entry changes its two counters and nothing else, as a lazy step |
| `FlowStats.Buffer.Append` | src/net/flow_table.c:286-293 | a write enlarges the buffer when it is believed full, succeeds exactly when its slot is inside, and keeps what the buffer holds |
| `FlowStats.StatsPass` | src/net/flow_table.c:271-298 | the loops report each selected live entry once, behind what the buffer holds, exactly when every write fits |
| `FlowStats.ReportTable` | src/net/flow_table.c:271-298 | one table adds exactly its live subsumed entries, each once, exactly when as many writes fit |
| `FlowStats.TableStats` | src/net/flow_table.c:271-298 | the report of a single table from an empty buffer holds exactly the live subsumed entries, each once |
| `FlowStats.AllTableStats` | src/net/datapath.c:318-330 | a request for all tables succeeds exactly when the tables' numbers of entries fit, and then lists what each table gives in turn |
| `FlowStats.ClearedRequest` | src/net/datapath.c:343-344 | the request that is served asks for every live entry |
| `ReplyGrowth.RoomIsLeast` | src/net/flow_table.c:286-291 | the room is the least power of two that holds the entries |
| `ReplyGrowth.Doubles` | src/net/flow_table.c:286-293 | from at most one entry a table never runs out of room |
| `ReplyGrowth.IsStuck` | src/net/flow_table.c:274-293 | from two entries on a table no longer enlarges the buffer |
| `ReplyGrowth.SettledAt` | src/net/datapath.c:322-326 | the table that fixes the size is the one in which the second entry is reported |
| `ReplyGrowth.AllFitIff` | src/net/datapath.c:322-326 | over all tables every write is inside exactly when the total is at most the room at the end of that table |
| `ReplyGrowth.ThirdIsOutside` | src/net/datapath.c:322-326 | two entries in one table and one in another: the third is written behind the end |
| `Pipeline.WriteMetadataIff` | src/net/datapath.c:112 | overwriting the metadata agrees with the masked write exactly when value and old metadata agree outside the mask |
| `Pipeline.WriteMetadataDiffers` | src/net/datapath.c:112 | an empty mask, under which metadata that should stay is cleared |
| `Pipeline.OrderedAscends` | src/net/datapath.c:82-93 | the action set executes in strictly ascending type order, each action once |
| `Pipeline.ActionSetHoldsLast` | src/lib/action_set.c:18-48 | the set holds an action exactly when some matched entry wrote it and no later one wrote its kind or cleared the set |
| `Pipeline.OrderedExecutes` | src/net/datapath.c:82-93 | what is executed is exactly the actions in force after the matched entries, in strictly ascending kind |
| `Pipeline.ExecutesUnique` | src/net/datapath.c:82-93 | there is only one such sequence of actions |
| `Pipeline.ExecuteActionSet` | src/net/datapath.c:82-93 | the loop over the types executes the actions of the set in that order |
| `Pipeline.MergeActions` | src/lib/action_set.c:44-48 | the loop overwrites exactly the types of the merged set |
| `Pipeline.ExecuteInstructions` | src/net/datapath.c:95-118 | apply, clear, write, metadata and goto in this order |
| `Pipeline.PathAscends` | src/net/datapath.c:122-174 | tables are visited in strictly increasing order, so at most 128 of them |
| `Pipeline.PassIsLogged` | src/net/datapath.c:122-174 | a pass appends its lookups and counts to the operations of each table, and every answer and the live entries stay those of the plain list that the operations build |
| `Pipeline.Datapath.constructor` | src/net/datapath.c:33-49 | a new datapath has 128 distinct empty tables and no port, and can receive |
| `Pipeline.Datapath.AddPort` | src/net/datapath.c:63-67 | a new port starts with zero counters |
| `Pipeline.Datapath.Pass` | src/net/datapath.c:122-174 | the loop ends; each matched entry's counters grow by exactly the flow's counts as a lazy step of its table, the unvisited tables are unchanged, and the result is the flow after the actions in force are executed in ascending kind, or none on a miss |
| `Pipeline.Datapath.Receive` | src/net/datapath.c:122-174 | the whole reception: port counters, pipeline, and the miss without a result; another reception can follow |
| `Routing.ExpandNode` | experiments/fat_tree_dc/ripl/routing.py:101-224 | the loop over the upward edges completes exactly the joins with the other frontier and extends the rest, each path once |
| `Routing.Expand` | experiments/fat_tree_dc/ripl/routing.py:101-224 | the loop over a frontier completes exactly the meetings and builds exactly the next frontier |
| `Routing.StructuredRouting.ExtendReachable` | experiments/fat_tree_dc/ripl/routing.py:101-224 | a round finds exactly the up-then-down paths with their apex in the layer, and otherwise leaves both frontiers complete |
| `Routing.StructuredRouting.GetAllRoute` | experiments/fat_tree_dc/ripl/routing.py:245-276 | returns exactly the up-then-down paths with their apex in the layer nearest the hosts that has any, and none exactly when there is no such path |
| `Routing.RoutesAreSimple` | experiments/fat_tree_dc/ripl/routing.py:245-276 | every returned path visits no node twice and goes from source to destination |
| `BgpDecision.SelectionKeeps` | horse/bgp_peer/decision_process.py:12-105 | as a multiset the selection is exactly the routes of minimal path length with minimal MED among those from the same AS |
| `BgpDecision.NonEmptySelection` | horse/bgp_peer/decision_process.py:12-105 | the selection of a non-empty list is not empty |
| `BgpDecision.ShortestRoutes` | horse/bgp_peer/decision_process.py:12-50 | the loop keeps exactly the routes with the shortest path, in order |
| `BgpDecision.MedRoutes` | horse/bgp_peer/decision_process.py:57-98 | the jumps over the sorted list of ASes visit each AS once |
| `BgpDecision.BestPathSelection` | horse/bgp_peer/decision_process.py:12-105 | computes the selection; the flag is false exactly when one route is left |
| `BgpDecision.LowestRouterId` | horse/bgp_peer/decision_process.py:123-137 | returns the first route whose next hop no other one undercuts |
| `BgpPeer.ChooseMembers` | horse/bgp_peer/peer.py:142-215 | a decision leaves at least one route and adds none but the announced one |
| `BgpPeer.DecideAllMembers` | horse/bgp_peer/peer.py:142-215 | every route of the local table was announced or was there before |
| `BgpPeerObject.RouteTable.Update` | horse/bgp_peer/rib.py:36-43 | replaces, puts in front or appends |
| `BgpPeerObject.RouteTable.Drop` | horse/bgp_peer/rib.py:45-48 | drops the last route of a prefix, if any |
| `BgpPeerObject.NeighborTable.Update` | horse/bgp_peer/rib.py:70-74 | one route per neighbour and prefix, the latest |
| `BgpPeerObject.BgpSpeaker.Update` | horse/bgp_peer/peer.py:73-126 | the loop stores and returns the announced routes, none when the peer's own AS is in the path |
| `BgpPeerObject.BgpSpeaker.DecisionProcessLocal` | horse/bgp_peer/peer.py:142-215 | the local table becomes that of `BgpPeer.Decide`; the returned routes are those of `BgpPeer.Choose` |
| `BgpPeerObject.BgpSpeaker.UpdatePeers` | horse/bgp_peer/peer.py:240-278 | stores and announces the best route of every updated prefix that has changed, to every neighbour but the sender, with the own AS in front |
| `BgpPeerObject.BgpSpeaker.ProcessRoute` | horse/bgp_peer/peer.py:310-349 | a whole update: tables, routes for the forwarding table and announcements |
| `BgpPeerObject.BgpSpeaker.Introduce` | horse/bgp_peer/peer.py:395-418 | a neighbour is told every advertised route not learnt from it, and the own prefixes |
| `BgpRuns.ChooseOk` | horse/bgp_peer/peer.py:142-215 | comparing an announcement with the current best alone keeps the list right for the whole history: shortest, within the limit, and of lowest next hop where routes of one AS and length have one MED |
| `BgpRuns.MedHidesNextHop` | horse/bgp_peer/decision_process.py:66-98 | two routes of one AS and length: the one with the higher MED is dropped though its next hop is lower |
| `BgpRuns.ChooseSends` | horse/bgp_peer/peer.py:142-215 | routes go to the forwarding table exactly when the routes of the prefix change, and only kept ones |
| `BgpRuns.SentIff` | horse/bgp_peer/peer.py:240-278 | an update makes the peer announce exactly the best routes that it changed, with its own AS in front, to every neighbour but the sender |
| `BgpRuns.PeerAfter` | horse/bgp_peer/peer.py:240-278 | after every run the output table has exactly the local prefixes, each with the best route's next hop and path |
| `BgpRuns.LocalTableFollowsHistory` | horse/bgp_peer/peer.py:142-215 | for every run of announcements the local table is the one its whole history calls for |
| `BgpRuns.BestRouteOfEveryRun` | horse/bgp_peer/peer.py:142-278 | the same for one prefix: the head has the shortest path of all accepted announcements and, when those of one AS and length have one MED, the lowest next hop among the shortest, all kept routes share its length, there are between one and max(1, max_paths) of them, and the output follows the head |
| `BgpHistory.HeadAfter` | horse/bgp_peer/peer.py:163-206 | exactly which announcements take the first place: shorter, of lower MED from the same AS, or of lower next hop and then lower AS in a tie, unless taken for the same route |
| `BgpHistory.ChosenFirst` | horse/bgp_peer/peer.py:142-206 | the first route does not depend on how many paths are kept |
| `BgpHistory.LeastStep` | horse/bgp_peer/peer.py:163-206 | the first route stays the one of shortest path and lowest next hop exactly when MED and next hop do not rank it and the announcement of the same AS differently |
| `BgpHistory.KeptStep` | horse/bgp_peer/peer.py:163-206 | the first route stays one that the selection over all announcements keeps exactly when the announcement does not come from another AS that has announced a lower MED, nor lowers the MED of the first route itself |
| `BgpHistory.BestStep` | horse/bgp_peer/peer.py:163-206 | the first route stays the best of all announcements exactly when, besides, no kept route of another AS has a lower next hop than an announcement that wins by its MED |
| `BgpHistory.BestThroughoutIff` | horse/bgp_peer/peer.py:142-206 | the first route is the best at every point of a run exactly when no announcement is of that kind |
| `BgpHistory.KeptThroughoutIff` | horse/bgp_peer/peer.py:142-206 | the same for being kept by the selection |
| `BgpHistory.LeastThroughoutIff` | horse/bgp_peer/peer.py:142-206 | the same for shortest path and lowest next hop |
| `BgpHistory.BestIsDecided` | horse/bgp_peer/decision_process.py:12-137 | the best is what the decision over all announcements puts first, in next hop |
| `BgpHistory.SameMedNotMisled` | horse/bgp_peer/peer.py:142-206 | where routes of one AS and length have one MED no announcement is of that kind |
| `BgpHistory.CurrentThroughoutIff` | horse/bgp_peer/peer.py:142-206 | the first route is what its neighbour announced last, at every point, exactly when no neighbour replaces the first route by one that does not come first |
| `BgpHistory.PeerFollowsAnnouncements` | horse/bgp_peer/peer.py:73-206 | in every run from empty tables the first local route is the one its announcements lead to, and the input table holds the last of each neighbour |
| `BgpHistory.EscapedRoute` | horse/bgp_peer/peer.py:163-206 | three announcements after which the first route is one the selection over them drops |
| `BgpHistory.OvertakenRoute` | horse/bgp_peer/peer.py:163-206 | three announcements after which a kept route of another AS has a lower next hop than the first |
| `BgpHistory.OutdatedRoute` | horse/bgp_peer/peer.py:163-206 | a neighbour replaces a route by a longer one, and the replaced one stays first |
| `BgpNetwork.ReceiveOk` | horse/bgp_peer/peer.py:73-126 | a peer that rejects its own AS keeps its tables free of loops and announces only loop-free paths |
| `BgpNetwork.IntroductionOk` | horse/bgp_peer/peer.py:395-418 | what a new neighbour is told is free of loops |
| `BgpNetwork.EveryRunIsLoopFree` | horse/bgp_peer/peer.py:73-418 | in every run of a network no path in a table or under way repeats an AS, no table holds a path with its own AS, and every path ends at an AS configured with the prefix |
| `BgpNetwork.PathsAreBounded` | horse/bgp_peer/peer.py:73-418 | so no path is longer than the number of ASes |
| `FatTree.IndexThenName` | experiments/fat_tree_dc/hedera.py:152-160 | for every even k the index of a host name is in range and gives the name back |
| `FatTree.NameThenIndex` | experiments/fat_tree_dc/hedera.py:152-160 | for every even k the name of an index in range is a host's and gives the index back |
| `FatTree.ComputeStride` | experiments/fat_tree_dc/hedera.py:166-170 | every host sends the stride further on, modulo the number of hosts |
| `FatTree.StrideIsPermutation` | experiments/fat_tree_dc/hedera.py:166-170 | no two hosts send to the same one and every host is sent to |
| `FatTree.PortIsSymmetric` | experiments/fat_tree_dc/ripl/horsedctopo.py:370-426 | the ports of a link seen from the other end are swapped, for every pair of layers |
| `FatTree.FatTreeTopo.AddEdge` | experiments/fat_tree_dc/ripl/horsedctopo.py:307-348 | the loops over hosts and aggregation switches add the ports of one edge switch and no others |
| `FatTree.FatTreeTopo.AddAgg` | experiments/fat_tree_dc/ripl/horsedctopo.py:350-368 | the loop over the core switches adds the ports of one aggregation switch and no others |
| `FatTree.FatTreeTopo.constructor` | experiments/fat_tree_dc/ripl/horsedctopo.py:282-368 | the wiring uses each of the ports 1 .. k of every edge, aggregation and core switch exactly once |
| `FatTree.SwitchUsesEachPort` | experiments/fat_tree_dc/ripl/horsedctopo.py:307-426 | the ports that the wiring gives a switch are 1 .. k, each once |
| `Demand.SourceIsFull` | experiments/fat_tree_dc/riplryu/demand.py:38-57 | a source with an unconverged flow sums to exactly 1, the same on all such flows, the rest unchanged |
| `Demand.SomeoneIsGreedy` | experiments/fat_tree_dc/riplryu/demand.py:60-86 | an overloaded receiver never divides by zero |
| `Demand.ReceiverIsFull` | experiments/fat_tree_dc/riplryu/demand.py:60-95 | an overloaded receiver sums to exactly 1: flows below the equal share unchanged, the others equal, converged and at least the equal share |
| `Demand.ReceiverIsFairIff` | experiments/fat_tree_dc/riplryu/demand.py:60-95 | an overloaded receiver gives every flow what it asks for up to a common level exactly when no flow asks for the equal share or more and yet less than the share given |
| `Demand.RaisedFlow` | experiments/fat_tree_dc/riplryu/demand.py:73-95 | three flows of which the second is given more than it asks for |
| `Demand.NoReceiverOverloaded` | experiments/fat_tree_dc/riplryu/demand.py:13-23 | once all receivers have had a turn none is sent more than 1 |
| `DemandMatrix.RepeatsIff` | experiments/fat_tree_dc/riplryu/demand.py:25-33 | the test on old demands holds after a round exactly when the round changed no demand of the matrix |
| `DemandMatrix.MatrixAgrees` | experiments/fat_tree_dc/riplryu/demand.py:7-35 | after any round over flows that start unconverged the matrix holds the demand of every flow and zero elsewhere |
| `DemandMatrix.EndIsFixed` | experiments/fat_tree_dc/riplryu/demand.py:7-35 | when the rounds end after more than one, the last one changed no flow's demand |
| `DemandObject.Estimator.EstimateSource` | experiments/fat_tree_dc/riplryu/demand.py:38-57 | the loops compute `Demand.AfterSource` and set exactly the matrix entries of the open flows |
| `DemandObject.Estimator.EstimateReceiver` | experiments/fat_tree_dc/riplryu/demand.py:60-95 | the loops compute `Demand.AfterReceiver` and set exactly the matrix entries of the flows that get the share |
| `DemandObject.Estimator.EstimateDemands` | experiments/fat_tree_dc/riplryu/demand.py:7-35 | flows and matrix are those of the rounds made; it ends exactly when a round changed no demand of the matrix; no receiver's total exceeds 1, and the matrix holds exactly the demands of flows that start unconverged |
| `Crc32.EntryComplements` | src/lib/util.h:57-63 | a table entry is the complement of eight reference steps on the complemented index |
| `Crc32.TableStep` | src/lib/util.h:74-76 | one lookup is one byte of the bit-by-bit CRC on the complemented remainder |
| `Crc32.ResumeIsChecksum` | src/lib/util.h:65-77 | started at zero it is the CRC-32 of section 8 of RFC 1952, and resuming over a second part gives that of the concatenation |
| `Crc32.Crc.Fill` | src/lib/util.h:69-73 | the lazily filled table is complete whenever its first entry is set |
| `Crc32.Crc.Run` | src/lib/util.h:65-77 | the table-driven loop computes the resumed checksum, and the checksum itself from zero |
| `Heap.UpOrders` | src/lib/heap.c:39-47 | bubbling up restores the heap order |
| `Heap.DownOrders` | src/lib/heap.c:50-75 | sifting down restores the heap order |
| `Heap.InsertedKeeps` | src/lib/heap.c:27-48 | insertion adds exactly the one event |
| `Heap.RemovedKeeps` | src/lib/heap.c:77-85 | deletion removes exactly the first event |
| `Heap.DrainedIsSorted` | src/lib/heap.c:77-85 | any heap gives up all its events in order of time |
| `Heap.DrainAgreesWithList` | src/lib/heap.c:77-85 | draining a heap gives the times of any sorted list of the same events |
| `Heap.HeapAgreesWithList` | src/sim/scheduler.c:48-85 | in every run of insertions and deletions the heap gives up the same times as the sorted list that replaced it |
| `Heap.EventHeap.Insert` | src/lib/heap.c:27-48 | the array grows when full; heap order and events as above |
| `Heap.EventHeap.Delete` | src/lib/heap.c:77-85 | takes out an event none of the others precedes |
| `FibCodec.NetmaskIs` | horse/msg.py:38-42 | a mask is its ones above its zeros and its bit count is the prefix length |
| `FibCodec.MaskAcceptedIff` | horse/msg.py:178-180 | the decoder accepts a mask if and only if it is the mask of some prefix length |
| `FibCodec.WireSizeIsLeast` | horse/msg.py:65-69 | the wire size exists for 8 .. 65535 and is the least multiple of 8 that holds the message |
| `FibCodec.PackThenUnpack` | horse/msg.py:155-196 | packing succeeds exactly for at most 5460 routes with lengths up to 32, and unpacking gives them back in order |
| `FibCodec.UnpackThenPack` | horse/msg.py:98-107 | an accepted frame packs again to itself but for its padding |
| `FibCodec.FibMessage.Pack` | horse/msg.py:183-196 | the loop over the routes writes that frame, or fails |
| `FibCodec.FibMessage.Unpack` | horse/msg.py:170-181 | header checks and the loop over the entries accept exactly the well-formed frames and read them |
| `PacketCodec.TosIff` | src/lib/netflow.c:223 | DSCP and ECN are read as written exactly when the DSCP is zero and the ECN has two bits |
| `PacketCodec.WriteThenReadIff` | src/lib/netflow.c:169-474 | reading a written LLDP, ARP request or reply, or IPv4 TCP, UDP or ICMP packet restores every field its headers carry and no other, exactly when it has no IPv4 header, or DSCP zero, a two-bit ECN and, for TCP, no flags |
| `PacketCodec.FlagsAreLost` | src/lib/netflow.c:250-257 | a TCP flow with a flag set is read back without it |
| `PacketCodec.DscpIsHalved` | src/lib/netflow.c:223 | a flow with DSCP 46 is read back with DSCP 23 |
| `PacketCodec.Ipv6NotRead` | src/lib/netflow.c:235-245 | a written IPv6 packet is read back without its addresses and protocol |
| `PacketCodec.EveryByteIsNeeded` | src/lib/netflow.c:302-474 | from any shorter packet the last header is not read: the returned length is exactly what the parser needs |
| `PacketBuffer.NetflowToPkt` | src/lib/netflow.c:169-300 | the buffer holds the packet, IPv6 included, up to the returned length and is unchanged behind it |
| `PacketBuffer.PktToNetflow` | src/lib/netflow.c:302-474 | reading at a moving offset agrees with reading header by header, incomplete headers and fragments included |

## Left out

- The order of events with equal times: the list puts a new event before those of the same time, and no property depends on it.
- Losses and link load on a port: whether a flow is lost on sending is a choice of the step.
- Memory ownership of flows, struct padding and hash-table internals; 64-bit wrap-around of times and counters.
- Handling of router and port events beyond their place in the queue; the writing of statistics files.
- FlowTableObject.Table.AddFlow: does not model a flow whose mask and key are already stored; the hash table then holds both and which one it finds is up to the library.
- FlowStats.AllTableStats: says nothing of the tables and the reply once a write has fallen outside, where the source's behaviour is undefined.
- Header rewriting by actions and the VLAN and MPLS tag stack.
- Withdrawals, the session handshake, JSON parsing and the text form of addresses and prefixes.
- The order in which neighbours are told of a route: announcements are a set.
- The choice among the routes found (leftmost, random, hashed).
- Longest-prefix matching in route tables, which lives in a library outside the repository.
- Rounding of floating-point demands: the estimator works on reals.
- DemandObject.Estimator.EstimateDemands: takes a limit on the number of rounds; that the rounds reach a fixed point is not claimed.
- PacketBuffer.NetflowToPkt: writes untagged packets; the tags are copied as the host lays them out in memory (src/lib/netflow.c:155-163), which is not modelled.
- PacketBuffer.PktToNetflow: untagged packets of at least 14 bytes; tags as above.
- Heap.EventHeap.Delete: does not model the index kept in each node, which nothing reads and which is not refreshed for the moved one (src/lib/heap.c:82).
- The remaining message types of the routing protocol, which are fixed-size versions of the same header.
- Host ARP queues, legacy nodes, sockets, timers, topology files, experiment scripts and controller applications.
