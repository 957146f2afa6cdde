# Network simulator core in Dafny

This project models the simulation engine of the network simulator
(`network-simulator/simulation.js`). The engine holds a fixed topology:
nodes, and undirected links that each have a capacity. It keeps one
mutable state: every node has a generation rate and a FIFO packet queue,
and every link has two directed records with a `currentLoad`. A tick does
three things:

1. It resets every load to 0.
2. It lets each node, in declared order, snapshot and clear its queue. For
   each snapshot packet, the node delivers it (destination reached),
   forwards it over the first hop of its breadth-first shortest route when
   that directed link is below capacity, or keeps it. Kept packets go back
   to the front of the queue.
3. It lets each node append as many fresh packets as its rate.

A status report gives each node's queue length, and for each declared link
the sum of the loads of its two directions.

The modules follow the structure of the source:

- `Topology` (`topology.dfy`) covers the node and link declarations and the
  adjacency list built from them. `BuildAdjacency` is a loop proved equal to
  the fold `AdjacencyOf`. Lemmas show that the neighbours of a node are
  exactly the nodes a declared link joins it to, and that the relation is
  symmetric.
- `Routing` (`routing.dfy`) covers the breadth-first search.
  - `FindShortestPath` keeps the source's mutable queue of paths and its
    visited set. It is proved equal to the specification `ShortestPath`.
  - `ShortestPathCorrect` proves what the search promises. It returns a
    path exactly when the end is reachable. The path starts at the start,
    ends at the end, follows adjacencies and repeats no node, and no walk is
    shorter. From a node to itself the route is `[start]`.
- `State` (`state.dfy`) holds the state's values:
  - packets and directed link records;
  - the initial records (`InitLinks`, `InitQueues`, `InitRates`);
  - the load reset;
  - the status report (`StatusOf`);
  - the multiset of all queued packets (`Bag`).
- `Forwarding` (`forwarding.dfy`) specifies the forwarding pass as functions:
  - `PacketFate` says what happens to one packet;
  - `Handle`, `ProcessSnapshot` and `NodeTurn` cover one packet, one
    snapshot and one node's turn;
  - `ForwardPass` covers all turns in order.

  A ghost trace of hops and deliveries is threaded through. It lets the
  lemmas state link loads and packet conservation.
- `Generation` (`generation.dfy`) specifies the generation pass. It shows
  that each node's queue is extended by exactly its batch, and that the
  queued packets grow by exactly the generated ones.
- `Simulation` (`simulator.dfy`) holds the class `Simulator`. Its fields are
  the mutable state (`rates`, `queues`, `links`) and its methods are the
  source's loops:
  - initialisation, load reset, forwarding turns, packet handling,
    generation and the whole tick;
  - each method is proved to produce the state the functions above
    describe;
  - the constructor, `InitializeState`, `ResetLinkLoads`, `ForwardPackets`,
    `GeneratePackets` and `RunSimulationStep` also establish or keep the
    invariant `Valid`;
  - the tick lemmas `TickLinks` and `TickBag` state what one step
    guarantees.
- `FiveNode` (`five_node.dfy`) is the configured network: nodes A–E, six
  links and the per-node rates, on which the simulator is built.

## Model

| member | source | states |
|---|---|---|
| Topology.BuildAdjacency | network-simulator/simulation.js:17-22 | The list built by the loop is the fold `AdjacencyOf`: per node, in link declaration order, `to` for each link it starts and `from` for each link it ends. Every declared link is present in both directions. |
| Topology.NeighboursStep | network-simulator/simulation.js:19-21 | Declaring one more link appends its far endpoint to the lists of its two endpoints, `from`'s first, and changes no other list. |
| Topology.NeighboursIff | network-simulator/simulation.js:19-22 | `y` is a neighbour of `x` exactly when some declared link joins `x` and `y`, in either direction. |
| Topology.NeighboursOfLink | network-simulator/simulation.js:20-21 | Each declared link puts `to` among the neighbours of `from`, and `from` among the neighbours of `to`. |
| Topology.NeighboursSymmetric | network-simulator/simulation.js:20-21 | Routing adjacency is symmetric: `y` neighbours `x` exactly when `x` neighbours `y`. |
| Topology.AdjacencyHasLinks | network-simulator/simulation.js:17-22 | In the built adjacency list, every declared link appears in both directions. |
| Topology.AdjacencyClosed | network-simulator/simulation.js:17-22 | When links join declared nodes, every listed neighbour has its own list, so the search never looks up a missing node. |
| Routing.Expand | network-simulator/simulation.js:34-40 | The pass over a node's neighbours only adds to the visited set and keeps it inside the node set. It enqueues one path per newly visited neighbour, and every queued path is non-empty and ends at a known node. |
| Routing.VisitNeighbours | network-simulator/simulation.js:34-40 | The loop that marks unvisited neighbours and enqueues the extended paths leaves the queue and visited set that `Expand` specifies. |
| Routing.FindShortestPath | network-simulator/simulation.js:25-43 | The search returns a path exactly when the end is reachable. The path starts at the start, ends at the end, follows adjacencies, repeats no node and has no shorter walk. From a node to itself it returns `[start]`. The result is the function `ShortestPath` of the inputs, so equal inputs give the same path. |
| Routing.ShortestPathCorrect | network-simulator/simulation.js:25-43 | `ShortestPath` is `Some` exactly when the end is reachable. When `Some`, it is a node-distinct route with no shorter walk, and it is `[s]` from `s` to itself. |
| Routing.ShortestPathFirstHop | network-simulator/simulation.js:79-85 | A found route starts at its start. Its second node, when it has one, is a neighbour of the start and differs from it. |
| State.InitLinksShape | network-simulator/simulation.js:56-61 | Initialisation creates a directed record `(a, b)` exactly when some declared link joins `a` and `b`. Each record has its key's endpoints and load 0, and its reverse record has the same capacity. |
| State.InitLinksCapacity | network-simulator/simulation.js:56-61 | Both records of the last declaration joining a pair carry that declaration's capacity. |
| State.InitNodesStep | network-simulator/simulation.js:49-55 | Initialising one more node adds its rate (0 when none is configured) and its empty queue. |
| State.NodeStatusesCorrect | network-simulator/simulation.js:134-141 | The status reports exactly the declared nodes, each with its id and the length of its queue. |
| State.LinkStatusesKeys | network-simulator/simulation.js:120-132 | The reported link keys are exactly the declared `(from, to)` keys. |
| State.LinkStatusesLoads | network-simulator/simulation.js:121-131 | The last declaration of a key is reported with its endpoints, its capacity, and the load of the forward record plus the load of the reverse record, a missing record counting 0. |
| State.BagUpdate | network-simulator/simulation.js:74 | Replacing one node's queue swaps its packets for the new ones in the multiset of all queued packets. |
| State.BagAppend | network-simulator/simulation.js:91 | Appending a packet to a node's queue adds exactly that packet to the queued packets. |
| Forwarding.NextHop | network-simulator/simulation.js:79-85 | A next hop, when there is one, is a neighbour of the current node other than that node. |
| Forwarding.FirstHop | network-simulator/simulation.js:79-85 | Running the search and taking the route's second node gives `NextHop`. There is no next hop when the route is missing or has fewer than two nodes. |
| Forwarding.PacketFate | network-simulator/simulation.js:77-94 | A packet is delivered exactly when it is addressed to the current node. When forwarded, it goes to `NextHop`, the second node of its shortest route, over a directed link whose load is below its capacity. It is kept exactly when it is not addressed to the node and either has no next hop or the link to that hop is full, so a routable packet with room on its link is always forwarded. |
| Forwarding.Handle | network-simulator/simulation.js:76-95 | Handling a packet keeps the set of directed links and the set of queues. A forwarded packet is appended to its next hop's queue and that directed link's load rises by one, with nothing else changed. A delivered packet changes no queue or link. A kept packet is appended to the kept list. |
| Forwarding.HandleQueues | network-simulator/simulation.js:77-94 | Handling a packet leaves the current node's live queue as it is and only appends to other queues. The packet is kept only if it is not addressed to the node. |
| Forwarding.HandleAccounting | network-simulator/simulation.js:76-95 | The handled packet ends up exactly once among the hops, the deliveries and the kept packets. |
| Forwarding.HandleBag | network-simulator/simulation.js:89-91 | Handling a packet adds it to the queued packets exactly when it is forwarded. |
| Forwarding.ProcessSnapshotAccounting | network-simulator/simulation.js:73-95 | Every snapshot packet is hopped, delivered or kept, once each. |
| Forwarding.ProcessSnapshotKeptOrder | network-simulator/simulation.js:76-95 | The kept packets are a subsequence of the snapshot in snapshot order, and none is addressed to the node. |
| Forwarding.NodeTurnQueues | network-simulator/simulation.js:69-98 | After its turn, a node's queue holds exactly its kept packets, in their old order, none addressed to it. Every other queue has only grown at its end. Each packet that was queued at the node is now kept, delivered or hopped exactly once. |
| Forwarding.NodeTurnBag | network-simulator/simulation.js:69-98 | A turn neither creates nor loses nor duplicates packets: the queued packets plus the delivered ones are unchanged. |
| Forwarding.ForwardPassEvolves | network-simulator/simulation.js:69-98 | The pass keeps the directed links. Each load grows by the hops over its link and stays within capacity. Every hop goes from its node to the second node of the packet's shortest route, and every delivery is at the packet's destination. |
| Forwarding.ForwardPassFromReset | network-simulator/simulation.js:66-98 | After the reset and the pass, each link's load equals the number of packets that crossed it and is at most its capacity. Every hop goes to the second node of the packet's shortest route, deliveries are at destinations, and queued packets plus delivered packets equal the packets queued before. |
| Generation.NewPacketsCorrect | network-simulator/simulation.js:104-115 | A node's batch has one packet per chosen destination. The `i`-th packet has the node as source, the `i`-th destination and index `i`. No packet is addressed to its source when no destination is the node. |
| Generation.GenerateQueues | network-simulator/simulation.js:101-116 | Generation appends each node's batch to the end of its queue, and leaves earlier contents and other queues unchanged. |
| Generation.GenerateBag | network-simulator/simulation.js:101-116 | Generation adds exactly the generated packets to the queued packets and removes none. |
| Simulation.ConfiguredReady | network-simulator/simulation.js:85-89 | With the initial link records and a queue per node, every adjacency has a directed record, so the link lookup on a next hop always finds one. |
| Simulation.PassKeepsChannels | network-simulator/simulation.js:69-98 | The forwarding pass keeps the initial link records, loads within capacity, and a queue per declared node. |
| Simulation.TickLinks | network-simulator/simulation.js:64-117 | After a tick, the directed links are the same. Each load equals the number of packets that crossed that link in the tick and is within capacity. Every hop goes to the second node of the packet's shortest route, and deliveries are at destinations. |
| Simulation.TickBag | network-simulator/simulation.js:64-117 | After a tick, the queued packets plus the delivered ones equal the packets queued before plus the generated ones. Every node still has a queue. |
| Simulation.Simulator.constructor | network-simulator/simulation.js:17-22 | The simulator builds the adjacency list and the initial state. Rates are the configured ones or 0, queues are empty, links are the initial records, and the invariant holds. |
| Simulation.Simulator.InitializeState | network-simulator/simulation.js:46-61 | Every node gets its rate (0 when none) and an empty queue. Every declared link gets its two unloaded directed records. The invariant holds. |
| Simulation.Simulator.InitNodes | network-simulator/simulation.js:47-55 | The node loop leaves rates and queues as `InitRates` and `InitQueues`, and the link records untouched. |
| Simulation.Simulator.InitLinkRecords | network-simulator/simulation.js:48-61 | The link loop leaves the records as `InitLinks`, a later declaration of a pair overwriting an earlier one. Rates and queues are untouched. |
| Simulation.Simulator.ResetLinkLoads | network-simulator/simulation.js:66 | Every load becomes 0 and nothing else changes. |
| Simulation.Simulator.ForwardPackets | network-simulator/simulation.js:69-98 | The forwarding loops leave links and queues as `ForwardPass` in declared node order, and keep the invariant. |
| Simulation.Simulator.NodeTurns | network-simulator/simulation.js:69-98 | The turn loop over the declared nodes computes `ForwardPass`. |
| Simulation.Simulator.ProcessNode | network-simulator/simulation.js:70-97 | One node's turn computes `NodeTurn`: snapshot, clear, handle each packet in order, then put the kept packets in front. |
| Simulation.Simulator.ProcessPacket | network-simulator/simulation.js:76-95 | Handling one packet in place gives `Handle`: delivered, forwarded with one more load on the link, or kept. |
| Simulation.Simulator.GeneratePackets | network-simulator/simulation.js:101-116 | The generation loop leaves the queues as `Generate`, with links and rates untouched, and keeps the invariant. |
| Simulation.Simulator.GenerateAt | network-simulator/simulation.js:102-115 | One node appends its batch `NewPackets` to its queue, as many packets as its rate. Nothing else changes. |
| Simulation.Simulator.RunSimulationStep | network-simulator/simulation.js:64-117 | A step leaves links and queues as `Tick`, keeps the rates and keeps the invariant. |
| Simulation.Simulator.GetStatus | network-simulator/simulation.js:119-144 | The report has every declared node with its queue length. Its link keys are exactly the declared keys, and the last declaration of each key is reported with its capacity and the summed loads of both directions. As a function it changes no state. |
| FiveNode.ConfigurationWellFormed | network-simulator/simulation.js:1-11 | The configured node ids are distinct, and every link joins configured nodes. |
| FiveNode.NewSimulator | network-simulator/simulation.js:146 | The module's simulator is built on the configured network and is initialised. |

## Left out

- The HTTP endpoint and the `setInterval` driver in `network-simulator/index.js` are not part of this model. Neither are the React front end or `module.exports`. The event loop runs ticks and status reads one at a time, so there is no concurrency to model.
- Random destinations: `Math.random` is replaced by a `choices` parameter, one destination sequence per node. `ValidChoices` requires each sequence to be as long as the node's rate and to hold declared nodes other than the node. The retry loop at lines 106-108 is not modelled. With a single declared node and a positive rate it never ends; `ValidChoices` cannot be met there, and the model has no step for that case.
- Packet ids: `Date.now()` becomes the `now` parameter. The id string `pkt-<node>-<now>-<i>` is the triple `PacketId(node, now, i)`, so the text format is not modelled.
- Simulation.Simulator.GenerateAt: the source reads the clock once per packet (line 113), so packets of one batch, and of different nodes, can carry different times. The model stamps every packet of a tick with the same `now`.
- Topology.WellFormed: the simulator is built only on a topology with distinct node ids whose links join declared nodes. Two inputs the source treats differently are not modelled. A link that names an undeclared node makes line 20 or 21 throw a `TypeError` when the module loads. A node id declared twice is accepted by the source, and that node then takes two forwarding turns and generates twice per tick.
- Link keys: the string keys `from-to` are modelled as pairs. Two different pairs whose string keys coincide, for ids that contain `-`, are therefore not modelled.
- Node records: `simulationState.nodes[id]` is split into the maps `rates` and `queues` keyed by id. The record's `id` field is implied by the key.
- `trafficRates[id] || 0`: rates are natural numbers, and a missing rate is 0. Non-numeric or negative rates are not modelled.
- Packets are values. The source moves packet objects by reference but never changes them after creation, so aliasing makes no difference.
- The order in which `Object.values` visits the link records at line 66 is not modelled. The reset loop picks records in any order, and the result does not depend on the order.
- Each method's `ensures` is the connection to the specification functions, and the tick's guarantees are lemmas about those functions (`TickLinks`, `TickBag`, `ForwardPassFromReset`). The hop and delivery trace that states them is ghost and is not kept by the source.
- A route from a node to itself: `findShortestPath(s, s)` returns `[s]`, and the model follows this (`ShortestPathCorrect`). The case never affects forwarding, because a packet addressed to the current node is delivered before any route is computed.
- The snapshot is taken at each node's turn (line 73), so a packet forwarded to a node later in the order is handled again in the same tick, and can make several hops or be delivered within one tick. The model has no per-tick hop limit.
