/**
 * The simulator object: the fixed topology, the adjacency list built from
 * it, and the mutable state (each node's generation rate and packet queue,
 * and the directed link records) that initialisation and the tick update in
 * place. Each method is proved to produce the state the functions of the
 * other modules describe.
 */
module Simulation {
  import opened Topology
  import opened State
  import opened Forwarding
  import opened Generation

  function NodeSet(nodes: seq<NodeId>): set<NodeId>
  {
    set n | n in nodes
  }

  /** A state with the initial link records' channels and a queue per node is one routing and forwarding can run on. */
  lemma ConfiguredReady(nodes: seq<NodeId>, defs: seq<LinkDef>, links: Links, queues: Queues)
    requires WellFormed(nodes, defs) && SameChannels(links, InitLinks(defs)) && queues.Keys == NodeSet(nodes)
    ensures Ready(AdjacencyOf(nodes, defs), links, queues)
  {
    var adj := AdjacencyOf(nodes, defs);
    AdjacencyClosed(nodes, defs);
    InitLinksShape(defs);
    forall x, y | x in adj && y in adj[x] ensures (x, y) in links {
      NeighboursIff(defs, x, y);
    }
  }

  /** One tick: reset the loads, let the nodes forward in declared order, then let them generate. */
  function Tick(adj: AdjList, nodes: seq<NodeId>, links: Links, queues: Queues,
                choices: map<NodeId, seq<NodeId>>, now: nat): (Links, Queues)
    requires Ready(adj, links, queues)
    requires forall i :: 0 <= i < |nodes| ==> nodes[i] in adj && nodes[i] in choices
  {
    var r := ForwardPass(adj, PassStart(links, queues), nodes);
    (r.links, Generate(r.queues, nodes, choices, now))
  }

  /** The nodes listed in `nodes` are distinct and are exactly the nodes of `adj`, each with a queue and a choice of destinations. */
  predicate Covers(adj: AdjList, nodes: seq<NodeId>, queues: Queues, choices: map<NodeId, seq<NodeId>>)
  {
    Distinct(nodes)
    && (forall i :: 0 <= i < |nodes| ==> nodes[i] in adj && nodes[i] in queues && nodes[i] in choices)
    && (forall y :: y in adj ==> y in nodes)
  }

  /**
   * A tick keeps the directed links and leaves every link's load equal to
   * the number of packets that crossed it in this tick and within its
   * capacity; every hop is along an adjacency and every delivery is at the
   * packet's destination.
   */
  lemma TickLinks(adj: AdjList, nodes: seq<NodeId>, links: Links, queues: Queues,
                  choices: map<NodeId, seq<NodeId>>, now: nat)
    requires Ready(adj, links, queues) && Covers(adj, nodes, queues, choices)
    ensures var r := ForwardPass(adj, PassStart(links, queues), nodes);
            var after := Tick(adj, nodes, links, queues, choices, now).0;
            SameChannels(after, links) && LoadsWithin(after)
            && (forall k :: k in links ==> after[k].currentLoad == Crossings(r.hops, k))
            && (forall i :: 0 <= i < |r.hops| ==> ValidHop(adj, r.hops[i]))
            && (forall i :: 0 <= i < |r.delivered| ==> r.delivered[i].packet.destination == r.delivered[i].at)
  {
    ForwardPassFromReset(adj, links, queues, nodes, nodes);
  }

  /**
   * A tick neither loses nor duplicates a packet: the packets queued after
   * it plus those delivered are those queued before plus those generated.
   */
  lemma TickBag(adj: AdjList, nodes: seq<NodeId>, links: Links, queues: Queues,
                choices: map<NodeId, seq<NodeId>>, now: nat)
    requires Ready(adj, links, queues) && Covers(adj, nodes, queues, choices)
    ensures var r := ForwardPass(adj, PassStart(links, queues), nodes);
            var after := Tick(adj, nodes, links, queues, choices, now).1;
            after.Keys == queues.Keys
            && (forall i :: 0 <= i < |nodes| ==> nodes[i] in after)
            && Bag(after, nodes) + DeliveredBag(r.delivered) == Bag(queues, nodes) + Generated(nodes, choices, now)
  {
    var r := ForwardPass(adj, PassStart(links, queues), nodes);
    ForwardPassFromReset(adj, links, queues, nodes, nodes);
    GenerateBag(r.queues, nodes, choices, now);
    var after := Generate(r.queues, nodes, choices, now);
    TickStep(Bag(after, nodes), Bag(r.queues, nodes), Bag(queues, nodes),
             DeliveredBag(r.delivered), Generated(nodes, choices, now));
  }

  lemma TickStep<T>(after: multiset<T>, forwarded: multiset<T>, before: multiset<T>,
                    delivered: multiset<T>, generated: multiset<T>)
    requires after == forwarded + generated
    requires forwarded + delivered == before
    ensures after + delivered == before + generated
  {
    forall v ensures (after + delivered)[v] == (before + generated)[v] {
      assert (forwarded + delivered)[v] == before[v];
    }
  }

  /** The forwarding pass keeps the initial channels, loads within capacity, and a queue per node. */
  lemma PassKeepsChannels(nodes: seq<NodeId>, defs: seq<LinkDef>, t: Traffic)
    requires WellFormed(nodes, defs) && SameChannels(t.links, InitLinks(defs)) && LoadsWithin(t.links)
    requires t.queues.Keys == NodeSet(nodes)
    ensures (ConfiguredReady(nodes, defs, t.links, t.queues);
             var r := ForwardPass(AdjacencyOf(nodes, defs), t, nodes);
             SameChannels(r.links, InitLinks(defs)) && LoadsWithin(r.links) && r.queues.Keys == NodeSet(nodes))
  {
    ConfiguredReady(nodes, defs, t.links, t.queues);
    ForwardPassEvolves(AdjacencyOf(nodes, defs), t, nodes);
  }

  /** `LinkStatusesKeys` and `LinkStatusesLoads` for every declaration at once, for use in the body of `GetStatus`. */
  lemma LinkStatusesCorrect(defs: seq<LinkDef>, links: Links)
    ensures forall a, b :: (a, b) in LinkStatuses(defs, links) <==>
              exists i :: 0 <= i < |defs| && defs[i].from == a && defs[i].to == b
    ensures forall i :: 0 <= i < |defs| && LastOfKey(defs, i) ==>
              (defs[i].from, defs[i].to) in LinkStatuses(defs, links)
              && LinkStatuses(defs, links)[(defs[i].from, defs[i].to)]
                 == LinkStatus(defs[i].from, defs[i].to, defs[i].capacity,
                               LoadOf(links, (defs[i].from, defs[i].to)) + LoadOf(links, (defs[i].to, defs[i].from)))
  {
    LinkStatusesKeys(defs, links);
    forall i | 0 <= i < |defs| && LastOfKey(defs, i)
      ensures (defs[i].from, defs[i].to) in LinkStatuses(defs, links)
              && LinkStatuses(defs, links)[(defs[i].from, defs[i].to)]
                 == LinkStatus(defs[i].from, defs[i].to, defs[i].capacity,
                               LoadOf(links, (defs[i].from, defs[i].to)) + LoadOf(links, (defs[i].to, defs[i].from)))
    {
      LinkStatusesLoads(defs, links, i);
    }
  }

  class Simulator {
    const nodes: seq<NodeId>
    const linkDefs: seq<LinkDef>
    const trafficRates: map<NodeId, nat>
    const adjacency: AdjList

    /** Each node's `trafficGenerationRate`. */
    var rates: map<NodeId, nat>
    var queues: Queues
    /** The directed link records, keyed by `(from, to)`. */
    var links: Links

    /** The topology is well formed and the adjacency list is the one built from it. */
    predicate Configured()
      reads this
    {
      WellFormed(nodes, linkDefs) && adjacency == AdjacencyOf(nodes, linkDefs)
    }

    /**
     * The state invariant: rates as initialised, a queue per node, the
     * directed links made by initialisation, and no load above capacity.
     */
    predicate Valid()
      reads this
    {
      Configured()
      && rates == InitRates(nodes, trafficRates)
      && queues.Keys == NodeSet(nodes)
      && SameChannels(links, InitLinks(linkDefs))
      && LoadsWithin(links)
    }

    /** Builds the adjacency list, then initialises the state. */
    constructor (nodes: seq<NodeId>, linkDefs: seq<LinkDef>, trafficRates: map<NodeId, nat>)
      requires WellFormed(nodes, linkDefs)
      ensures this.nodes == nodes && this.linkDefs == linkDefs && this.trafficRates == trafficRates
      ensures rates == InitRates(nodes, trafficRates) && queues == InitQueues(nodes) && links == InitLinks(linkDefs)
      ensures Valid()
    {
      this.nodes := nodes;
      this.linkDefs := linkDefs;
      this.trafficRates := trafficRates;
      var adj := BuildAdjacency(nodes, linkDefs);
      adjacency := adj;
      new;
      InitializeState();
    }

    /** Every node gets its configured rate (0 if none) and an empty queue; every declared link gets two unloaded directed records. */
    method InitializeState()
      requires Configured()
      modifies this
      ensures rates == InitRates(nodes, trafficRates) && queues == InitQueues(nodes) && links == InitLinks(linkDefs)
      ensures Valid()
    {
      InitNodes();
      InitLinkRecords();
      InitLinksShape(linkDefs);
    }

    /** The node records: each node's rate, 0 when it has none configured, and an empty queue. */
    method InitNodes()
      modifies this
      ensures rates == InitRates(nodes, trafficRates) && queues == InitQueues(nodes) && links == old(links)
    {
      rates := map[];
      queues := map[];
      for i := 0 to |nodes|
        invariant rates == InitRates(nodes[..i], trafficRates)
        invariant queues == InitQueues(nodes[..i])
        invariant links == old(links)
      {
        var n := nodes[i];
        InitNodesStep(nodes, trafficRates, i);
        rates := rates[n := if n in trafficRates then trafficRates[n] else 0];
        queues := queues[n := []];
      }
      assert nodes[..|nodes|] == nodes;
    }

    /** The link records: both directions of every declared link, unloaded. */
    method InitLinkRecords()
      modifies this
      ensures links == InitLinks(linkDefs) && rates == old(rates) && queues == old(queues)
    {
      links := map[];
      assert linkDefs[..0] == [];
      for i := 0 to |linkDefs|
        invariant links == InitLinks(linkDefs[..i])
        invariant rates == old(rates) && queues == old(queues)
      {
        var l := linkDefs[i];
        assert linkDefs[..i + 1][..i] == linkDefs[..i];
        links := links[(l.from, l.to) := DirectedLink(l.from, l.to, l.capacity, 0)];
        links := links[(l.to, l.from) := DirectedLink(l.to, l.from, l.capacity, 0)];
      }
      assert linkDefs[..|linkDefs|] == linkDefs;
    }

    /** Sets the load of every directed link to 0. */
    method ResetLinkLoads()
      requires Valid()
      modifies this
      ensures links == ResetLoads(old(links)) && queues == old(queues) && rates == old(rates)
      ensures Valid()
    {
      var rest := links.Keys;
      while rest != {}
        invariant rest <= links.Keys == old(links).Keys
        invariant queues == old(queues) && rates == old(rates)
        invariant forall k :: k in links ==>
                    links[k] == if k in rest then old(links)[k] else old(links)[k].(currentLoad := 0)
        decreases rest
      {
        var k :| k in rest;
        links := links[k := links[k].(currentLoad := 0)];
        rest := rest - {k};
      }
      assert links == ResetLoads(old(links));
    }

    /**
     * The forwarding pass: each node in declared order snapshots and clears
     * its queue, delivers, forwards or keeps each snapshot packet, and puts
     * the kept packets in front of its queue.
     */
    method ForwardPackets()
      requires Valid()
      modifies this
      ensures (ConfiguredReady(nodes, linkDefs, old(links), old(queues));
               var r := ForwardPass(adjacency, Traffic(old(links), old(queues), [], [], []), nodes);
               links == r.links && queues == r.queues)
      ensures rates == old(rates)
      ensures Valid()
    {
      ConfiguredReady(nodes, linkDefs, links, queues);
      ghost var start := Traffic(links, queues, [], [], []);
      PassKeepsChannels(nodes, linkDefs, start);
      NodeTurns();
    }

    /** The turns of all nodes, in declared order. */
    method NodeTurns()
      requires Ready(adjacency, links, queues) && forall i :: 0 <= i < |nodes| ==> nodes[i] in adjacency
      modifies this
      ensures var r := ForwardPass(adjacency, Traffic(old(links), old(queues), [], [], []), nodes);
              links == r.links && queues == r.queues
      ensures rates == old(rates)
    {
      ghost var start := Traffic(links, queues, [], [], []);
      ghost var hops: seq<Hop> := [];
      ghost var delivered: seq<Delivery> := [];
      for i := 0 to |nodes|
        invariant ForwardPass(adjacency, start, nodes[..i]) == Traffic(links, queues, [], hops, delivered)
        invariant rates == old(rates)
      {
        assert nodes[..i + 1][..i] == nodes[..i];
        ReadyKeys(adjacency, start.links, start.queues, links, queues);
        hops, delivered := ProcessNode(nodes[i], hops, delivered);
      }
      assert nodes[..|nodes|] == nodes;
    }

    /**
     * The turn of node `x`: snapshot and clear its queue, handle each
     * snapshot packet in order, then put the kept packets in front of the
     * queue.
     */
    method ProcessNode(x: NodeId, ghost hops: seq<Hop>, ghost delivered: seq<Delivery>)
      returns (ghost hops': seq<Hop>, ghost delivered': seq<Delivery>)
      requires x in adjacency && Ready(adjacency, links, queues)
      modifies this
      ensures Traffic(links, queues, [], hops', delivered')
              == NodeTurn(adjacency, Traffic(old(links), old(queues), [], hops, delivered), x)
      ensures rates == old(rates)
    {
      ghost var before := Traffic(links, queues, [], hops, delivered);
      hops', delivered' := hops, delivered;
      var snap := queues[x];
      queues := queues[x := []];
      var kept: seq<Packet> := [];
      for j := 0 to |snap|
        invariant ProcessSnapshot(adjacency, x, TurnStart(before, x), snap[..j]) == Traffic(links, queues, kept, hops', delivered')
        invariant links.Keys == before.links.Keys && queues.Keys == before.queues.Keys
        invariant rates == old(rates)
      {
        assert snap[..j + 1][..j] == snap[..j] && Last(snap[..j + 1]) == snap[j];
        ReadyKeys(adjacency, before.links, before.queues, links, queues);
        kept, hops', delivered' := ProcessPacket(x, snap[j], kept, hops', delivered');
      }
      assert snap[..|snap|] == snap;
      queues := queues[x := kept + queues[x]];
    }

    /**
     * Node `x` handles one packet of its snapshot: a packet addressed to `x`
     * is dropped as delivered; otherwise it goes over the first hop of the
     * shortest route when that directed link is below capacity, and is kept
     * when there is no such hop or the link is full. The trace of hops and
     * deliveries is ghost.
     */
    method ProcessPacket(x: NodeId, p: Packet, kept: seq<Packet>, ghost hops: seq<Hop>, ghost delivered: seq<Delivery>)
      returns (kept': seq<Packet>, ghost hops': seq<Hop>, ghost delivered': seq<Delivery>)
      requires x in adjacency && Ready(adjacency, links, queues)
      modifies this
      ensures Traffic(links, queues, kept', hops', delivered')
              == Handle(adjacency, x, Traffic(old(links), old(queues), kept, hops, delivered), p)
      ensures rates == old(rates)
    {
      ghost var t := Traffic(links, queues, kept, hops, delivered);
      kept', hops', delivered' := kept, hops, delivered;
      if p.destination == x {
        delivered' := delivered + [Delivery(x, p)];
        assert PacketFate(adjacency, t.links, x, p) == Delivered;
      } else {
        var next := FirstHop(adjacency, x, p.destination);
        if next.None? {
          kept' := kept + [p];
          assert PacketFate(adjacency, t.links, x, p) == Kept;
        } else {
          var h := next.value;
          var l := links[(x, h)];
          if l.currentLoad < l.capacity {
            assert PacketFate(adjacency, t.links, x, p) == Forwarded(h);
            links := links[(x, h) := l.(currentLoad := l.currentLoad + 1)];
            queues := queues[h := queues[h] + [p]];
            hops' := hops + [Hop(x, h, p)];
          } else {
            kept' := kept + [p];
            assert PacketFate(adjacency, t.links, x, p) == Kept;
          }
        }
      }
    }

    /** Every node appends one packet per chosen destination, as many as its rate. */
    method GeneratePackets(choices: map<NodeId, seq<NodeId>>, now: nat)
      requires Valid() && ValidChoices(nodes, rates, choices)
      modifies this
      ensures queues == Generate(old(queues), nodes, choices, now)
      ensures links == old(links) && rates == old(rates)
      ensures Valid()
    {
      ghost var q0 := queues;
      for i := 0 to |nodes|
        invariant queues == Generate(q0, nodes[..i], choices, now)
        invariant links == old(links) && rates == old(rates)
      {
        assert nodes[..i + 1][..i] == nodes[..i];
        GenerateAt(nodes[i], choices[nodes[i]], now);
      }
      assert nodes[..|nodes|] == nodes;
    }

    /** Node `n` appends one packet per destination of `dests`, as many as its rate. */
    method GenerateAt(n: NodeId, dests: seq<NodeId>, now: nat)
      requires n in queues && n in rates && |dests| == rates[n]
      modifies this
      ensures queues == old(queues)[n := old(queues)[n] + NewPackets(n, dests, now)]
      ensures links == old(links) && rates == old(rates)
    {
      assert dests[..0] == [] && old(queues)[n] + [] == old(queues)[n];
      for j := 0 to rates[n]
        invariant queues == old(queues)[n := old(queues)[n] + NewPackets(n, dests[..j], now)]
        invariant links == old(links) && rates == old(rates)
      {
        assert dests[..j + 1][..j] == dests[..j] && Last(dests[..j + 1]) == dests[j];
        assert NewPackets(n, dests[..j + 1], now) == NewPackets(n, dests[..j], now) + [Packet(n, dests[j], PacketId(n, now, j))];
        queues := queues[n := queues[n] + [Packet(n, dests[j], PacketId(n, now, j))]];
        assert queues[n] == old(queues)[n] + NewPackets(n, dests[..j + 1], now);
      }
      assert dests[..|dests|] == dests;
    }

    /** One tick: reset the loads, forward, generate. */
    method RunSimulationStep(choices: map<NodeId, seq<NodeId>>, now: nat)
      requires Valid() && ValidChoices(nodes, rates, choices)
      modifies this
      ensures (ConfiguredReady(nodes, linkDefs, old(links), old(queues));
               (links, queues) == Tick(adjacency, nodes, old(links), old(queues), choices, now))
      ensures rates == old(rates)
      ensures Valid()
    {
      ConfiguredReady(nodes, linkDefs, links, queues);
      ResetLinkLoads();
      ForwardPackets();
      GeneratePackets(choices, now);
    }

    /**
     * The status report: every node with its id and queue length, and every
     * declared link key with its capacity and the loads of both directions
     * summed, a later declaration of the same key winning.
     */
    function GetStatus(): (s: Status)
      requires forall i :: 0 <= i < |nodes| ==> nodes[i] in queues
      reads this
      ensures s.nodes.Keys == NodeSet(nodes)
      ensures forall n :: n in nodes ==> s.nodes[n] == NodeStatus(n, |queues[n]|)
      ensures forall a, b :: (a, b) in s.links <==>
                exists i :: 0 <= i < |linkDefs| && linkDefs[i].from == a && linkDefs[i].to == b
      ensures forall i :: 0 <= i < |linkDefs| && LastOfKey(linkDefs, i) ==>
                var l := linkDefs[i];
                (l.from, l.to) in s.links
                && s.links[(l.from, l.to)] == LinkStatus(l.from, l.to, l.capacity,
                                                        LoadOf(links, (l.from, l.to)) + LoadOf(links, (l.to, l.from)))
    {
      NodeStatusesCorrect(nodes, queues);
      LinkStatusesCorrect(linkDefs, links);
      StatusOf(nodes, linkDefs, links, queues)
    }
  }
}
