/**
 * The simulation state: packets, per-node queues, directed link records, and
 * the operations on them that are not part of the forwarding pass:
 * initialisation, the per-tick load reset, and the status projection.
 */
module State {
  import opened Topology

  /** A packet id built from the generating node, the generation time and the packet's index in its batch. */
  datatype PacketId = PacketId(origin: NodeId, time: nat, index: nat)

  datatype Packet = Packet(source: NodeId, destination: NodeId, id: PacketId)

  /** A directed channel is keyed by its `(from, to)` pair. */
  type LinkKey = (NodeId, NodeId)

  datatype DirectedLink = DirectedLink(from: NodeId, to: NodeId, capacity: nat, currentLoad: nat)

  type Links = map<LinkKey, DirectedLink>

  type Queues = map<NodeId, seq<Packet>>

  /** No directed link carries more than its capacity. */
  predicate LoadsWithin(links: Links)
  {
    forall k :: k in links ==> links[k].currentLoad <= links[k].capacity
  }

  /** `a` and `b` hold the same directed links, equal in everything but the load. */
  predicate SameChannels(a: Links, b: Links)
  {
    a.Keys == b.Keys
    && forall k :: k in a ==> a[k].from == b[k].from && a[k].to == b[k].to && a[k].capacity == b[k].capacity
  }

  // ----- Initialisation -----

  /**
   * The link records made by initialisation: for each declared link in
   * order, the record `from -> to` and the record `to -> from`, both with the
   * declared capacity and load 0. A later declaration of the same pair
   * overwrites an earlier one.
   */
  function InitLinks(defs: seq<LinkDef>): Links
  {
    if defs == [] then map[]
    else
      var l := Last(defs);
      InitLinks(defs[..|defs| - 1])
        [(l.from, l.to) := DirectedLink(l.from, l.to, l.capacity, 0)]
        [(l.to, l.from) := DirectedLink(l.to, l.from, l.capacity, 0)]
  }

  /** No declaration after the `i`-th joins the same two nodes, in either direction. */
  predicate LastOfPair(defs: seq<LinkDef>, i: nat)
    requires i < |defs|
  {
    forall j :: i < j < |defs| ==> !Connects(defs[j], defs[i].from, defs[i].to)
  }

  /** Initialisation creates exactly the two directed records of each declared link, unloaded. */
  lemma {:induction false} InitLinksShape(defs: seq<LinkDef>)
    ensures forall a, b :: (a, b) in InitLinks(defs) <==>
              exists i :: 0 <= i < |defs| && Connects(defs[i], a, b)
    ensures forall k :: k in InitLinks(defs) ==>
              var l := InitLinks(defs)[k];
              l.from == k.0 && l.to == k.1 && l.currentLoad == 0
              && (k.1, k.0) in InitLinks(defs) && InitLinks(defs)[(k.1, k.0)].capacity == l.capacity
  {
    if defs != [] {
      var init := defs[..|defs| - 1];
      var l := Last(defs);
      InitLinksShape(init);
      forall a, b ensures (a, b) in InitLinks(defs) <==> exists i :: 0 <= i < |defs| && Connects(defs[i], a, b) {
        if (a, b) in InitLinks(init) {
          var i :| 0 <= i < |init| && Connects(init[i], a, b);
          assert defs[i] == init[i];
        }
        if exists i :: 0 <= i < |defs| && Connects(defs[i], a, b) {
          var i :| 0 <= i < |defs| && Connects(defs[i], a, b);
          if i < |init| {
            assert init[i] == defs[i];
          } else {
            assert defs[i] == l;
          }
        }
      }
    }
  }

  /** Both records of the last declaration of a pair carry that declaration's capacity. */
  lemma {:induction false} InitLinksCapacity(defs: seq<LinkDef>, i: nat)
    requires i < |defs| && LastOfPair(defs, i)
    ensures (defs[i].from, defs[i].to) in InitLinks(defs) && (defs[i].to, defs[i].from) in InitLinks(defs)
    ensures InitLinks(defs)[(defs[i].from, defs[i].to)].capacity == defs[i].capacity
    ensures InitLinks(defs)[(defs[i].to, defs[i].from)].capacity == defs[i].capacity
  {
    var init := defs[..|defs| - 1];
    if i < |defs| - 1 {
      assert LastOfPair(init, i) by {
        forall j | i < j < |init| ensures !Connects(init[j], init[i].from, init[i].to) {
          assert init[j] == defs[j];
        }
      }
      InitLinksCapacity(init, i);
      InitLinksShape(init);
      var l := Last(defs);
      assert !Connects(l, defs[i].from, defs[i].to);
    }
  }

  /** Every node's queue starts empty. */
  function InitQueues(nodes: seq<NodeId>): Queues
  {
    map n | n in nodes :: []
  }

  /** Every node's generation rate is its configured rate, 0 if it has none. */
  function InitRates(nodes: seq<NodeId>, trafficRates: map<NodeId, nat>): map<NodeId, nat>
  {
    map n | n in nodes :: if n in trafficRates then trafficRates[n] else 0
  }

  /** Initialising one more node adds its rate and its empty queue. */
  lemma InitNodesStep(nodes: seq<NodeId>, trafficRates: map<NodeId, nat>, i: nat)
    requires i < |nodes|
    ensures InitRates(nodes[..i + 1], trafficRates)
            == InitRates(nodes[..i], trafficRates)[nodes[i] := if nodes[i] in trafficRates then trafficRates[nodes[i]] else 0]
    ensures InitQueues(nodes[..i + 1]) == InitQueues(nodes[..i])[nodes[i] := []]
  {
    assert nodes[..i + 1] == nodes[..i] + [nodes[i]];
  }

  // ----- Load reset -----

  function ResetLoads(links: Links): Links
  {
    map k | k in links :: links[k].(currentLoad := 0)
  }

  // ----- Status projection -----

  datatype NodeStatus = NodeStatus(id: NodeId, queue: nat)

  datatype LinkStatus = LinkStatus(from: NodeId, to: NodeId, capacity: nat, currentLoad: nat)

  datatype Status = Status(nodes: map<NodeId, NodeStatus>, links: map<LinkKey, LinkStatus>)

  /** The load of a directed link, 0 when there is no record for it. */
  function LoadOf(links: Links, k: LinkKey): nat
  {
    if k in links then links[k].currentLoad else 0
  }

  /** The reported links, keyed by the declared `(from, to)`; a later declaration of the same key overwrites. */
  function LinkStatuses(defs: seq<LinkDef>, links: Links): map<LinkKey, LinkStatus>
  {
    if defs == [] then map[]
    else
      var l := Last(defs);
      LinkStatuses(defs[..|defs| - 1], links)[(l.from, l.to) :=
        LinkStatus(l.from, l.to, l.capacity, LoadOf(links, (l.from, l.to)) + LoadOf(links, (l.to, l.from)))]
  }

  /** The reported nodes: each node's id and queue length. */
  function NodeStatuses(nodes: seq<NodeId>, queues: Queues): map<NodeId, NodeStatus>
    requires forall i :: 0 <= i < |nodes| ==> nodes[i] in queues
  {
    if nodes == [] then map[]
    else
      var n := Last(nodes);
      NodeStatuses(nodes[..|nodes| - 1], queues)[n := NodeStatus(n, |queues[n]|)]
  }

  function StatusOf(nodes: seq<NodeId>, defs: seq<LinkDef>, links: Links, queues: Queues): Status
    requires forall i :: 0 <= i < |nodes| ==> nodes[i] in queues
  {
    Status(NodeStatuses(nodes, queues), LinkStatuses(defs, links))
  }

  /** No declaration after the `i`-th has the same `(from, to)` key. */
  predicate LastOfKey(defs: seq<LinkDef>, i: nat)
    requires i < |defs|
  {
    forall j :: i < j < |defs| ==> (defs[j].from, defs[j].to) != (defs[i].from, defs[i].to)
  }

  /** Each node is reported with its id and current queue length, and nothing else is reported. */
  lemma {:induction false} NodeStatusesCorrect(nodes: seq<NodeId>, queues: Queues)
    requires forall i :: 0 <= i < |nodes| ==> nodes[i] in queues
    ensures NodeStatuses(nodes, queues).Keys == set n | n in nodes
    ensures forall n :: n in nodes ==> NodeStatuses(nodes, queues)[n] == NodeStatus(n, |queues[n]|)
  {
    if nodes != [] {
      var init := nodes[..|nodes| - 1];
      NodeStatusesCorrect(init, queues);
      assert nodes == init + [Last(nodes)];
    }
  }

  /** The reported link keys are exactly the declared `(from, to)` keys. */
  lemma {:induction false} LinkStatusesKeys(defs: seq<LinkDef>, links: Links)
    ensures forall a, b :: (a, b) in LinkStatuses(defs, links) <==>
              exists i :: 0 <= i < |defs| && defs[i].from == a && defs[i].to == b
  {
    if defs != [] {
      var init := defs[..|defs| - 1];
      LinkStatusesKeys(init, links);
      var r := LinkStatuses(defs, links);
      forall a, b ensures (a, b) in r <==> exists i :: 0 <= i < |defs| && defs[i].from == a && defs[i].to == b {
        if (a, b) in LinkStatuses(init, links) {
          var i :| 0 <= i < |init| && init[i].from == a && init[i].to == b;
          assert defs[i] == init[i];
        }
        if exists i :: 0 <= i < |defs| && defs[i].from == a && defs[i].to == b {
          var i :| 0 <= i < |defs| && defs[i].from == a && defs[i].to == b;
          if i < |init| {
            assert init[i] == defs[i];
          }
        }
      }
    }
  }

  /**
   * The last declaration of a key is reported with its capacity and the sum
   * of the loads of its two directions.
   */
  lemma {:induction false} LinkStatusesLoads(defs: seq<LinkDef>, links: Links, i: nat)
    requires i < |defs| && LastOfKey(defs, i)
    ensures (defs[i].from, defs[i].to) in LinkStatuses(defs, links)
    ensures LinkStatuses(defs, links)[(defs[i].from, defs[i].to)]
              == LinkStatus(defs[i].from, defs[i].to, defs[i].capacity,
                            LoadOf(links, (defs[i].from, defs[i].to)) + LoadOf(links, (defs[i].to, defs[i].from)))
  {
    var init := defs[..|defs| - 1];
    if i < |init| {
      assert init[i] == defs[i];
      assert LastOfKey(init, i) by {
        forall j | i < j < |init| ensures (init[j].from, init[j].to) != (init[i].from, init[i].to) {
          assert init[j] == defs[j];
        }
      }
      LinkStatusesLoads(init, links, i);
      assert (Last(defs).from, Last(defs).to) != (defs[i].from, defs[i].to);
    }
  }

  // ----- Queue contents as a multiset -----

  /** All packets queued at the nodes of `ns`. */
  function Bag(q: Queues, ns: seq<NodeId>): multiset<Packet>
    requires forall i :: 0 <= i < |ns| ==> ns[i] in q
  {
    if ns == [] then multiset{} else Bag(q, ns[..|ns| - 1]) + multiset(q[Last(ns)])
  }

  /** Replacing the queue of `x` swaps its packets for the new ones in the bag of any node list holding `x`, and changes nothing otherwise. */
  lemma {:induction false} BagUpdate(q: Queues, ns: seq<NodeId>, x: NodeId, s: seq<Packet>)
    requires Distinct(ns) && (forall i :: 0 <= i < |ns| ==> ns[i] in q) && x in q
    ensures forall i :: 0 <= i < |ns| ==> ns[i] in q[x := s]
    ensures x in ns ==> Bag(q[x := s], ns) + multiset(q[x]) == Bag(q, ns) + multiset(s)
    ensures x !in ns ==> Bag(q[x := s], ns) == Bag(q, ns)
  {
    if ns != [] {
      var init := ns[..|ns| - 1];
      assert Distinct(init);
      BagUpdate(q, init, x, s);
      var q' := q[x := s];
      assert Bag(q', ns) == Bag(q', init) + multiset(q'[Last(ns)]);
      assert Bag(q, ns) == Bag(q, init) + multiset(q[Last(ns)]);
      if x == Last(ns) {
        assert x !in init;
      } else if x in ns {
        assert x in init;
        var L := multiset(q[Last(ns)]);
        calc {
          Bag(q', ns) + multiset(q[x]);
          Bag(q', init) + L + multiset(q[x]);
          Bag(q', init) + multiset(q[x]) + L;
          Bag(q, init) + multiset(s) + L;
          Bag(q, ns) + multiset(s);
        }
      }
    }
  }

  /** Appending a packet to one queue adds exactly that packet to the bag. */
  lemma {:induction false} BagAppend(q: Queues, ns: seq<NodeId>, x: NodeId, p: Packet)
    requires Distinct(ns) && (forall i :: 0 <= i < |ns| ==> ns[i] in q) && x in ns
    ensures forall i :: 0 <= i < |ns| ==> ns[i] in q[x := q[x] + [p]]
    ensures Bag(q[x := q[x] + [p]], ns) == Bag(q, ns) + multiset{p}
  {
    var init := ns[..|ns| - 1];
    assert Distinct(init);
    var q' := q[x := q[x] + [p]];
    assert Bag(q', ns) == Bag(q', init) + multiset(q'[Last(ns)]);
    if x == Last(ns) {
      assert x !in init;
      BagUpdate(q, init, x, q[x] + [p]);
      assert multiset(q'[x]) == multiset(q[x]) + multiset{p};
    } else {
      assert x in init;
      BagAppend(q, init, x, p);
    }
  }
}
