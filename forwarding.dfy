/**
 * The forwarding pass of a tick. Nodes take their turns in declared order;
 * at its turn a node snapshots and clears its queue, then each snapshot
 * packet is delivered, forwarded over the first hop of its route when that
 * directed link is below capacity, or kept; kept packets go back to the
 * front of the node's queue.
 *
 * The functions carry a trace that the source does not keep (the hops made
 * and the packets delivered) so that conservation and link loads can be
 * stated about them.
 */
module Forwarding {
  import opened Topology
  import opened Routing
  import opened State

  datatype Fate = Delivered | Forwarded(nextHop: NodeId) | Kept

  /** A packet moved from `from`'s queue to `to`'s queue over the directed link `(from, to)`. */
  datatype Hop = Hop(from: NodeId, to: NodeId, packet: Packet)

  /** A packet removed from the queue of `at` because it had arrived. */
  datatype Delivery = Delivery(at: NodeId, packet: Packet)

  /** Links and queues while the pass runs, the kept list of the node whose turn it is, and the trace so far. */
  datatype Traffic = Traffic(links: Links, queues: Queues, kept: seq<Packet>, hops: seq<Hop>, delivered: seq<Delivery>)

  /** Routing can run over `adj`, every node has a queue, and every adjacency has a directed link record. */
  predicate Ready(adj: AdjList, links: Links, queues: Queues)
  {
    AdjClosed(adj) && adj.Keys <= queues.Keys
    && forall x, y :: x in adj && y in adj[x] ==> (x, y) in links
  }

  /** Readiness depends only on which links and queues exist. */
  lemma ReadyKeys(adj: AdjList, links: Links, queues: Queues, links': Links, queues': Queues)
    requires Ready(adj, links, queues) && links'.Keys == links.Keys && queues'.Keys == queues.Keys
    ensures Ready(adj, links', queues')
  {
  }

  /** The second node of the route from `x` to `dest`, if the route has one. */
  function NextHop(adj: AdjList, x: NodeId, dest: NodeId): (r: Option<NodeId>)
    requires AdjClosed(adj) && x in adj
    ensures r.Some? ==> r.value in adj[x] && r.value != x
  {
    ShortestPathFirstHop(adj, x, dest);
    match ShortestPath(adj, x, dest)
    case None => None
    case Some(path) => if |path| < 2 then None else Some(path[1])
  }

  /** Computes the next hop by running the breadth-first search; no next hop when there is no route or the route is `[x]`. */
  method FirstHop(adj: AdjList, x: NodeId, dest: NodeId) returns (h: Option<NodeId>)
    requires AdjClosed(adj) && x in adj
    ensures h == NextHop(adj, x, dest)
    ensures h.Some? ==> h.value in adj[x] && h.value != x
  {
    var path := FindShortestPath(adj, x, dest);
    if path.None? || |path.value| < 2 {
      h := None;
    } else {
      h := Some(path.value[1]);
    }
  }

  /** What happens to packet `p` when node `x` processes it against the current link loads. */
  function PacketFate(adj: AdjList, links: Links, x: NodeId, p: Packet): (f: Fate)
    requires AdjClosed(adj) && x in adj
    requires forall y :: y in adj[x] ==> (x, y) in links
    ensures f.Delivered? <==> p.destination == x
    ensures f.Forwarded? ==> NextHop(adj, x, p.destination) == Some(f.nextHop)
                             && f.nextHop in adj[x] && f.nextHop != x
                             && links[(x, f.nextHop)].currentLoad < links[(x, f.nextHop)].capacity
    ensures var n := NextHop(adj, x, p.destination);
            f.Kept? <==> p.destination != x
                         && (n.None? || links[(x, n.value)].currentLoad >= links[(x, n.value)].capacity)
  {
    if p.destination == x then Delivered
    else
      match NextHop(adj, x, p.destination)
      case None => Kept
      case Some(h) =>
        if links[(x, h)].currentLoad < links[(x, h)].capacity then Forwarded(h) else Kept
  }

  /** The effect on the traffic of packet `p` meeting fate `f` at node `x`. */
  function Apply(x: NodeId, t: Traffic, p: Packet, f: Fate): Traffic
    requires f.Forwarded? ==> (x, f.nextHop) in t.links && f.nextHop in t.queues
  {
    match f
    case Delivered => t.(delivered := t.delivered + [Delivery(x, p)])
    case Kept => t.(kept := t.kept + [p])
    case Forwarded(h) =>
      var l := t.links[(x, h)];
      t.(links := t.links[(x, h) := l.(currentLoad := l.currentLoad + 1)],
         queues := t.queues[h := t.queues[h] + [p]],
         hops := t.hops + [Hop(x, h, p)])
  }

  /** Node `x` handles one packet of its snapshot. */
  function Handle(adj: AdjList, x: NodeId, t: Traffic, p: Packet): (r: Traffic)
    requires Ready(adj, t.links, t.queues) && x in adj
    ensures r.links.Keys == t.links.Keys && r.queues.Keys == t.queues.Keys
    ensures match PacketFate(adj, t.links, x, p)
            case Forwarded(h) =>
              r.queues == t.queues[h := t.queues[h] + [p]]
              && r.links == t.links[(x, h) := t.links[(x, h)].(currentLoad := t.links[(x, h)].currentLoad + 1)]
              && r.kept == t.kept
            case Delivered => r.queues == t.queues && r.links == t.links && r.kept == t.kept
            case Kept => r.queues == t.queues && r.links == t.links && r.kept == t.kept + [p]
  {
    Apply(x, t, p, PacketFate(adj, t.links, x, p))
  }

  /** `f` is a fate that `PacketFate` can give `p` at `x`. */
  predicate FateSound(adj: AdjList, links: Links, x: NodeId, p: Packet, f: Fate)
  {
    AdjClosed(adj) && x in adj
    && (f.Delivered? <==> p.destination == x)
    && (f.Forwarded? ==> NextHop(adj, x, p.destination) == Some(f.nextHop) && f.nextHop in adj[x] && f.nextHop != x && (x, f.nextHop) in links
                         && links[(x, f.nextHop)].currentLoad < links[(x, f.nextHop)].capacity)
  }

  /** Node `x` handles the packets of `snap` in order. */
  function ProcessSnapshot(adj: AdjList, x: NodeId, t: Traffic, snap: seq<Packet>): (r: Traffic)
    requires Ready(adj, t.links, t.queues) && x in adj
    ensures r.links.Keys == t.links.Keys && r.queues.Keys == t.queues.Keys
    decreases |snap|
  {
    if snap == [] then t
    else Handle(adj, x, ProcessSnapshot(adj, x, t, snap[..|snap| - 1]), Last(snap))
  }

  /**
   * The turn of node `x`: snapshot and clear its queue, handle the snapshot,
   * then put the kept packets in front of whatever the queue holds.
   */
  function NodeTurn(adj: AdjList, t: Traffic, x: NodeId): (r: Traffic)
    requires Ready(adj, t.links, t.queues) && x in adj
    ensures r.links.Keys == t.links.Keys && r.queues.Keys == t.queues.Keys
  {
    var d := ProcessSnapshot(adj, x, t.(queues := t.queues[x := []], kept := []), t.queues[x]);
    d.(queues := d.queues[x := d.kept + d.queues[x]], kept := [])
  }

  /** The turns of the nodes of `order`, one after another. */
  function ForwardPass(adj: AdjList, t: Traffic, order: seq<NodeId>): (r: Traffic)
    requires Ready(adj, t.links, t.queues)
    requires forall i :: 0 <= i < |order| ==> order[i] in adj
    ensures r.links.Keys == t.links.Keys && r.queues.Keys == t.queues.Keys
    decreases |order|
  {
    if order == [] then t
    else NodeTurn(adj, ForwardPass(adj, t, order[..|order| - 1]), Last(order))
  }

  // ----- Accounting over traces -----

  /** How many hops of the trace crossed the directed link `k`. */
  function Crossings(hops: seq<Hop>, k: LinkKey): nat
  {
    if hops == [] then 0
    else Crossings(hops[..|hops| - 1], k) + (if (Last(hops).from, Last(hops).to) == k then 1 else 0)
  }

  function HopBag(hops: seq<Hop>): multiset<Packet>
  {
    if hops == [] then multiset{} else HopBag(hops[..|hops| - 1]) + multiset{Last(hops).packet}
  }

  function DeliveredBag(ds: seq<Delivery>): multiset<Packet>
  {
    if ds == [] then multiset{} else DeliveredBag(ds[..|ds| - 1]) + multiset{Last(ds).packet}
  }

  /** `a` keeps some of the elements of `b`, in their order in `b`. */
  predicate Subseq<T(==)>(a: seq<T>, b: seq<T>)
    decreases |b|
  {
    if b == [] then a == []
    else Subseq(a, b[..|b| - 1]) || (a != [] && Last(a) == Last(b) && Subseq(a[..|a| - 1], b[..|b| - 1]))
  }

  /** `h` goes from its node to the second node of the packet's shortest route, a neighbour other than the node. */
  predicate ValidHop(adj: AdjList, h: Hop)
  {
    AdjClosed(adj) && h.from in adj && NextHop(adj, h.from, h.packet.destination) == Some(h.to)
    && h.to in adj[h.from] && h.to != h.from
  }

  /**
   * `r` follows `t` within a forwarding pass: the same directed links, loads
   * never above capacity if they started so, each load grown by the hops
   * added over its link, traces only extended, every added hop along an
   * adjacency, and every added delivery at the packet's destination.
   */
  ghost predicate Evolves(adj: AdjList, t: Traffic, r: Traffic)
  {
    SameChannels(r.links, t.links)
    && (LoadsWithin(t.links) ==> LoadsWithin(r.links))
    && t.hops <= r.hops && t.delivered <= r.delivered
    && (forall k :: k in t.links ==>
          r.links[k].currentLoad + Crossings(t.hops, k) == t.links[k].currentLoad + Crossings(r.hops, k))
    && (forall i :: |t.hops| <= i < |r.hops| ==> ValidHop(adj, r.hops[i]))
    && (forall i :: |t.delivered| <= i < |r.delivered| ==> r.delivered[i].packet.destination == r.delivered[i].at)
  }

  lemma EvolvesTrans(adj: AdjList, a: Traffic, b: Traffic, c: Traffic)
    requires Evolves(adj, a, b) && Evolves(adj, b, c)
    ensures Evolves(adj, a, c)
  {
    forall i | |a.hops| <= i < |c.hops| ensures ValidHop(adj, c.hops[i]) {
      if i < |b.hops| {
        assert c.hops[i] == b.hops[i];
      }
    }
    forall i | |a.delivered| <= i < |c.delivered|
      ensures c.delivered[i].packet.destination == c.delivered[i].at
    {
      if i < |b.delivered| {
        assert c.delivered[i] == b.delivered[i];
      }
    }
  }

  lemma CrossingsAppend(hops: seq<Hop>, h: Hop, k: LinkKey)
    ensures Crossings(hops + [h], k) == Crossings(hops, k) + (if (h.from, h.to) == k then 1 else 0)
  {
    assert (hops + [h])[..|hops|] == hops;
  }

  /** Applying a sound fate: the step relation, and any hop or delivery it adds is made at `x`. */
  lemma ApplyEvolves(adj: AdjList, x: NodeId, t: Traffic, p: Packet, f: Fate)
    requires Ready(adj, t.links, t.queues) && FateSound(adj, t.links, x, p, f)
    ensures var r := Apply(x, t, p, f);
            Evolves(adj, t, r)
            && (forall i :: |t.hops| <= i < |r.hops| ==> r.hops[i].from == x)
            && (forall i :: |t.delivered| <= i < |r.delivered| ==> r.delivered[i].at == x)
  {
    if f.Forwarded? {
      ForwardLinks(x, t, p, f.nextHop);
    }
  }

  /** Forwarding over `(x, h)` below capacity adds one to that link's load and one crossing of it, and keeps loads within capacity. */
  lemma ForwardLinks(x: NodeId, t: Traffic, p: Packet, h: NodeId)
    requires (x, h) in t.links && h in t.queues && t.links[(x, h)].currentLoad < t.links[(x, h)].capacity
    ensures var r := Apply(x, t, p, Forwarded(h));
            SameChannels(r.links, t.links)
            && (LoadsWithin(t.links) ==> LoadsWithin(r.links))
            && forall k :: k in t.links ==>
                 r.links[k].currentLoad + Crossings(t.hops, k) == t.links[k].currentLoad + Crossings(r.hops, k)
  {
    var r := Apply(x, t, p, Forwarded(h));
    forall k | k in t.links
      ensures r.links[k].currentLoad + Crossings(t.hops, k) == t.links[k].currentLoad + Crossings(r.hops, k)
    {
      CrossingsAppend(t.hops, Hop(x, h, p), k);
    }
  }

  lemma HandleEvolves(adj: AdjList, x: NodeId, t: Traffic, p: Packet)
    requires Ready(adj, t.links, t.queues) && x in adj
    ensures var r := Handle(adj, x, t, p);
            Evolves(adj, t, r)
            && (forall i :: |t.hops| <= i < |r.hops| ==> r.hops[i].from == x)
            && (forall i :: |t.delivered| <= i < |r.delivered| ==> r.delivered[i].at == x)
  {
    ApplyEvolves(adj, x, t, p, PacketFate(adj, t.links, x, p));
  }

  /** Handling one packet leaves the queue of `x` as it is and only appends to other queues. */
  lemma HandleQueues(adj: AdjList, x: NodeId, t: Traffic, p: Packet)
    requires Ready(adj, t.links, t.queues) && x in adj
    ensures var r := Handle(adj, x, t, p);
            r.queues[x] == t.queues[x]
            && (forall y :: y in t.queues ==> t.queues[y] <= r.queues[y])
            && (r.kept == t.kept || (r.kept == t.kept + [p] && p.destination != x))
  {
  }

  /** The handled packet ends up exactly once among the hops, the deliveries and the kept packets. */
  lemma HandleAccounting(adj: AdjList, x: NodeId, t: Traffic, p: Packet)
    requires Ready(adj, t.links, t.queues) && x in adj
    ensures var r := Handle(adj, x, t, p);
            multiset{p} + HopBag(t.hops) + DeliveredBag(t.delivered) + multiset(t.kept)
            == HopBag(r.hops) + DeliveredBag(r.delivered) + multiset(r.kept)
  {
    ApplyAccounting(x, t, p, PacketFate(adj, t.links, x, p));
  }

  lemma ApplyAccounting(x: NodeId, t: Traffic, p: Packet, f: Fate)
    requires f.Forwarded? ==> (x, f.nextHop) in t.links && f.nextHop in t.queues
    ensures var r := Apply(x, t, p, f);
            multiset{p} + HopBag(t.hops) + DeliveredBag(t.delivered) + multiset(t.kept)
            == HopBag(r.hops) + DeliveredBag(r.delivered) + multiset(r.kept)
  {
    var r := Apply(x, t, p, f);
    var P, H, D, K := multiset{p}, HopBag(t.hops), DeliveredBag(t.delivered), multiset(t.kept);
    var H', D', K' := HopBag(r.hops), DeliveredBag(r.delivered), multiset(r.kept);
    match f
    case Forwarded(h) =>
      assert r.hops[..|r.hops| - 1] == t.hops && r.delivered == t.delivered && r.kept == t.kept;
      assert H' == H + P && D' == D && K' == K;
    case Delivered =>
      assert r.delivered[..|r.delivered| - 1] == t.delivered && r.hops == t.hops && r.kept == t.kept;
      assert H' == H && D' == D + P && K' == K;
    case Kept =>
      assert r.kept == t.kept + [p] && r.hops == t.hops && r.delivered == t.delivered;
      assert H' == H && D' == D && K' == K + P;
    OneMore(P, H, D, K, H', D', K');
  }

  /** A packet added to exactly one of three bags is accounted for once. */
  lemma OneMore<T>(P: multiset<T>, H: multiset<T>, D: multiset<T>, K: multiset<T>,
                   H': multiset<T>, D': multiset<T>, K': multiset<T>)
    requires (H' == H + P && D' == D && K' == K)
             || (H' == H && D' == D + P && K' == K)
             || (H' == H && D' == D && K' == K + P)
    ensures P + H + D + K == H' + D' + K'
  {
    forall v ensures (P + H + D + K)[v] == (H' + D' + K')[v] { }
  }

  /** Handling one packet moves it into at most one queue of `ns`, exactly when it is forwarded. */
  lemma HandleBag(adj: AdjList, x: NodeId, t: Traffic, p: Packet, ns: seq<NodeId>)
    requires Ready(adj, t.links, t.queues) && x in adj
    requires Distinct(ns) && (forall i :: 0 <= i < |ns| ==> ns[i] in t.queues) && (forall y :: y in adj ==> y in ns)
    ensures var r := Handle(adj, x, t, p);
            (forall i :: 0 <= i < |ns| ==> ns[i] in r.queues)
            && Bag(r.queues, ns) + HopBag(t.hops) == Bag(t.queues, ns) + HopBag(r.hops)
  {
    var r := Handle(adj, x, t, p);
    var f := PacketFate(adj, t.links, x, p);
    if f.Forwarded? {
      var h := f.nextHop;
      assert r.hops[..|r.hops| - 1] == t.hops;
      assert HopBag(r.hops) == HopBag(t.hops) + multiset{p};
      BagAppend(t.queues, ns, h, p);
      assert r.queues == t.queues[h := t.queues[h] + [p]];
    } else {
      assert r.queues == t.queues && r.hops == t.hops;
    }
  }

  /** Processing a snapshot at `x` is a step of the pass whose hops leave `x` and whose deliveries happen at `x`. */
  lemma {:induction false} ProcessSnapshotEvolves(adj: AdjList, x: NodeId, t: Traffic, snap: seq<Packet>)
    requires Ready(adj, t.links, t.queues) && x in adj
    ensures var r := ProcessSnapshot(adj, x, t, snap);
            Evolves(adj, t, r)
            && (forall i :: |t.hops| <= i < |r.hops| ==> r.hops[i].from == x)
            && (forall i :: |t.delivered| <= i < |r.delivered| ==> r.delivered[i].at == x)
    decreases |snap|
  {
    if snap == [] {
      assert Evolves(adj, t, t);
    } else {
      var init := snap[..|snap| - 1];
      ProcessSnapshotEvolves(adj, x, t, init);
      var mid := ProcessSnapshot(adj, x, t, init);
      HandleEvolves(adj, x, mid, Last(snap));
      var r := Handle(adj, x, mid, Last(snap));
      EvolvesTrans(adj, t, mid, r);
      forall i | |t.hops| <= i < |r.hops| ensures r.hops[i].from == x {
        if i < |mid.hops| {
          assert r.hops[i] == mid.hops[i];
        }
      }
      forall i | |t.delivered| <= i < |r.delivered| ensures r.delivered[i].at == x {
        if i < |mid.delivered| {
          assert r.delivered[i] == mid.delivered[i];
        }
      }
    }
  }

  /** Processing a snapshot at `x` leaves the queue of `x` as it is and only appends to other queues. */
  lemma {:induction false} ProcessSnapshotQueues(adj: AdjList, x: NodeId, t: Traffic, snap: seq<Packet>)
    requires Ready(adj, t.links, t.queues) && x in adj
    ensures var r := ProcessSnapshot(adj, x, t, snap);
            r.queues[x] == t.queues[x]
            && (forall y :: y in t.queues ==> t.queues[y] <= r.queues[y])
    decreases |snap|
  {
    if snap != [] {
      var init := snap[..|snap| - 1];
      ProcessSnapshotQueues(adj, x, t, init);
      var mid := ProcessSnapshot(adj, x, t, init);
      HandleQueues(adj, x, mid, Last(snap));
      var r := Handle(adj, x, mid, Last(snap));
      forall y | y in t.queues ensures t.queues[y] <= r.queues[y] {
        assert t.queues[y] <= mid.queues[y] <= r.queues[y];
      }
    }
  }

  /** Packets moved from queues to the trace in two steps are moved in one. */
  lemma MovedStep<T>(q0: multiset<T>, q1: multiset<T>, q2: multiset<T>, h0: multiset<T>, h1: multiset<T>, h2: multiset<T>)
    requires q1 + h0 == q0 + h1
    requires q2 + h1 == q1 + h2
    ensures q2 + h0 == q0 + h2
  {
    forall e ensures (q2 + h0)[e] == (q0 + h2)[e] {
      assert (q1 + h0)[e] == (q0 + h1)[e];
      assert (q2 + h1)[e] == (q1 + h2)[e];
    }
  }

  /** Accounting for a prefix of a snapshot, then for one more packet, accounts for the longer prefix. */
  lemma AccountStep<T>(all: seq<T>, done: seq<T>, p: T, hops: multiset<T>, dels: multiset<T>,
                       hops': multiset<T>, dels': multiset<T>, kept': multiset<T>,
                       hops'': multiset<T>, dels'': multiset<T>, kept'': multiset<T>)
    requires all == done + [p]
    requires multiset(done) + hops + dels == hops' + dels' + kept'
    requires multiset{p} + hops' + dels' + kept' == hops'' + dels'' + kept''
    ensures multiset(all) + hops + dels == hops'' + dels'' + kept''
  {
    assert multiset(all) == multiset(done) + multiset{p};
    forall e ensures (multiset(all) + hops + dels)[e] == (hops'' + dels'' + kept'')[e] {
      assert (multiset(done) + hops + dels)[e] == (hops' + dels' + kept')[e];
      assert (multiset{p} + hops' + dels' + kept')[e] == (hops'' + dels'' + kept'')[e];
    }
  }

  /**
   * Processing a snapshot with an empty kept list: every snapshot packet is
   * kept, forwarded or delivered exactly once.
   */
  lemma {:induction false} ProcessSnapshotAccounting(adj: AdjList, x: NodeId, t: Traffic, snap: seq<Packet>)
    requires Ready(adj, t.links, t.queues) && x in adj && t.kept == []
    ensures var r := ProcessSnapshot(adj, x, t, snap);
            multiset(snap) + HopBag(t.hops) + DeliveredBag(t.delivered)
            == HopBag(r.hops) + DeliveredBag(r.delivered) + multiset(r.kept)
    decreases |snap|
  {
    if snap != [] {
      var init := snap[..|snap| - 1];
      var p := Last(snap);
      assert snap == init + [p];
      ProcessSnapshotAccounting(adj, x, t, init);
      var mid := ProcessSnapshot(adj, x, t, init);
      HandleAccounting(adj, x, mid, p);
      var r := Handle(adj, x, mid, p);
      AccountStep(snap, init, p, HopBag(t.hops), DeliveredBag(t.delivered),
                  HopBag(mid.hops), DeliveredBag(mid.delivered), multiset(mid.kept),
                  HopBag(r.hops), DeliveredBag(r.delivered), multiset(r.kept));
    }
  }

  /** The packets kept while processing a snapshot keep their snapshot order, and none of them is addressed to `x`. */
  lemma {:induction false} ProcessSnapshotKeptOrder(adj: AdjList, x: NodeId, t: Traffic, snap: seq<Packet>)
    requires Ready(adj, t.links, t.queues) && x in adj && t.kept == []
    ensures var r := ProcessSnapshot(adj, x, t, snap);
            Subseq(r.kept, snap) && forall i :: 0 <= i < |r.kept| ==> r.kept[i].destination != x
    decreases |snap|
  {
    if snap != [] {
      var init := snap[..|snap| - 1];
      var p := Last(snap);
      ProcessSnapshotKeptOrder(adj, x, t, init);
      var mid := ProcessSnapshot(adj, x, t, init);
      HandleQueues(adj, x, mid, p);
      var r := Handle(adj, x, mid, p);
      if r.kept != mid.kept {
        assert r.kept[..|r.kept| - 1] == mid.kept;
      }
    }
  }

  lemma {:induction false} ProcessSnapshotBag(adj: AdjList, x: NodeId, t: Traffic, snap: seq<Packet>, ns: seq<NodeId>)
    requires Ready(adj, t.links, t.queues) && x in adj
    requires Distinct(ns) && (forall i :: 0 <= i < |ns| ==> ns[i] in t.queues) && (forall y :: y in adj ==> y in ns)
    ensures var r := ProcessSnapshot(adj, x, t, snap);
            (forall i :: 0 <= i < |ns| ==> ns[i] in r.queues)
            && Bag(r.queues, ns) + HopBag(t.hops) == Bag(t.queues, ns) + HopBag(r.hops)
    decreases |snap|
  {
    if snap != [] {
      var init := snap[..|snap| - 1];
      ProcessSnapshotBag(adj, x, t, init, ns);
      var mid := ProcessSnapshot(adj, x, t, init);
      HandleBag(adj, x, mid, Last(snap), ns);
      var r := Handle(adj, x, mid, Last(snap));
      MovedStep(Bag(t.queues, ns), Bag(mid.queues, ns), Bag(r.queues, ns), HopBag(t.hops), HopBag(mid.hops), HopBag(r.hops));
    }
  }

  // ----- A node's turn -----

  /** The traffic a node's turn starts its snapshot processing from: its queue cleared, nothing kept yet. */
  function TurnStart(t: Traffic, x: NodeId): Traffic
  {
    t.(queues := t.queues[x := []], kept := [])
  }

  /** A node's turn is a step of the pass whose hops leave `x` and whose deliveries happen at `x`. */
  lemma NodeTurnEvolves(adj: AdjList, t: Traffic, x: NodeId)
    requires Ready(adj, t.links, t.queues) && x in adj
    ensures var r := NodeTurn(adj, t, x);
            Evolves(adj, t, r)
            && (forall i :: |t.hops| <= i < |r.hops| ==> r.hops[i].from == x)
            && (forall i :: |t.delivered| <= i < |r.delivered| ==> r.delivered[i].at == x)
  {
    ProcessSnapshotEvolves(adj, x, TurnStart(t, x), t.queues[x]);
  }

  /**
   * After its turn, the queue of `x` holds exactly the packets it kept, in
   * their old order and none addressed to `x`; every other queue has only
   * grown at its end; and each packet that was queued at `x` is now kept,
   * delivered or hopped exactly once.
   */
  lemma NodeTurnQueues(adj: AdjList, t: Traffic, x: NodeId)
    requires Ready(adj, t.links, t.queues) && x in adj
    ensures var r := NodeTurn(adj, t, x);
            Subseq(r.queues[x], t.queues[x])
            && (forall i :: 0 <= i < |r.queues[x]| ==> r.queues[x][i].destination != x)
            && (forall y :: y in t.queues && y != x ==> t.queues[y] <= r.queues[y])
            && multiset(t.queues[x]) + HopBag(t.hops) + DeliveredBag(t.delivered)
               == HopBag(r.hops) + DeliveredBag(r.delivered) + multiset(r.queues[x])
  {
    var t0 := TurnStart(t, x);
    var d := ProcessSnapshot(adj, x, t0, t.queues[x]);
    ProcessSnapshotQueues(adj, x, t0, t.queues[x]);
    ProcessSnapshotKeptOrder(adj, x, t0, t.queues[x]);
    ProcessSnapshotAccounting(adj, x, t0, t.queues[x]);
    assert d.kept + d.queues[x] == d.kept;
  }

  /**
   * The bookkeeping of a turn: clearing the queue takes the snapshot out of
   * the queues, processing moves hopped packets between queues and the rest
   * to the trace or the kept list, and the kept list goes back in.
   */
  lemma TurnStep<T>(bt: multiset<T>, b0: multiset<T>, bd: multiset<T>, br: multiset<T>, s: multiset<T>,
                    h0: multiset<T>, hd: multiset<T>, d0: multiset<T>, dd: multiset<T>,
                    k: multiset<T>, e0: multiset<T>, e1: multiset<T>)
    requires e0 == multiset{} && e1 == multiset{}
    requires b0 + s == bt + e0
    requires bd + h0 == b0 + hd
    requires s + h0 + d0 == hd + dd + k
    requires br + e1 == bd + k
    ensures br + dd == bt + d0
  {
    forall v ensures (br + dd)[v] == (bt + d0)[v] {
      assert (b0 + s)[v] == (bt + e0)[v];
      assert (bd + h0)[v] == (b0 + hd)[v];
      assert (s + h0 + d0)[v] == (hd + dd + k)[v];
      assert (br + e1)[v] == (bd + k)[v];
    }
  }

  /** A node's turn neither creates nor loses packets: what leaves the queues is exactly what was delivered. */
  lemma NodeTurnBag(adj: AdjList, t: Traffic, x: NodeId, ns: seq<NodeId>)
    requires Ready(adj, t.links, t.queues) && x in adj
    requires Distinct(ns) && (forall i :: 0 <= i < |ns| ==> ns[i] in t.queues) && (forall y :: y in adj ==> y in ns)
    ensures var r := NodeTurn(adj, t, x);
            (forall i :: 0 <= i < |ns| ==> ns[i] in r.queues)
            && Bag(r.queues, ns) + DeliveredBag(r.delivered) == Bag(t.queues, ns) + DeliveredBag(t.delivered)
  {
    var t0 := TurnStart(t, x);
    var snap := t.queues[x];
    var d := ProcessSnapshot(adj, x, t0, snap);
    var r := NodeTurn(adj, t, x);
    BagUpdate(t.queues, ns, x, []);
    ProcessSnapshotBag(adj, x, t0, snap, ns);
    ProcessSnapshotQueues(adj, x, t0, snap);
    ProcessSnapshotAccounting(adj, x, t0, snap);
    assert r.queues == d.queues[x := d.kept] by {
      assert d.kept + d.queues[x] == d.kept;
    }
    BagUpdate(d.queues, ns, x, d.kept);
    TurnStep(Bag(t.queues, ns), Bag(t0.queues, ns), Bag(d.queues, ns), Bag(r.queues, ns), multiset(snap),
             HopBag(t0.hops), HopBag(d.hops), DeliveredBag(t0.delivered), DeliveredBag(d.delivered),
             multiset(d.kept), multiset([]), multiset(d.queues[x]));
  }

  // ----- The whole pass -----

  lemma {:induction false} ForwardPassEvolves(adj: AdjList, t: Traffic, order: seq<NodeId>)
    requires Ready(adj, t.links, t.queues)
    requires forall i :: 0 <= i < |order| ==> order[i] in adj
    ensures Evolves(adj, t, ForwardPass(adj, t, order))
    decreases |order|
  {
    if order == [] {
      assert Evolves(adj, t, t);
    } else {
      var init := order[..|order| - 1];
      ForwardPassEvolves(adj, t, init);
      var mid := ForwardPass(adj, t, init);
      NodeTurnEvolves(adj, mid, Last(order));
      EvolvesTrans(adj, t, mid, ForwardPass(adj, t, order));
    }
  }

  lemma {:induction false} ForwardPassBag(adj: AdjList, t: Traffic, order: seq<NodeId>, ns: seq<NodeId>)
    requires Ready(adj, t.links, t.queues)
    requires forall i :: 0 <= i < |order| ==> order[i] in adj
    requires Distinct(ns) && (forall i :: 0 <= i < |ns| ==> ns[i] in t.queues) && (forall y :: y in adj ==> y in ns)
    ensures var r := ForwardPass(adj, t, order);
            (forall i :: 0 <= i < |ns| ==> ns[i] in r.queues)
            && Bag(r.queues, ns) + DeliveredBag(r.delivered) == Bag(t.queues, ns) + DeliveredBag(t.delivered)
    decreases |order|
  {
    if order != [] {
      var init := order[..|order| - 1];
      ForwardPassBag(adj, t, init, ns);
      var mid := ForwardPass(adj, t, init);
      NodeTurnBag(adj, mid, Last(order), ns);
    }
  }

  /** The traffic a tick's forwarding pass starts from: loads reset, queues as they are, an empty trace. */
  function PassStart(links: Links, queues: Queues): Traffic
  {
    Traffic(ResetLoads(links), queues, [], [], [])
  }

  /**
   * One forwarding pass after the load reset: the directed links keep their
   * endpoints and capacities, each link's load is the number of packets that
   * crossed it in this pass and never exceeds its capacity, every hop is
   * along an adjacency, every delivery is at the packet's destination, and
   * the queued packets plus the delivered ones are the packets queued before.
   */
  lemma ForwardPassFromReset(adj: AdjList, links: Links, queues: Queues, order: seq<NodeId>, ns: seq<NodeId>)
    requires Ready(adj, links, queues)
    requires forall i :: 0 <= i < |order| ==> order[i] in adj
    requires Distinct(ns) && (forall i :: 0 <= i < |ns| ==> ns[i] in queues) && (forall y :: y in adj ==> y in ns)
    ensures var r := ForwardPass(adj, PassStart(links, queues), order);
            SameChannels(r.links, links)
            && (forall k :: k in links ==>
                  r.links[k].currentLoad == Crossings(r.hops, k) <= r.links[k].capacity)
            && (forall i :: 0 <= i < |r.hops| ==> ValidHop(adj, r.hops[i]))
            && (forall i :: 0 <= i < |r.delivered| ==> r.delivered[i].packet.destination == r.delivered[i].at)
            && (forall i :: 0 <= i < |ns| ==> ns[i] in r.queues)
            && Bag(r.queues, ns) + DeliveredBag(r.delivered) == Bag(queues, ns)
  {
    var t := PassStart(links, queues);
    ForwardPassEvolves(adj, t, order);
    ForwardPassBag(adj, t, order, ns);
  }
}
