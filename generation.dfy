/**
 * The generation pass of a tick: every node appends to its queue as many new
 * packets as its generation rate, each addressed to a chosen destination.
 * The destinations the source draws at random are an input here.
 */
module Generation {
  import opened Topology
  import opened State

  /** The batch node `n` generates at time `now`: one packet per destination, numbered in order from 0. */
  function NewPackets(n: NodeId, dests: seq<NodeId>, now: nat): seq<Packet>
  {
    if dests == [] then []
    else NewPackets(n, dests[..|dests| - 1], now) + [Packet(n, Last(dests), PacketId(n, now, |dests| - 1))]
  }

  /**
   * The `i`-th generated packet comes from `n`, goes to the `i`-th chosen
   * destination and has index `i`; so the ids of one batch are distinct, and
   * no packet is addressed to its own source when no destination is `n`.
   */
  lemma {:induction false} NewPacketsCorrect(n: NodeId, dests: seq<NodeId>, now: nat)
    ensures |NewPackets(n, dests, now)| == |dests|
    ensures forall i :: 0 <= i < |dests| ==> NewPackets(n, dests, now)[i] == Packet(n, dests[i], PacketId(n, now, i))
    ensures (forall j :: 0 <= j < |dests| ==> dests[j] != n) ==>
              forall i :: 0 <= i < |dests| ==> NewPackets(n, dests, now)[i].destination != NewPackets(n, dests, now)[i].source
  {
    if dests != [] {
      var init := dests[..|dests| - 1];
      NewPacketsCorrect(n, init, now);
      forall i | 0 <= i < |init| ensures dests[i] == init[i] { }
    }
  }

  /**
   * The destinations the random draw can produce: for every node, as many
   * as its rate, each a declared node other than itself.
   */
  predicate ValidChoices(nodes: seq<NodeId>, rates: map<NodeId, nat>, choices: map<NodeId, seq<NodeId>>)
  {
    forall i :: 0 <= i < |nodes| ==>
      nodes[i] in rates && nodes[i] in choices && |choices[nodes[i]]| == rates[nodes[i]]
      && forall j :: 0 <= j < |choices[nodes[i]]| ==> choices[nodes[i]][j] in nodes && choices[nodes[i]][j] != nodes[i]
  }

  /** The nodes of `ns`, in order, each append their batch to their queue. */
  function Generate(q: Queues, ns: seq<NodeId>, choices: map<NodeId, seq<NodeId>>, now: nat): (r: Queues)
    requires forall i :: 0 <= i < |ns| ==> ns[i] in q && ns[i] in choices
    ensures r.Keys == q.Keys
  {
    if ns == [] then q
    else
      var g := Generate(q, ns[..|ns| - 1], choices, now);
      var n := Last(ns);
      g[n := g[n] + NewPackets(n, choices[n], now)]
  }

  /** With distinct nodes, each generating node's queue is its old queue followed by its batch; other queues are unchanged. */
  lemma {:induction false} GenerateQueues(q: Queues, ns: seq<NodeId>, choices: map<NodeId, seq<NodeId>>, now: nat)
    requires Distinct(ns) && forall i :: 0 <= i < |ns| ==> ns[i] in q && ns[i] in choices
    ensures forall n :: n in q ==>
              Generate(q, ns, choices, now)[n] == if n in ns then q[n] + NewPackets(n, choices[n], now) else q[n]
  {
    if ns != [] {
      var init := ns[..|ns| - 1];
      assert Distinct(init);
      GenerateQueues(q, init, choices, now);
      assert Last(ns) !in init;
      forall n | n in q ensures n in ns <==> n in init || n == Last(ns) {
        assert ns == init + [Last(ns)];
      }
    }
  }

  /** All packets generated by the nodes of `ns`. */
  function Generated(ns: seq<NodeId>, choices: map<NodeId, seq<NodeId>>, now: nat): multiset<Packet>
    requires forall i :: 0 <= i < |ns| ==> ns[i] in choices
  {
    if ns == [] then multiset{}
    else Generated(ns[..|ns| - 1], choices, now) + multiset(NewPackets(Last(ns), choices[Last(ns)], now))
  }

  lemma Rearrange<T>(a: multiset<T>, b: multiset<T>, c: multiset<T>, d: multiset<T>)
    ensures a + b + (c + d) == a + c + (b + d)
  {
    forall e ensures (a + b + (c + d))[e] == (a + c + (b + d))[e] { }
  }

  /** Generation adds exactly the generated packets to the queues, and removes none. */
  lemma {:induction false} GenerateBag(q: Queues, ns: seq<NodeId>, choices: map<NodeId, seq<NodeId>>, now: nat)
    requires Distinct(ns) && forall i :: 0 <= i < |ns| ==> ns[i] in q && ns[i] in choices
    ensures forall i :: 0 <= i < |ns| ==> ns[i] in Generate(q, ns, choices, now)
    ensures Bag(Generate(q, ns, choices, now), ns) == Bag(q, ns) + Generated(ns, choices, now)
  {
    if ns != [] {
      var init := ns[..|ns| - 1];
      var n := Last(ns);
      assert Distinct(init);
      assert n !in init;
      GenerateBag(q, init, choices, now);
      GenerateQueues(q, init, choices, now);
      var g := Generate(q, init, choices, now);
      var np := NewPackets(n, choices[n], now);
      var g' := Generate(q, ns, choices, now);
      assert g' == g[n := g[n] + np];
      BagUpdate(g, init, n, g[n] + np);
      assert g[n] == q[n];
      var G := Generated(init, choices, now);
      assert multiset(g[n] + np) == multiset(q[n]) + multiset(np);
      Rearrange(Bag(q, init), G, multiset(q[n]), multiset(np));
    }
  }
}
