/**
 * The static network: node ids, the declared links, and the undirected
 * adjacency list that routing searches. Also the vocabulary of walks over an
 * adjacency list that the routing proofs are stated in.
 */
module Topology {

  type NodeId = string

  /** One declared link `{ from, to, capacity }`. */
  datatype LinkDef = LinkDef(from: NodeId, to: NodeId, capacity: nat)

  /** Node id to the ordered list of its neighbours. */
  type AdjList = map<NodeId, seq<NodeId>>

  function Last<T>(s: seq<T>): T
    requires |s| > 0
  {
    s[|s| - 1]
  }

  predicate Distinct<T(==)>(s: seq<T>)
  {
    forall i, j :: 0 <= i < j < |s| ==> s[i] != s[j]
  }

  /** Every link endpoint is a declared node. */
  predicate EndpointsDeclared(nodes: seq<NodeId>, links: seq<LinkDef>)
  {
    forall i :: 0 <= i < |links| ==> links[i].from in nodes && links[i].to in nodes
  }

  /** A topology the simulation can run on: node ids are unique and links join declared nodes. */
  predicate WellFormed(nodes: seq<NodeId>, links: seq<LinkDef>)
  {
    Distinct(nodes) && EndpointsDeclared(nodes, links)
  }

  /** Link `l` joins `x` to `y` in one direction or the other. */
  predicate Connects(l: LinkDef, x: NodeId, y: NodeId)
  {
    (l.from == x && l.to == y) || (l.to == x && l.from == y)
  }

  /**
   * The neighbours of `n` in the order the adjacency construction pushes them:
   * for each link in declaration order, `to` when `n` is its `from`, then
   * `from` when `n` is its `to`.
   */
  function Neighbours(links: seq<LinkDef>, n: NodeId): seq<NodeId>
  {
    if links == [] then []
    else
      var l := Last(links);
      Neighbours(links[..|links| - 1], n)
        + (if l.from == n then [l.to] else [])
        + (if l.to == n then [l.from] else [])
  }

  /** The adjacency list built from the declared nodes and links. */
  function AdjacencyOf(nodes: seq<NodeId>, links: seq<LinkDef>): AdjList
  {
    map n | n in nodes :: Neighbours(links, n)
  }

  /**
   * Builds the adjacency list: first an empty list per node, then, for each
   * link in order, `to` is pushed onto the list of `from` and `from` onto
   * the list of `to`.
   */
  method BuildAdjacency(nodes: seq<NodeId>, links: seq<LinkDef>) returns (adj: AdjList)
    requires EndpointsDeclared(nodes, links)
    ensures adj == AdjacencyOf(nodes, links)
    ensures forall i :: 0 <= i < |links| ==>
              links[i].to in adj[links[i].from] && links[i].from in adj[links[i].to]
  {
    adj := map[];
    for i := 0 to |nodes|
      invariant adj.Keys == set n | n in nodes[..i]
      invariant forall n :: n in adj ==> adj[n] == []
    {
      adj := adj[nodes[i] := []];
    }
    assert nodes[..|nodes|] == nodes;
    assert links[..0] == [];
    for i := 0 to |links|
      invariant adj.Keys == set n | n in nodes
      invariant forall n :: n in adj ==> adj[n] == Neighbours(links[..i], n)
    {
      var l := links[i];
      adj := adj[l.from := adj[l.from] + [l.to]];
      adj := adj[l.to := adj[l.to] + [l.from]];
      forall n | n in adj ensures adj[n] == Neighbours(links[..i + 1], n) {
        NeighboursStep(links, i, n);
      }
    }
    assert links[..|links|] == links;
    AdjacencyHasLinks(nodes, links);
  }

  /** Declaring link `i` appends its far endpoint to the neighbours of each of its endpoints. */
  lemma NeighboursStep(links: seq<LinkDef>, i: nat, n: NodeId)
    requires i < |links|
    ensures Neighbours(links[..i + 1], n)
            == Neighbours(links[..i], n)
               + (if links[i].from == n then [links[i].to] else [])
               + (if links[i].to == n then [links[i].from] else [])
  {
    assert links[..i + 1][..i] == links[..i];
  }

  /** The adjacency list has each declared link in both directions. */
  lemma AdjacencyHasLinks(nodes: seq<NodeId>, links: seq<LinkDef>)
    requires EndpointsDeclared(nodes, links)
    ensures forall i :: 0 <= i < |links| ==>
              links[i].to in AdjacencyOf(nodes, links)[links[i].from]
              && links[i].from in AdjacencyOf(nodes, links)[links[i].to]
  {
    forall i | 0 <= i < |links|
      ensures links[i].to in AdjacencyOf(nodes, links)[links[i].from]
              && links[i].from in AdjacencyOf(nodes, links)[links[i].to]
    {
      NeighboursOfLink(links, i);
    }
  }

  /** `y` is a neighbour of `x` exactly when some declared link joins them. */
  lemma {:induction false} NeighboursIff(links: seq<LinkDef>, x: NodeId, y: NodeId)
    ensures y in Neighbours(links, x) <==> exists i :: 0 <= i < |links| && Connects(links[i], x, y)
  {
    if links != [] {
      var init := links[..|links| - 1];
      var l := Last(links);
      NeighboursIff(init, x, y);
      if y in Neighbours(links, x) {
        if y in Neighbours(init, x) {
          var i :| 0 <= i < |init| && Connects(init[i], x, y);
          assert links[i] == init[i];
        } else {
          assert Connects(links[|links| - 1], x, y);
        }
      }
      if exists i :: 0 <= i < |links| && Connects(links[i], x, y) {
        var i :| 0 <= i < |links| && Connects(links[i], x, y);
        if i < |init| {
          assert init[i] == links[i];
        }
      }
    }
  }

  /** Each declared link puts `to` among the neighbours of `from` and `from` among those of `to`. */
  lemma NeighboursOfLink(links: seq<LinkDef>, i: nat)
    requires i < |links|
    ensures links[i].to in Neighbours(links, links[i].from)
    ensures links[i].from in Neighbours(links, links[i].to)
  {
    NeighboursIff(links, links[i].from, links[i].to);
    NeighboursIff(links, links[i].to, links[i].from);
  }

  /** Routing adjacency is symmetric. */
  lemma NeighboursSymmetric(links: seq<LinkDef>, x: NodeId, y: NodeId)
    ensures y in Neighbours(links, x) <==> x in Neighbours(links, y)
  {
    NeighboursIff(links, x, y);
    NeighboursIff(links, y, x);
    if exists i :: 0 <= i < |links| && Connects(links[i], x, y) {
      var i :| 0 <= i < |links| && Connects(links[i], x, y);
      assert Connects(links[i], y, x);
    }
    if exists i :: 0 <= i < |links| && Connects(links[i], y, x) {
      var i :| 0 <= i < |links| && Connects(links[i], y, x);
      assert Connects(links[i], x, y);
    }
  }

  // ----- Walks over an adjacency list -----

  /** Every neighbour listed is itself a key of the adjacency list. */
  predicate AdjClosed(adj: AdjList)
  {
    forall x, y :: x in adj && y in adj[x] ==> y in adj
  }

  /** The adjacency list of a topology whose links join declared nodes is closed. */
  lemma AdjacencyClosed(nodes: seq<NodeId>, links: seq<LinkDef>)
    requires EndpointsDeclared(nodes, links)
    ensures AdjClosed(AdjacencyOf(nodes, links))
  {
    var adj := AdjacencyOf(nodes, links);
    forall x, y | x in adj && y in adj[x] ensures y in adj {
      NeighboursIff(links, x, y);
      var i :| 0 <= i < |links| && Connects(links[i], x, y);
    }
  }

  /** A non-empty node sequence in which each node is a neighbour of the one before. */
  predicate IsWalk(adj: AdjList, w: seq<NodeId>)
  {
    |w| > 0
    && (forall i :: 0 <= i < |w| ==> w[i] in adj)
    && (forall i :: 0 < i < |w| ==> w[i] in adj[w[i - 1]])
  }

  /** A route from `s` to `e`: a walk between them that repeats no node. */
  predicate IsRoute(adj: AdjList, s: NodeId, e: NodeId, p: seq<NodeId>)
  {
    IsWalk(adj, p) && p[0] == s && Last(p) == e && Distinct(p)
  }

  /** Every walk from `s` to `x` has at least `len` nodes. */
  ghost predicate NoShorterWalk(adj: AdjList, s: NodeId, x: NodeId, len: nat)
  {
    forall w :: IsWalk(adj, w) && w[0] == s && Last(w) == x ==> |w| >= len
  }

  ghost predicate Reachable(adj: AdjList, s: NodeId, e: NodeId)
  {
    exists w :: IsWalk(adj, w) && w[0] == s && Last(w) == e
  }
}
