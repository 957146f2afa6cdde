/**
 * Breadth-first shortest-path search over the adjacency list. The search is
 * specified by the functions `Expand` (one pass over a node's neighbours) and
 * `BfsLoop` (the outer loop), implemented by the method `FindShortestPath`,
 * and proved correct by `ShortestPathCorrect`.
 */
module Routing {
  import opened Topology

  datatype Option<T> = None | Some(value: T)

  /** The search state: the queue of partial paths and the visited set. */
  datatype Frontier = Frontier(queue: seq<seq<NodeId>>, visited: set<NodeId>)

  /** Every queued path is non-empty and ends at a node of the adjacency list. */
  predicate PathsOk(adj: AdjList, queue: seq<seq<NodeId>>)
  {
    forall i :: 0 <= i < |queue| ==> |queue[i]| > 0 && Last(queue[i]) in adj
  }

  /**
   * The pass over `nbrs` for the dequeued `path`: each neighbour not yet
   * visited is marked visited and `path + [neighbour]` is enqueued.
   */
  function Expand(adj: AdjList, path: seq<NodeId>, nbrs: seq<NodeId>,
                  queue: seq<seq<NodeId>>, visited: set<NodeId>): (r: Frontier)
    requires forall i :: 0 <= i < |nbrs| ==> nbrs[i] in adj
    requires visited <= adj.Keys && PathsOk(adj, queue)
    ensures visited <= r.visited <= adj.Keys && PathsOk(adj, r.queue)
    ensures |r.queue| == |queue| + |r.visited| - |visited|
    decreases |nbrs|
  {
    if nbrs == [] then Frontier(queue, visited)
    else if nbrs[0] in visited then Expand(adj, path, nbrs[1..], queue, visited)
    else Expand(adj, path, nbrs[1..], queue + [path + [nbrs[0]]], visited + {nbrs[0]})
  }

  /** The outer loop of the search: dequeue a path, return it if it ends at `end`, else expand it. */
  function BfsLoop(adj: AdjList, end: NodeId, queue: seq<seq<NodeId>>, visited: set<NodeId>): Option<seq<NodeId>>
    requires AdjClosed(adj) && visited <= adj.Keys && PathsOk(adj, queue)
    decreases |adj.Keys - visited|, |queue|
  {
    if queue == [] then None
    else
      var path := queue[0];
      if Last(path) == end then Some(path)
      else
        var f := Expand(adj, path, adj[Last(path)], queue[1..], visited);
        FrontierProgress(adj.Keys, visited, f.visited);
        BfsLoop(adj, end, f.queue, f.visited)
  }

  /** The route the simulation uses from `start` to `end`, or `None` when there is none. */
  function ShortestPath(adj: AdjList, start: NodeId, end: NodeId): Option<seq<NodeId>>
    requires AdjClosed(adj) && start in adj
  {
    BfsLoop(adj, end, [[start]], {start})
  }

  /** Growing the visited set shrinks the set of unvisited nodes. */
  lemma FrontierProgress(keys: set<NodeId>, v0: set<NodeId>, v1: set<NodeId>)
    requires v0 <= v1 <= keys
    ensures |keys - v1| <= |keys - v0|
    ensures |v1| > |v0| ==> |keys - v1| < |keys - v0|
  {
    SubsetRemainder(keys, v0);
    SubsetRemainder(keys, v1);
    SubsetRemainder(v1, v0);
  }

  lemma SubsetRemainder(a: set<NodeId>, b: set<NodeId>)
    requires b <= a
    ensures |a - b| == |a| - |b|
  {
    assert a == (a - b) + b;
    assert (a - b) * b == {};
  }

  /**
   * Breadth-first search from `start`: dequeue a path, stop if it ends at
   * `end`, otherwise extend it by every unvisited neighbour in adjacency
   * order. Returns `None` when the queue runs dry.
   */
  method FindShortestPath(adj: AdjList, start: NodeId, end: NodeId) returns (r: Option<seq<NodeId>>)
    requires AdjClosed(adj) && start in adj
    ensures r == ShortestPath(adj, start, end)
    ensures r.Some? <==> Reachable(adj, start, end)
    ensures r.Some? ==> IsRoute(adj, start, end, r.value) && NoShorterWalk(adj, start, end, |r.value|)
    ensures start == end ==> r == Some([start])
  {
    r := None;
    var queue := [[start]];
    var visited := {start};
    while |queue| > 0
      invariant visited <= adj.Keys && PathsOk(adj, queue)
      invariant BfsLoop(adj, end, queue, visited) == ShortestPath(adj, start, end)
      invariant r == None
      decreases |adj.Keys - visited|, |queue|
    {
      var path := queue[0];
      queue := queue[1..];
      var node := path[|path| - 1];
      if node == end {
        r := Some(path);
        break;
      }
      ghost var visited0 := visited;
      queue, visited := VisitNeighbours(adj, path, queue, visited);
      FrontierProgress(adj.Keys, visited0, visited);
    }
    ShortestPathCorrect(adj, start, end);
  }

  /** The pass over the neighbours of the dequeued path's last node, as `Expand` specifies it. */
  method VisitNeighbours(adj: AdjList, path: seq<NodeId>, queue: seq<seq<NodeId>>, visited: set<NodeId>)
    returns (queue': seq<seq<NodeId>>, visited': set<NodeId>)
    requires AdjClosed(adj) && |path| > 0 && Last(path) in adj
    requires visited <= adj.Keys && PathsOk(adj, queue)
    ensures Frontier(queue', visited') == Expand(adj, path, adj[Last(path)], queue, visited)
  {
    var nbrs := adj[Last(path)];
    queue', visited' := queue, visited;
    for i := 0 to |nbrs|
      invariant visited <= visited' <= adj.Keys && PathsOk(adj, queue')
      invariant Expand(adj, path, nbrs[i..], queue', visited') == Expand(adj, path, nbrs, queue, visited)
    {
      var neighbor := nbrs[i];
      assert nbrs[i..][1..] == nbrs[i + 1..];
      if neighbor !in visited' {
        visited' := visited' + {neighbor};
        queue' := queue' + [path + [neighbor]];
      }
    }
    assert nbrs[|nbrs|..] == [];
  }

  // ----- Correctness of the search -----

  /** Each node of `done` has had all its neighbours visited. */
  ghost predicate Closed(adj: AdjList, done: set<NodeId>, visited: set<NodeId>)
  {
    forall x, y :: x in done && x in adj && y in adj[x] ==> y in visited
  }

  /** A queued path: a route from `s` through visited nodes with no shorter walk to its end. */
  ghost predicate Tracked(adj: AdjList, s: NodeId, visited: set<NodeId>, p: seq<NodeId>)
  {
    IsWalk(adj, p) && p[0] == s && Distinct(p)
    && (forall k :: 0 <= k < |p| ==> p[k] in visited)
    && NoShorterWalk(adj, s, Last(p), |p|)
  }

  /** Queued paths grow by at most one node from front to back. */
  ghost predicate Layered(queue: seq<seq<NodeId>>)
  {
    forall i, j :: 0 <= i <= j < |queue| ==> |queue[i]| <= |queue[j]| <= |queue[i]| + 1
  }

  /**
   * The loop invariant of the search from `s` to `e`, with `done` the nodes
   * whose paths have been dequeued and expanded.
   */
  ghost predicate BfsInv(adj: AdjList, s: NodeId, e: NodeId, queue: seq<seq<NodeId>>,
                         visited: set<NodeId>, done: set<NodeId>)
  {
    AdjClosed(adj) && s in adj && visited <= adj.Keys && done <= visited && s in visited
    && e !in done
    && Closed(adj, done, visited)
    && (forall i :: 0 <= i < |queue| ==> Tracked(adj, s, visited, queue[i]))
    && Layered(queue)
    && (forall x :: x in visited && x !in done ==> exists i :: 0 <= i < |queue| && Last(queue[i]) == x)
  }

  /** The invariant while the neighbours of `Last(p)` are being enqueued. */
  ghost predicate ExpandInv(adj: AdjList, s: NodeId, e: NodeId, p: seq<NodeId>,
                            queue: seq<seq<NodeId>>, visited: set<NodeId>, done: set<NodeId>)
  {
    AdjClosed(adj) && s in adj && visited <= adj.Keys && done <= visited && s in visited
    && e !in done && |p| > 0 && Last(p) != e
    && Closed(adj, done, visited)
    && Tracked(adj, s, visited, p)
    && (forall i :: 0 <= i < |queue| ==> Tracked(adj, s, visited, queue[i]))
    && (forall i :: 0 <= i < |queue| ==> |p| <= |queue[i]| <= |p| + 1)
    && (forall i, j :: 0 <= i <= j < |queue| ==> |queue[i]| <= |queue[j]|)
    && (forall x :: x in visited && x !in done ==>
          x == Last(p) || exists i :: 0 <= i < |queue| && Last(queue[i]) == x)
  }

  /**
   * If every visited node outside `done` needs walks of at least `lev` nodes,
   * then every walk from `s` shorter than `lev` ends in `done`.
   */
  lemma {:induction false} ShortWalksDone(adj: AdjList, s: NodeId, visited: set<NodeId>,
                                          done: set<NodeId>, lev: nat, w: seq<NodeId>)
    requires done <= visited && s in visited && Closed(adj, done, visited)
    requires forall x :: x in visited && x !in done ==> NoShorterWalk(adj, s, x, lev)
    requires IsWalk(adj, w) && w[0] == s
    ensures |w| < lev ==> Last(w) in done
    decreases |w|
  {
    if |w| > 1 {
      var w' := w[..|w| - 1];
      assert IsWalk(adj, w');
      ShortWalksDone(adj, s, visited, done, lev, w');
      assert Last(w) in adj[Last(w')];
    }
  }

  /** Every walk from `s` of at most `lev` nodes ends at a visited node. */
  lemma ShortWalksVisited(adj: AdjList, s: NodeId, visited: set<NodeId>,
                          done: set<NodeId>, lev: nat, w: seq<NodeId>)
    requires done <= visited && s in visited && Closed(adj, done, visited)
    requires forall x :: x in visited && x !in done ==> NoShorterWalk(adj, s, x, lev)
    requires IsWalk(adj, w) && w[0] == s
    ensures |w| <= lev ==> Last(w) in visited
  {
    if |w| > 1 {
      var w' := w[..|w| - 1];
      assert IsWalk(adj, w');
      ShortWalksDone(adj, s, visited, done, lev, w');
      assert Last(w) in adj[Last(w')];
    }
  }

  /** A neighbour of `Last(p)` that is not yet visited has no walk shorter than `p + [n]`. */
  lemma NewNodeNoShorter(adj: AdjList, s: NodeId, e: NodeId, p: seq<NodeId>,
                         queue: seq<seq<NodeId>>, visited: set<NodeId>, done: set<NodeId>, n: NodeId)
    requires ExpandInv(adj, s, e, p, queue, visited, done)
    requires n !in visited
    ensures NoShorterWalk(adj, s, n, |p| + 1)
  {
    forall x | x in visited && x !in done ensures NoShorterWalk(adj, s, x, |p|) {
      if x != Last(p) {
        var i :| 0 <= i < |queue| && Last(queue[i]) == x;
        assert Tracked(adj, s, visited, queue[i]);
      }
    }
    forall w | IsWalk(adj, w) && w[0] == s && Last(w) == n ensures |w| >= |p| + 1 {
      ShortWalksVisited(adj, s, visited, done, |p|, w);
    }
  }

  /** Once every neighbour of `Last(p)` is visited, `Last(p)` joins `done` and the loop invariant holds again. */
  lemma ExpandFinished(adj: AdjList, s: NodeId, e: NodeId, p: seq<NodeId>,
                       queue: seq<seq<NodeId>>, visited: set<NodeId>, done: set<NodeId>)
    requires ExpandInv(adj, s, e, p, queue, visited, done)
    requires forall y :: y in adj[Last(p)] ==> y in visited
    ensures BfsInv(adj, s, e, queue, visited, done + {Last(p)})
  {
    var done' := done + {Last(p)};
    assert Closed(adj, done', visited);
    forall x | x in visited && x !in done'
      ensures exists i :: 0 <= i < |queue| && Last(queue[i]) == x
    {
    }
  }

  lemma TrackedGrow(adj: AdjList, s: NodeId, visited: set<NodeId>, visited': set<NodeId>, p: seq<NodeId>)
    requires Tracked(adj, s, visited, p) && visited <= visited'
    ensures Tracked(adj, s, visited', p)
  {
  }

  lemma TrackedExtend(adj: AdjList, s: NodeId, visited: set<NodeId>, p: seq<NodeId>, n: NodeId)
    requires AdjClosed(adj) && Tracked(adj, s, visited, p)
    requires n in adj[Last(p)] && n !in visited && NoShorterWalk(adj, s, n, |p| + 1)
    ensures Tracked(adj, s, visited + {n}, p + [n])
  {
    var q := p + [n];
    assert Last(q) == n;
    assert IsWalk(adj, q);
  }

  /** Enqueuing `p + [n]` for an unvisited neighbour `n` keeps the expansion invariant. */
  lemma ExpandVisit(adj: AdjList, s: NodeId, e: NodeId, p: seq<NodeId>, n: NodeId,
                    queue: seq<seq<NodeId>>, visited: set<NodeId>, done: set<NodeId>)
    requires ExpandInv(adj, s, e, p, queue, visited, done)
    requires n in adj[Last(p)] && n !in visited
    ensures ExpandInv(adj, s, e, p, queue + [p + [n]], visited + {n}, done)
  {
    NewNodeNoShorter(adj, s, e, p, queue, visited, done, n);
    ExpandVisitTracked(adj, s, p, n, queue, visited);
    ExpandVisitCovered(adj, s, e, p, n, queue, visited, done);
    assert Closed(adj, done, visited + {n});
  }

  /** After enqueuing `p + [n]`, every queued path is still tracked and the queue lengths stay within one layer. */
  lemma ExpandVisitTracked(adj: AdjList, s: NodeId, p: seq<NodeId>, n: NodeId,
                           queue: seq<seq<NodeId>>, visited: set<NodeId>)
    requires AdjClosed(adj) && Tracked(adj, s, visited, p)
    requires n in adj[Last(p)] && n !in visited && NoShorterWalk(adj, s, n, |p| + 1)
    requires forall i :: 0 <= i < |queue| ==> Tracked(adj, s, visited, queue[i])
    requires forall i :: 0 <= i < |queue| ==> |p| <= |queue[i]| <= |p| + 1
    requires forall i, j :: 0 <= i <= j < |queue| ==> |queue[i]| <= |queue[j]|
    ensures var queue' := queue + [p + [n]];
            Tracked(adj, s, visited + {n}, p)
            && (forall i :: 0 <= i < |queue'| ==> Tracked(adj, s, visited + {n}, queue'[i]))
            && (forall i :: 0 <= i < |queue'| ==> |p| <= |queue'[i]| <= |p| + 1)
            && (forall i, j :: 0 <= i <= j < |queue'| ==> |queue'[i]| <= |queue'[j]|)
  {
    var queue' := queue + [p + [n]];
    var visited' := visited + {n};
    TrackedExtend(adj, s, visited, p, n);
    TrackedGrow(adj, s, visited, visited', p);
    forall i | 0 <= i < |queue'| ensures Tracked(adj, s, visited', queue'[i]) {
      if i < |queue| {
        TrackedGrow(adj, s, visited, visited', queue[i]);
      }
    }
  }

  /** After enqueuing `p + [n]`, every visited node not yet done is `Last(p)` or ends a queued path. */
  lemma ExpandVisitCovered(adj: AdjList, s: NodeId, e: NodeId, p: seq<NodeId>, n: NodeId,
                           queue: seq<seq<NodeId>>, visited: set<NodeId>, done: set<NodeId>)
    requires |p| > 0 && forall i :: 0 <= i < |queue| ==> |queue[i]| > 0
    requires forall x :: x in visited && x !in done ==>
               x == Last(p) || exists i :: 0 <= i < |queue| && Last(queue[i]) == x
    ensures forall x :: x in visited + {n} && x !in done ==>
              x == Last(p) || exists i :: 0 <= i < |queue + [p + [n]]| && Last((queue + [p + [n]])[i]) == x
  {
    var queue' := queue + [p + [n]];
    forall x | x in visited + {n} && x !in done
      ensures x == Last(p) || exists i :: 0 <= i < |queue'| && Last(queue'[i]) == x
    {
      if x == n {
        assert Last(queue'[|queue|]) == x;
      } else if x != Last(p) {
        var i :| 0 <= i < |queue| && Last(queue[i]) == x;
        assert Last(queue'[i]) == x;
      }
    }
  }

  /** Expanding the dequeued path `p` over its remaining neighbours `nbrs` restores the loop invariant. */
  lemma {:induction false} ExpandCorrect(adj: AdjList, s: NodeId, e: NodeId, p: seq<NodeId>, nbrs: seq<NodeId>,
                                         queue: seq<seq<NodeId>>, visited: set<NodeId>, done: set<NodeId>)
    requires ExpandInv(adj, s, e, p, queue, visited, done)
    requires forall i :: 0 <= i < |nbrs| ==> nbrs[i] in adj[Last(p)]
    requires forall y :: y in adj[Last(p)] ==> y in visited || y in nbrs
    ensures forall i :: 0 <= i < |nbrs| ==> nbrs[i] in adj
    ensures PathsOk(adj, queue)
    ensures var f := Expand(adj, p, nbrs, queue, visited);
            BfsInv(adj, s, e, f.queue, f.visited, done + {Last(p)})
    decreases |nbrs|
  {
    assert PathsOk(adj, queue) by {
      forall i | 0 <= i < |queue| ensures |queue[i]| > 0 && Last(queue[i]) in adj {
        assert Tracked(adj, s, visited, queue[i]);
      }
    }
    if nbrs == [] {
      ExpandFinished(adj, s, e, p, queue, visited, done);
    } else if nbrs[0] in visited {
      ExpandCorrect(adj, s, e, p, nbrs[1..], queue, visited, done);
    } else {
      ExpandVisit(adj, s, e, p, nbrs[0], queue, visited, done);
      ExpandCorrect(adj, s, e, p, nbrs[1..], queue + [p + [nbrs[0]]], visited + {nbrs[0]}, done);
    }
  }

  /** The outer loop, started in a state satisfying the invariant, returns a shortest route or reports that none exists. */
  lemma {:induction false} BfsLoopCorrect(adj: AdjList, s: NodeId, e: NodeId, queue: seq<seq<NodeId>>,
                                          visited: set<NodeId>, done: set<NodeId>)
    requires BfsInv(adj, s, e, queue, visited, done)
    ensures PathsOk(adj, queue)
    ensures var r := BfsLoop(adj, e, queue, visited);
            (r.Some? ==> IsRoute(adj, s, e, r.value) && NoShorterWalk(adj, s, e, |r.value|))
            && (r.None? ==> !Reachable(adj, s, e))
    decreases |adj.Keys - visited|, |queue|
  {
    assert PathsOk(adj, queue) by {
      forall i | 0 <= i < |queue| ensures |queue[i]| > 0 && Last(queue[i]) in adj {
        assert Tracked(adj, s, visited, queue[i]);
      }
    }
    if queue == [] {
      forall w | IsWalk(adj, w) && w[0] == s ensures Last(w) != e {
        ShortWalksDone(adj, s, visited, done, |w| + 1, w);
      }
    } else {
      var p := queue[0];
      assert Tracked(adj, s, visited, p);
      if Last(p) != e {
        var u := Last(p);
        var rest := queue[1..];
        forall x | x in visited && x !in done
          ensures x == u || exists i :: 0 <= i < |rest| && Last(rest[i]) == x
        {
          var i :| 0 <= i < |queue| && Last(queue[i]) == x;
          if i > 0 {
            assert Last(rest[i - 1]) == x;
          }
        }
        forall i | 0 <= i < |rest| ensures Tracked(adj, s, visited, rest[i]) && |p| <= |rest[i]| <= |p| + 1 {
          assert rest[i] == queue[i + 1];
        }
        assert ExpandInv(adj, s, e, p, rest, visited, done);
        ExpandCorrect(adj, s, e, p, adj[u], rest, visited, done);
        var f := Expand(adj, p, adj[u], rest, visited);
        FrontierProgress(adj.Keys, visited, f.visited);
        BfsLoopCorrect(adj, s, e, f.queue, f.visited, done + {u});
      }
    }
  }

  /**
   * `ShortestPath(adj, s, e)` is a route from `s` to `e` that repeats no node
   * and has no shorter walk, exactly when `e` is reachable from `s`; from a
   * node to itself the route is `[s]`.
   */
  lemma ShortestPathCorrect(adj: AdjList, s: NodeId, e: NodeId)
    requires AdjClosed(adj) && s in adj
    ensures var r := ShortestPath(adj, s, e);
            (r.Some? <==> Reachable(adj, s, e))
            && (r.Some? ==> IsRoute(adj, s, e, r.value) && NoShorterWalk(adj, s, e, |r.value|))
            && (s == e ==> r == Some([s]))
  {
    var q := [[s]];
    assert IsWalk(adj, [s]);
    assert Tracked(adj, s, {s}, [s]);
    assert Last(q[0]) == s;
    BfsLoopCorrect(adj, s, e, q, {s}, {});
    var r := ShortestPath(adj, s, e);
    if r.Some? {
      assert IsWalk(adj, r.value) && r.value[0] == s && Last(r.value) == e;
    }
  }

  /** The second node of a found route is a neighbour of the first, which is the start. */
  lemma ShortestPathFirstHop(adj: AdjList, s: NodeId, e: NodeId)
    requires AdjClosed(adj) && s in adj
    ensures var r := ShortestPath(adj, s, e);
            r.Some? ==> |r.value| > 0 && r.value[0] == s
                        && (|r.value| >= 2 ==> r.value[1] in adj[s] && r.value[1] != s)
  {
    ShortestPathCorrect(adj, s, e);
  }
}
