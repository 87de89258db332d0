/** The minimal-cycle search of the serializability checker (src/simloom/_consistency.py:102-132). */
module Cycles {
  import opened Wrappers
  import opened Orders

  type Successors = map<nat, seq<nat>>

  function Next(succ: Successors, u: nat): seq<nat> {
    if u in succ then succ[u] else []
  }

  ghost function Edges(succ: Successors): (edges: set<(nat, nat)>)
    ensures forall u: nat, v: nat :: (u, v) in edges <==> v in Next(succ, u)
  {
    set u, v | u in succ && v in succ[u] :: (u, v)
  }

  // --- breadth-first search from one source ---

  /** `dist` is a tree of shortest steps rooted at the source, with `parent` links. */
  ghost predicate Rooted(succ: Successors, source: nat, dist: map<nat, nat>, parent: map<nat, nat>) {
    && source in dist && dist[source] == 0
    && forall v {:trigger HasParent(succ, dist, parent, v)} | v in dist && v != source ::
         HasParent(succ, dist, parent, v)
  }

  ghost predicate HasParent(succ: Successors, dist: map<nat, nat>, parent: map<nat, nat>, v: nat)
    requires v in dist
  {
    && v in parent && parent[v] in dist
    && (parent[v], v) in Edges(succ)
    && dist[v] == dist[parent[v]] + 1
  }

  /** The queue is ordered by distance, all of it at level `d` or `d + 1`. */
  ghost predicate Ordered(dist: map<nat, nat>, queue: seq<nat>, d: nat) {
    && (forall i | 0 <= i < |queue| :: queue[i] in dist && d <= dist[queue[i]] <= d + 1)
    && (forall i, j | 0 <= i < j < |queue| :: dist[queue[i]] <= dist[queue[j]])
  }

  /** Every edge out of `u` was followed and none of the first `n` led back to the source. */
  ghost predicate Followed(succ: Successors, source: nat, dist: map<nat, nat>, u: nat, n: nat)
    requires u in dist && n <= |Next(succ, u)|
  {
    forall k | 0 <= k < n :: var w := Next(succ, u)[k]; w != source && w in dist && dist[w] <= dist[u] + 1
  }

  ghost predicate Expanded(succ: Successors, source: nat, dist: map<nat, nat>, u: nat)
    requires u in dist
  {
    Followed(succ, source, dist, u, |Next(succ, u)|)
  }

  /** Too far from the source to beat a cycle of length `limit`. */
  ghost predicate Pruned(dist: map<nat, nat>, limit: Option<nat>, u: nat)
    requires u in dist
  {
    limit.Some? && dist[u] + 1 >= limit.value
  }

  ghost predicate Processed(succ: Successors, source: nat, limit: Option<nat>,
                            dist: map<nat, nat>, waiting: seq<nat>)
  {
    forall u | u in dist && u !in waiting :: Expanded(succ, source, dist, u) || Pruned(dist, limit, u)
  }

  /** A closed walk through the source climbs at most one level a step, so as long as every vertex
      below level `d` is expanded the walk needs more than `d` steps. */
  lemma {:induction false} NoCycleWithin(succ: Successors, source: nat, dist: map<nat, nat>, d: nat, c: seq<nat>)
    requires source in dist && dist[source] == 0
    requires forall u | u in dist && dist[u] < d :: Expanded(succ, source, dist, u)
    requires IsCycle(Edges(succ), c) && c[0] == source
    ensures |c| > d
  {
    if |c| <= d {
      var i := 0;
      while i < |c| - 1
        invariant 0 <= i < |c| && c[i] in dist && dist[c[i]] <= i
      {
        assert (c[i], c[i + 1]) in Edges(succ) && Expanded(succ, source, dist, c[i]);
        i := i + 1;
      }
    }
  }

  method PathTo(succ: Successors, source: nat, dist: map<nat, nat>, parent: map<nat, nat>, node: nat)
    returns (path: seq<nat>)
    requires Rooted(succ, source, dist, parent) && node in dist
    ensures |path| == dist[node] + 1 && path[0] == source && path[|path| - 1] == node
    ensures Steps(Edges(succ), path) && Distinct(path)
  {
    path := [node];
    while path[0] != source
      invariant path != [] && path[|path| - 1] == node
      invariant forall i | 0 <= i < |path| :: path[i] in dist
      invariant forall i | 0 <= i < |path| :: dist[path[i]] == dist[path[0]] + i
      invariant Steps(Edges(succ), path)
      decreases dist[path[0]]
    {
      assert HasParent(succ, dist, parent, path[0]);
      path := [parent[path[0]]] + path;
    }
  }

  ghost function Vertices(succ: Successors, source: nat): (s: set<nat>)
    ensures source in s
    ensures forall u: nat, v: nat | (u, v) in Edges(succ) :: v in s
  {
    {source} + set e | e in Edges(succ) :: e.1
  }

  /** What the search knows between two steps: `waiting` are the vertices not expanded yet. */
  ghost predicate Searching(succ: Successors, source: nat, limit: Option<nat>, dist: map<nat, nat>,
                            parent: map<nat, nat>, queue: seq<nat>, waiting: seq<nat>, d: nat)
  {
    && Rooted(succ, source, dist, parent)
    && dist.Keys <= Vertices(succ, source)
    && (forall v | v in dist :: dist[v] <= d + 1)
    && Ordered(dist, queue, d)
    && Processed(succ, source, limit, dist, waiting)
  }

  lemma DiscoverRoots(succ: Successors, source: nat, dist: map<nat, nat>, parent: map<nat, nat>, node: nat, nxt: nat)
    requires Rooted(succ, source, dist, parent) && dist.Keys <= Vertices(succ, source)
    requires node in dist && nxt in Next(succ, node) && nxt !in dist
    ensures Rooted(succ, source, dist[nxt := dist[node] + 1], parent[nxt := node])
    ensures dist[nxt := dist[node] + 1].Keys <= Vertices(succ, source)
  {
    var dist' := dist[nxt := dist[node] + 1];
    assert (node, nxt) in Edges(succ);
    forall v | v in dist' && v != source ensures HasParent(succ, dist', parent[nxt := node], v) {
      assert v != nxt ==> HasParent(succ, dist, parent, v);
    }
  }

  /** Meeting a vertex for the first time keeps all of it. */
  lemma DiscoverKeeps(succ: Successors, source: nat, limit: Option<nat>, dist: map<nat, nat>,
                      parent: map<nat, nat>, queue: seq<nat>, node: nat, n: nat)
    requires node in dist && Searching(succ, source, limit, dist, parent, queue, [node] + queue, dist[node])
    requires n < |Next(succ, node)| && Next(succ, node)[n] != source && Next(succ, node)[n] !in dist
    requires Followed(succ, source, dist, node, n)
    ensures
      var nxt := Next(succ, node)[n];
      var dist' := dist[nxt := dist[node] + 1];
      && Searching(succ, source, limit, dist', parent[nxt := node], queue + [nxt], [node] + (queue + [nxt]), dist[node])
      && Followed(succ, source, dist', node, n + 1)
      && dist.Keys < dist'.Keys
  {
    var nxt := Next(succ, node)[n];
    var dist' := dist[nxt := dist[node] + 1];
    DiscoverRoots(succ, source, dist, parent, node, nxt);
    forall u | u in dist' && u !in [node] + (queue + [nxt])
      ensures Expanded(succ, source, dist', u) || Pruned(dist', limit, u)
    {
      assert u in dist && u !in [node] + queue;
    }
    assert nxt in dist'.Keys && nxt !in dist.Keys;
  }

  lemma RevisitFollows(succ: Successors, source: nat, dist: map<nat, nat>, node: nat, n: nat)
    requires node in dist && n < |Next(succ, node)| && Followed(succ, source, dist, node, n)
    requires Next(succ, node)[n] != source
    requires Next(succ, node)[n] in dist && dist[Next(succ, node)[n]] <= dist[node] + 1
    ensures Followed(succ, source, dist, node, n + 1)
  {
  }

  /** Taking the first vertex off the queue. */
  lemma PopKeeps(succ: Successors, source: nat, limit: Option<nat>, dist: map<nat, nat>,
                 parent: map<nat, nat>, queue: seq<nat>, d: nat)
    requires queue != [] && Searching(succ, source, limit, dist, parent, queue, queue, d)
    ensures queue[0] in dist
    ensures Searching(succ, source, limit, dist, parent, queue[1..], [queue[0]] + queue[1..], dist[queue[0]])
    ensures forall u | u in dist && dist[u] < dist[queue[0]] :: u !in queue
  {
    assert [queue[0]] + queue[1..] == queue;
  }

  /** The popped vertex is pruned, or fully expanded: it need not wait any longer. */
  lemma DropKeeps(succ: Successors, source: nat, limit: Option<nat>, dist: map<nat, nat>,
                  parent: map<nat, nat>, queue: seq<nat>, node: nat, d: nat)
    requires node in dist && Searching(succ, source, limit, dist, parent, queue, [node] + queue, d)
    requires Expanded(succ, source, dist, node) || Pruned(dist, limit, node)
    ensures Searching(succ, source, limit, dist, parent, queue, queue, d)
  {
    forall u | u in dist && u !in queue
      ensures Expanded(succ, source, dist, u) || Pruned(dist, limit, u)
    {
      assert u != node ==> u !in [node] + queue;
    }
  }

  /** The cycle closed at `node` is as short as any through the source. */
  lemma ClosingIsShortest(succ: Successors, source: nat, limit: Option<nat>, dist: map<nat, nat>,
                          parent: map<nat, nat>, queue: seq<nat>, node: nat, other: seq<nat>)
    requires node in dist && Searching(succ, source, limit, dist, parent, queue, [node] + queue, dist[node])
    requires !Pruned(dist, limit, node)
    requires IsCycle(Edges(succ), other) && other[0] == source
    ensures dist[node] + 1 <= |other|
  {
    forall u | u in dist && dist[u] < dist[node] ensures Expanded(succ, source, dist, u) {
      assert u !in [node] + queue;
    }
    NoCycleWithin(succ, source, dist, dist[node], other);
  }

  /** Once the queue is empty, no cycle through the source beats the limit. */
  lemma ExhaustedIsShortest(succ: Successors, source: nat, limit: Option<nat>, dist: map<nat, nat>,
                            parent: map<nat, nat>, d: nat, other: seq<nat>)
    requires Searching(succ, source, limit, dist, parent, [], [], d)
    requires IsCycle(Edges(succ), other) && other[0] == source
    ensures limit.Some? && limit.value <= |other|
  {
    if limit.None? {
      NoCycleWithin(succ, source, dist, |other|, other);
    } else if limit.value > 0 {
      NoCycleWithin(succ, source, dist, limit.value - 1, other);
    }
  }

  /** The cycle is simple, starts at the source, is as short as any that does, and beats the limit. */
  ghost predicate Beats(succ: Successors, source: nat, limit: Option<nat>, c: seq<nat>) {
    && IsCycle(Edges(succ), c) && c[0] == source && Distinct(c)
    && (forall other | IsCycle(Edges(succ), other) && other[0] == source :: |c| <= |other|)
    && (limit.Some? ==> |c| < limit.value)
  }

  /** The search has met new vertices, or is where it was with one vertex less to expand. */
  ghost predicate Advanced(dist: map<nat, nat>, queue: seq<nat>, dist': map<nat, nat>, queue': seq<nat>) {
    (dist'.Keys == dist.Keys && queue' == queue) || dist.Keys < dist'.Keys
  }

  /** The inner loop: follows the edges of a popped vertex, until one leads back to the source. */
  method Expand(succ: Successors, source: nat, limit: Option<nat>, dist0: map<nat, nat>, parent0: map<nat, nat>,
                queue0: seq<nat>, node: nat)
    returns (found: Option<seq<nat>>, dist: map<nat, nat>, parent: map<nat, nat>, queue: seq<nat>)
    requires node in dist0 && !Pruned(dist0, limit, node)
    requires Searching(succ, source, limit, dist0, parent0, queue0, [node] + queue0, dist0[node])
    ensures found.Some? ==> Beats(succ, source, limit, found.value)
    ensures found.None? ==>
      Searching(succ, source, limit, dist, parent, queue, queue, dist0[node]) && Advanced(dist0, queue0, dist, queue)
  {
    found, dist, parent, queue := None, dist0, parent0, queue0;
    var n := 0;
    while n < |Next(succ, node)|
      invariant n <= |Next(succ, node)|
      invariant node in dist && dist[node] == dist0[node] && found == None
      invariant Searching(succ, source, limit, dist, parent, queue, [node] + queue, dist[node])
      invariant Followed(succ, source, dist, node, n)
      invariant Advanced(dist0, queue0, dist, queue)
    {
      var nxt := Next(succ, node)[n];
      if nxt == source {
        var path := PathTo(succ, source, dist, parent, node);
        forall other | IsCycle(Edges(succ), other) && other[0] == source ensures |path| <= |other| {
          ClosingIsShortest(succ, source, limit, dist, parent, queue, node, other);
        }
        found := Some(path);
        return;
      }
      if nxt in dist {
        RevisitFollows(succ, source, dist, node, n);
      } else {
        DiscoverKeeps(succ, source, limit, dist, parent, queue, node, n);
        dist, parent, queue := dist[nxt := dist[node] + 1], parent[nxt := node], queue + [nxt];
      }
      n := n + 1;
    }
    DropKeeps(succ, source, limit, dist, parent, queue, node, dist[node]);
  }

  /** The body of the search's outer loop: one breadth-first search from `source`, giving up on
      vertices that cannot beat the best cycle so far. */
  method ShortestFrom(succ: Successors, source: nat, limit: Option<nat>) returns (found: Option<seq<nat>>)
    ensures found.Some? ==> Beats(succ, source, limit, found.value)
    ensures found.None? ==>
      forall other | IsCycle(Edges(succ), other) && other[0] == source :: limit.Some? && limit.value <= |other|
  {
    var dist: map<nat, nat> := map[source := 0];
    var parent: map<nat, nat> := map[];
    var queue := [source];
    ghost var d: nat := 0;
    while queue != []
      invariant Searching(succ, source, limit, dist, parent, queue, queue, d)
      decreases Vertices(succ, source) - dist.Keys, |queue|
    {
      PopKeeps(succ, source, limit, dist, parent, queue, d);
      var node := queue[0];
      d := dist[node];
      queue := queue[1..];
      if limit.Some? && dist[node] + 1 >= limit.value {
        DropKeeps(succ, source, limit, dist, parent, queue, node, d);
        continue;
      }
      found, dist, parent, queue := Expand(succ, source, limit, dist, parent, queue, node);
      if found.Some? {
        return;
      }
    }
    forall other | IsCycle(Edges(succ), other) && other[0] == source
      ensures limit.Some? && limit.value <= |other|
    {
      ExhaustedIsShortest(succ, source, limit, dist, parent, d, other);
    }
    return None;
  }

  /** No cycle listed from one of `nodes` is shorter than `best`; None means there is none at all.
      The search stops early at a two-cycle, which only a self-loop could beat. */
  ghost predicate Shortest(succ: Successors, nodes: seq<nat>, best: Option<seq<nat>>) {
    forall c | IsCycle(Edges(succ), c) && c[0] in nodes ::
      best.Some? && (|best.value| <= |c| || (|best.value| == 2 && |c| == 1))
  }

  /** `_shortest_cycle`. */
  method ShortestCycle(succ: Successors, nodes: seq<nat>) returns (best: Option<seq<nat>>)
    ensures best.Some? ==> IsCycle(Edges(succ), best.value) && Distinct(best.value) && best.value[0] in nodes
    ensures Shortest(succ, nodes, best)
  {
    best := None;
    var i := 0;
    while i < |nodes|
      invariant i <= |nodes|
      invariant best.Some? ==> IsCycle(Edges(succ), best.value) && Distinct(best.value) && best.value[0] in nodes
      invariant Shortest(succ, nodes[..i], best)
    {
      var limit := if best.Some? then Some(|best.value|) else None;
      var found := ShortestFrom(succ, nodes[i], limit);
      assert forall u :: u in nodes[..i + 1] <==> u in nodes[..i] || u == nodes[i];
      i := i + 1;
      if found.Some? && (best.None? || |found.value| < |best.value|) {
        best := found;
        if |best.value| == 2 {
          return;
        }
      }
    }
    assert nodes[..i] == nodes;
  }
}
