/** Finite relations: a relation without cycles can be listed so that every edge points forward. */
module Orders {

  ghost predicate Steps(edges: set<(nat, nat)>, c: seq<nat>) {
    forall i | 0 <= i < |c| - 1 :: (c[i], c[i + 1]) in edges
  }

  ghost predicate IsCycle(edges: set<(nat, nat)>, c: seq<nat>) {
    c != [] && Steps(edges, c) && (c[|c| - 1], c[0]) in edges
  }

  ghost predicate Acyclic(edges: set<(nat, nat)>) {
    forall c :: !IsCycle(edges, c)
  }

  ghost predicate Distinct<T>(s: seq<T>) {
    forall i, j | 0 <= i < j < |s| :: s[i] != s[j]
  }

  ghost function Below(n: nat): (s: set<nat>)
    ensures forall i: nat :: i in s <==> i < n
  {
    if n == 0 then {} else Below(n - 1) + {n - 1}
  }

  /** Every node exactly once. */
  ghost predicate Lists(order: seq<nat>, nodes: set<nat>) {
    Distinct(order) && forall u :: u in order <==> u in nodes
  }

  ghost predicate Forward(edges: set<(nat, nat)>, order: seq<nat>) {
    forall i, j | 0 <= i <= j < |order| :: (order[j], order[i]) !in edges
  }

  /** Walking backwards along edges must stop, because a repeated node would close a cycle. */
  lemma {:induction false} FindSource(edges: set<(nat, nat)>, nodes: set<nat>) returns (v: nat)
    requires Acyclic(edges) && nodes != {}
    ensures v in nodes && forall u | u in nodes :: (u, v) !in edges
  {
    v :| v in nodes;
    var walk, seen := [v], {v};
    while exists u :: u in nodes && (u, v) in edges
      invariant walk != [] && walk[0] == v && v in nodes && Steps(edges, walk)
      invariant seen <= nodes && forall u :: u in walk <==> u in seen
      decreases nodes - seen
    {
      var u :| u in nodes && (u, v) in edges;
      if u in walk {
        var k :| 0 <= k < |walk| && walk[k] == u;
        assert IsCycle(edges, walk[..k + 1]);
      }
      walk, seen, v := [u] + walk, seen + {u}, u;
    }
  }

  /** A topological order exists. */
  lemma {:induction false} Linearize(edges: set<(nat, nat)>, nodes: set<nat>) returns (order: seq<nat>)
    requires Acyclic(edges)
    ensures Lists(order, nodes) && Forward(edges, order)
    decreases nodes
  {
    if nodes == {} {
      return [];
    }
    var v := FindSource(edges, nodes);
    var rest := Linearize(edges, nodes - {v});
    order := [v] + rest;
    forall i, j | 0 <= i <= j < |order| ensures (order[j], order[i]) !in edges {
      if i == 0 {
        assert order[j] in nodes;
      }
    }
  }

  /** Conversely, edges that all point forward in one list close no cycle. */
  lemma {:induction false} ForwardIsAcyclic(edges: set<(nat, nat)>, order: seq<nat>, c: seq<nat>)
    requires Forward(edges, order)
    requires forall u, v | (u, v) in edges :: u in order && v in order
    ensures !IsCycle(edges, c)
  {
    if IsCycle(edges, c) {
      assert (c[|c| - 1], c[0]) in edges;
      var first :| 0 <= first < |order| && order[first] == c[0];
      var i, at := 0, first;
      while i < |c| - 1
        invariant 0 <= i < |c| && first <= at < |order| && order[at] == c[i]
      {
        assert (c[i], c[i + 1]) in edges;
        var next :| 0 <= next < |order| && order[next] == c[i + 1];
        i, at := i + 1, next;
      }
    }
  }
}
