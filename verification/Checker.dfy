/** The serializability checker itself (src/simloom/_consistency.py:78-99, 135-206). */
module Checker {
  import opened Wrappers
  import opened Histories
  import opened Serializability
  import opened Exactness
  import Orders
  import Cycles

  type Kinds = map<(nat, nat), DepKind>

  /** A recorded history of transactions, in completion order. */
  class History {
    var txns: seq<Transaction>

    ghost predicate Valid()
      reads this
    {
      Indexed(txns)
    }

    constructor ()
      ensures Valid() && txns == []
    {
      txns := [];
    }

    method Record(ops: seq<Op>, process: int)
      requires Valid()
      modifies this
      ensures Valid() && txns == old(txns) + [Transaction(|old(txns)|, process, ops)]
    {
      txns := txns + [Transaction(|txns|, process, ops)];
    }
  }

  // ---------------------------------------------------------------------------------------------
  // The graph
  // ---------------------------------------------------------------------------------------------

  /** Nothing recorded so far was changed. */
  ghost predicate Grew(before: Kinds, after: Kinds) {
    forall e | e in before :: e in after && after[e] == before[e]
  }

  ghost predicate Has(types: Kinds, u: nat, v: nat) {
    u == v || (u, v) in types
  }

  /** Every recorded edge is a dependency of the recorded kind between two transactions. */
  ghost predicate Sound(h: seq<Transaction>, types: Kinds) {
    forall u, v | (u, v) in types :: u != v && Dependency(h, u, v, types[(u, v)])
  }

  class Graph {
    var succ: Cycles.Successors
    var types: Kinds

    ghost predicate Valid()
      reads this
    {
      Cycles.Edges(succ) == types.Keys
    }

    constructor ()
      ensures Valid() && types == map[]
    {
      succ, types := map[], map[];
    }

    /** Self-edges are dropped, and the first kind recorded for an edge stays. */
    method Add(u: nat, v: nat, kind: DepKind)
      requires Valid()
      modifies this
      ensures Valid() && Has(types, u, v)
      ensures types == if u == v || (u, v) in old(types) then old(types) else old(types)[(u, v) := kind]
    {
      if u == v {
        return;
      }
      if (u, v) !in types {
        succ := succ[u := Cycles.Next(succ, u) + [v]];
        types := types[(u, v) := kind];
      }
    }
  }

  /** Adds a dependency, unless it relates a transaction to itself. */
  method AddDependency(graph: Graph, u: nat, v: nat, kind: DepKind, ghost h: seq<Transaction>)
    requires graph.Valid() && Sound(h, graph.types) && Dependency(h, u, v, kind)
    modifies graph
    ensures graph.Valid() && Sound(h, graph.types) && Grew(old(graph.types), graph.types)
    ensures Has(graph.types, u, v)
  {
    graph.Add(u, v, kind);
  }

  // ---------------------------------------------------------------------------------------------
  // Pass 1: version orders and appenders
  // ---------------------------------------------------------------------------------------------

  /** `keys` lists the keys of the version orders as they were first inserted. */
  method Recover(h: seq<Transaction>) returns (s: Scan, keys: seq<Key>)
    requires Indexed(h)
    ensures s == ScanAll(h)
    ensures forall k :: k in keys <==> k in s.orders
  {
    s, keys := Scan(map[], map[]), [];
    var i := 0;
    while i < |h|
      invariant i <= |h| && s == ScanAll(h[..i])
      invariant forall k :: k in keys <==> k in s.orders
    {
      var ops := h[i].ops;
      ghost var before := s;
      var j := 0;
      while j < |ops|
        invariant j <= |ops| && s == ScanOps(before, i, ops[..j])
        invariant forall k :: k in keys <==> k in s.orders
      {
        assert ops[..j + 1][..j] == ops[..j];
        match ops[j] {
          case Append(_, v) =>
            s := s.(appender := s.appender[v := h[i].index]);
          case Read(k, observed) =>
            if k !in s.orders {
              keys := keys + [k];
            }
            if k !in s.orders || |observed| > |s.orders[k]| {
              s := s.(orders := s.orders[k := observed]);
            }
        }
        j := j + 1;
      }
      assert ops[..j] == ops;
      assert h[..i + 1][..i] == h[..i];
      i := i + 1;
    }
    assert h[..i] == h;
  }

  // ---------------------------------------------------------------------------------------------
  // Passes 2 and 3: the edges of one key
  // ---------------------------------------------------------------------------------------------

  ghost predicate VersionsLinked(s: Scan, types: Kinds, k: Key, n: nat) {
    forall u, v, i: nat | WriteWrite(s, u, v, k, i) && i < n :: Has(types, u, v)
  }

  ghost predicate ObservedLinked(s: Scan, types: Kinds, t: nat, observed: seq<Value>) {
    forall x, w | x in observed && Wrote(s, x, w) :: Has(types, w, t)
  }

  ghost predicate UnseenLinked(s: Scan, types: Kinds, t: nat, k: Key, observed: seq<Value>, n: nat) {
    forall w, j: nat | ReadWrite(s, w, k, observed, j) && j < n :: Has(types, t, w)
  }

  ghost predicate ReadLinked(s: Scan, types: Kinds, t: nat, k: Key, observed: seq<Value>) {
    && ObservedLinked(s, types, t, observed)
    && UnseenLinked(s, types, t, k, observed, |At(s.orders, k)|)
  }

  ghost predicate OpLinked(s: Scan, types: Kinds, t: nat, k: Key, op: Op) {
    op.Read? && op.key == k ==> ReadLinked(s, types, t, k, op.observed)
  }

  ghost predicate OpsLinked(s: Scan, types: Kinds, t: nat, k: Key, ops: seq<Op>) {
    forall op | op in ops :: OpLinked(s, types, t, k, op)
  }

  ghost predicate TransactionsLinked(h: seq<Transaction>, s: Scan, types: Kinds, k: Key, n: nat)
    requires n <= |h|
  {
    forall t | 0 <= t < n :: OpsLinked(s, types, t, k, h[t].ops)
  }

  ghost predicate KeyLinked(h: seq<Transaction>, s: Scan, types: Kinds, k: Key) {
    VersionsLinked(s, types, k, |At(s.orders, k)|) && TransactionsLinked(h, s, types, k, |h|)
  }

  lemma VersionsLinkedNext(s: Scan, before: Kinds, after: Kinds, k: Key, i: nat)
    requires Grew(before, after) && VersionsLinked(s, before, k, i)
    requires forall u, v | WriteWrite(s, u, v, k, i) :: Has(after, u, v)
    ensures VersionsLinked(s, after, k, i + 1)
  {
    forall u, v, j: nat | WriteWrite(s, u, v, k, j) && j < i + 1 ensures Has(after, u, v) {
      assert j < i ==> Has(before, u, v);
    }
  }

  /** ww edges along the version order. */
  method LinkVersions(graph: Graph, s: Scan, k: Key, ghost h: seq<Transaction>)
    requires graph.Valid() && s == ScanAll(h) && k in s.orders && Sound(h, graph.types)
    modifies graph
    ensures graph.Valid() && Sound(h, graph.types) && Grew(old(graph.types), graph.types)
    ensures VersionsLinked(s, graph.types, k, |s.orders[k]|)
  {
    var order := s.orders[k];
    var i := 0;
    while i < |order| - 1
      invariant 0 <= i && (i < |order| || order == [])
      invariant graph.Valid() && Sound(h, graph.types) && Grew(old(graph.types), graph.types)
      invariant VersionsLinked(s, graph.types, k, i)
    {
      ghost var before := graph.types;
      if order[i] in s.appender && order[i + 1] in s.appender {
        assert WriteWrite(s, s.appender[order[i]], s.appender[order[i + 1]], k, i);
        AddDependency(graph, s.appender[order[i]], s.appender[order[i + 1]], WW, h);
      }
      VersionsLinkedNext(s, before, graph.types, k, i);
      i := i + 1;
    }
  }

  /** wr edges: the writer of an observed value precedes the reader. */
  method LinkObserved(graph: Graph, s: Scan, t: nat, k: Key, observed: seq<Value>, ghost h: seq<Transaction>)
    requires graph.Valid() && s == ScanAll(h) && Sound(h, graph.types)
    requires t < |h| && Read(k, observed) in h[t].ops
    modifies graph
    ensures graph.Valid() && Sound(h, graph.types) && Grew(old(graph.types), graph.types)
    ensures ObservedLinked(s, graph.types, t, observed)
  {
    var i := 0;
    while i < |observed|
      invariant i <= |observed|
      invariant graph.Valid() && Sound(h, graph.types) && Grew(old(graph.types), graph.types)
      invariant ObservedLinked(s, graph.types, t, observed[..i])
    {
      assert forall x :: x in observed[..i + 1] <==> x in observed[..i] || x == observed[i];
      if observed[i] in s.appender {
        assert observed[i] in observed && Wrote(s, observed[i], s.appender[observed[i]]);
        AddDependency(graph, s.appender[observed[i]], t, WR, h);
      }
      i := i + 1;
    }
    assert observed[..i] == observed;
  }

  /** rw edges: the reader precedes the writer of every version it did not see. */
  method LinkUnseen(graph: Graph, s: Scan, t: nat, k: Key, observed: seq<Value>, ghost h: seq<Transaction>)
    requires graph.Valid() && s == ScanAll(h) && k in s.orders && Sound(h, graph.types)
    requires t < |h| && Read(k, observed) in h[t].ops
    modifies graph
    ensures graph.Valid() && Sound(h, graph.types) && Grew(old(graph.types), graph.types)
    ensures UnseenLinked(s, graph.types, t, k, observed, |s.orders[k]|)
  {
    var order := s.orders[k];
    var j := LastSeen(order, observed) + 1;
    while j < |order|
      invariant LastSeen(order, observed) < j <= |order|
      invariant graph.Valid() && Sound(h, graph.types) && Grew(old(graph.types), graph.types)
      invariant UnseenLinked(s, graph.types, t, k, observed, j)
    {
      if order[j] in s.appender {
        assert ReadWrite(s, s.appender[order[j]], k, observed, j);
        AddDependency(graph, t, s.appender[order[j]], RW, h);
      }
      j := j + 1;
    }
  }

  lemma LinksStay(s: Scan, before: Kinds, after: Kinds, t: nat, k: Key, ops: seq<Op>)
    requires Grew(before, after) && OpsLinked(s, before, t, k, ops)
    ensures OpsLinked(s, after, t, k, ops)
  {
    forall op | op in ops ensures OpLinked(s, after, t, k, op) {
      assert OpLinked(s, before, t, k, op);
    }
  }

  lemma OpsLinkedNext(s: Scan, before: Kinds, after: Kinds, t: nat, k: Key, ops: seq<Op>, i: nat)
    requires i < |ops| && Grew(before, after) && OpsLinked(s, before, t, k, ops[..i])
    requires OpLinked(s, after, t, k, ops[i])
    ensures OpsLinked(s, after, t, k, ops[..i + 1])
  {
    LinksStay(s, before, after, t, k, ops[..i]);
    assert forall op :: op in ops[..i + 1] <==> op in ops[..i] || op == ops[i];
  }

  lemma KeyLinksStay(h: seq<Transaction>, s: Scan, before: Kinds, after: Kinds, k: Key, n: nat)
    requires n <= |h| && Grew(before, after)
    requires TransactionsLinked(h, s, before, k, n)
    ensures TransactionsLinked(h, s, after, k, n)
  {
    forall t | 0 <= t < n ensures OpsLinked(s, after, t, k, h[t].ops) {
      LinksStay(s, before, after, t, k, h[t].ops);
    }
  }

  method LinkRead(graph: Graph, s: Scan, t: nat, k: Key, observed: seq<Value>, ghost h: seq<Transaction>)
    requires graph.Valid() && s == ScanAll(h) && k in s.orders && Sound(h, graph.types)
    requires t < |h| && Read(k, observed) in h[t].ops
    modifies graph
    ensures graph.Valid() && Sound(h, graph.types) && Grew(old(graph.types), graph.types)
    ensures ReadLinked(s, graph.types, t, k, observed)
  {
    LinkObserved(graph, s, t, k, observed, h);
    LinkUnseen(graph, s, t, k, observed, h);
  }

  method LinkReads(graph: Graph, s: Scan, t: nat, k: Key, h: seq<Transaction>)
    requires graph.Valid() && s == ScanAll(h) && k in s.orders && Sound(h, graph.types) && t < |h|
    modifies graph
    ensures graph.Valid() && Sound(h, graph.types) && Grew(old(graph.types), graph.types)
    ensures OpsLinked(s, graph.types, t, k, h[t].ops)
  {
    var ops := h[t].ops;
    var i := 0;
    while i < |ops|
      invariant i <= |ops|
      invariant graph.Valid() && Sound(h, graph.types) && Grew(old(graph.types), graph.types)
      invariant OpsLinked(s, graph.types, t, k, ops[..i])
    {
      ghost var before := graph.types;
      if ops[i].Read? && ops[i].key == k {
        assert Read(k, ops[i].observed) in ops;
        LinkRead(graph, s, t, k, ops[i].observed, h);
      }
      OpsLinkedNext(s, before, graph.types, t, k, ops, i);
      i := i + 1;
    }
    assert ops[..i] == ops;
  }

  method LinkKey(graph: Graph, s: Scan, k: Key, h: seq<Transaction>)
    requires graph.Valid() && s == ScanAll(h) && k in s.orders && Sound(h, graph.types)
    modifies graph
    ensures graph.Valid() && Sound(h, graph.types) && Grew(old(graph.types), graph.types)
    ensures KeyLinked(h, s, graph.types, k)
  {
    LinkVersions(graph, s, k, h);
    ghost var linked := graph.types;
    var t := 0;
    while t < |h|
      invariant t <= |h|
      invariant graph.Valid() && Sound(h, graph.types) && Grew(old(graph.types), graph.types)
      invariant Grew(linked, graph.types) && TransactionsLinked(h, s, graph.types, k, t)
    {
      ghost var before := graph.types;
      LinkReads(graph, s, t, k, h);
      KeyLinksStay(h, s, before, graph.types, k, t);
      t := t + 1;
    }
  }

  lemma AllLinksStay(h: seq<Transaction>, s: Scan, before: Kinds, after: Kinds, keys: seq<Key>)
    requires Grew(before, after) && forall k | k in keys :: KeyLinked(h, s, before, k)
    ensures forall k | k in keys :: KeyLinked(h, s, after, k)
  {
    forall k | k in keys ensures KeyLinked(h, s, after, k) {
      KeyLinksStay(h, s, before, after, k, |h|);
    }
  }

  method BuildGraph(h: seq<Transaction>) returns (graph: Graph)
    requires Indexed(h)
    ensures fresh(graph) && graph.Valid()
    ensures graph.types.Keys == Dependencies(h)
    ensures forall u, v | (u, v) in graph.types :: Dependency(h, u, v, graph.types[(u, v)])
  {
    var s, keys := Recover(h);
    graph := new Graph();
    var i := 0;
    while i < |keys|
      invariant i <= |keys|
      invariant fresh(graph) && graph.Valid() && Sound(h, graph.types)
      invariant forall k | k in keys[..i] :: KeyLinked(h, s, graph.types, k)
    {
      assert keys[i] in s.orders;
      assert forall k :: k in keys[..i + 1] <==> k in keys[..i] || k == keys[i];
      ghost var before := graph.types;
      LinkKey(graph, s, keys[i], h);
      AllLinksStay(h, s, before, graph.types, keys[..i]);
      i := i + 1;
    }
    assert keys[..i] == keys;
    forall u: nat, v: nat ensures (u, v) in graph.types <==> (u, v) in Dependencies(h) {
      DependsInRange(h, u, v);
      if Depends(h, u, v) {
        DependencyLinked(h, graph.types, u, v);
      }
    }
  }

  /** Once every key is linked, no dependency is missing. */
  lemma DependencyLinked(h: seq<Transaction>, types: Kinds, u: nat, v: nat)
    requires forall k | k in ScanAll(h).orders :: KeyLinked(h, ScanAll(h), types, k)
    requires Depends(h, u, v)
    ensures (u, v) in types
  {
    var s := ScanAll(h);
    ScanAllKnows(h);
    var kind :| Dependency(h, u, v, kind);
    match kind {
      case WW =>
        var k, i: nat :| WriteWrite(s, u, v, k, i);
        assert VersionsLinked(s, types, k, |s.orders[k]|);
      case WR =>
        var k, observed, x :| Read(k, observed) in h[v].ops && x in observed && Wrote(s, x, u);
        assert Knows(s, v, Read(k, observed));
        assert OpLinked(s, types, v, k, Read(k, observed));
      case RW =>
        var k, observed, j: nat :| Read(k, observed) in h[u].ops && ReadWrite(s, v, k, observed, j);
        assert OpLinked(s, types, u, k, Read(k, observed));
    }
  }

  // ---------------------------------------------------------------------------------------------
  // The verdict
  // ---------------------------------------------------------------------------------------------

  datatype SerializabilityResult = SerializabilityResult(ok: bool, cycle: seq<nat>, edgeTypes: seq<DepKind>)

  function After(cycle: seq<nat>, i: nat): nat
    requires i < |cycle|
  {
    if i + 1 < |cycle| then cycle[i + 1] else cycle[0]
  }

  /** A reported cycle: simple, as short as any, with a true dependency type on every edge. */
  ghost predicate MinimalWitness(h: seq<Transaction>, r: SerializabilityResult) {
    && Orders.IsCycle(Dependencies(h), r.cycle)
    && Orders.Distinct(r.cycle)
    && (forall c | Orders.IsCycle(Dependencies(h), c) :: |r.cycle| <= |c|)
    && |r.edgeTypes| == |r.cycle| >= 2
    && (forall i | 0 <= i < |r.cycle| :: Dependency(h, r.cycle[i], After(r.cycle, i), r.edgeTypes[i]))
  }

  /** The answer of the cycle search, read as a statement about dependencies. */
  lemma SearchDecides(h: seq<Transaction>, nodes: seq<nat>, best: Option<seq<nat>>, succ: Cycles.Successors)
    requires Cycles.Edges(succ) == Dependencies(h) && forall u: nat | u < |h| :: u in nodes
    requires best.Some? ==> Orders.IsCycle(Dependencies(h), best.value)
    requires Cycles.Shortest(succ, nodes, best)
    ensures best.None? <==> Orders.Acyclic(Dependencies(h))
    ensures best.Some? ==>
      |best.value| >= 2 && forall c | Orders.IsCycle(Dependencies(h), c) :: |best.value| <= |c|
  {
    forall c | Orders.IsCycle(Dependencies(h), c) ensures |c| >= 2 && c[0] in nodes {
      assert (c[|c| - 1], c[0]) in Dependencies(h);
      assert c[|c| - 1] != c[0];
      assert Orders.Steps(Dependencies(h), c) ==> |c| > 1 ==> (c[0], c[1]) in Dependencies(h);
    }
  }

  method EdgeTypes(graph: Graph, cycle: seq<nat>) returns (kinds: seq<DepKind>)
    requires graph.Valid() && Orders.IsCycle(graph.types.Keys, cycle)
    ensures |kinds| == |cycle|
    ensures forall i | 0 <= i < |cycle| ::
      (cycle[i], After(cycle, i)) in graph.types && kinds[i] == graph.types[(cycle[i], After(cycle, i))]
  {
    kinds := [];
    var i := 0;
    while i < |cycle|
      invariant i <= |cycle| && |kinds| == i
      invariant forall j | 0 <= j < i ::
        (cycle[j], After(cycle, j)) in graph.types && kinds[j] == graph.types[(cycle[j], After(cycle, j))]
    {
      assert (cycle[i], After(cycle, i)) in graph.types.Keys;
      kinds := kinds + [graph.types[(cycle[i], After(cycle, i))]];
      i := i + 1;
    }
  }

  method Nodes(h: seq<Transaction>) returns (nodes: seq<nat>)
    requires Indexed(h)
    ensures forall u: nat | u < |h| :: u in nodes
  {
    nodes := seq(|h|, i requires 0 <= i < |h| => h[i].index);
    forall u: nat | u < |h| ensures u in nodes {
      assert nodes[u] == u;
    }
  }

  /** `check_serializable`. */
  method CheckSerializable(h: seq<Transaction>) returns (r: SerializabilityResult)
    requires Indexed(h)
    ensures r.ok <==> Orders.Acyclic(Dependencies(h))
    ensures r.ok ==> r.cycle == [] && r.edgeTypes == []
    ensures !r.ok ==> MinimalWitness(h, r)
  {
    if h == [] {
      EmptyIsAcyclic(h);
      return SerializabilityResult(true, [], []);
    }
    var graph := BuildGraph(h);
    var nodes := Nodes(h);
    var best := Cycles.ShortestCycle(graph.succ, nodes);
    SearchDecides(h, nodes, best, graph.succ);
    if best.None? {
      return SerializabilityResult(true, [], []);
    }
    var edgeTypes := EdgeTypes(graph, best.value);
    return SerializabilityResult(false, best.value, edgeTypes);
  }

  lemma EmptyIsAcyclic(h: seq<Transaction>)
    requires h == []
    ensures Orders.Acyclic(Dependencies(h))
  {
    forall c ensures !Orders.IsCycle(Dependencies(h), c) {
      Orders.ForwardIsAcyclic(Dependencies(h), [], c);
    }
  }

  /** What the verdict is worth. A violation is never a false alarm with one appender per value. With
      globally unique appends, "ok" is right exactly when the history is coherent and the appends nobody
      observed close no cycle either; for plain, observed histories it always is. */
  method Verdict(h: seq<Transaction>) returns (r: SerializabilityResult)
    requires Indexed(h)
    ensures OneAppender(h) && !r.ok ==> !Serializable(h)
    ensures UniqueAppends(h) && r.ok ==> (Serializable(h) <==> Coherent(h) && Orders.Acyclic(Constraints(h)))
    ensures UniqueAppends(h) && AllObserved(h) ==> (Serializable(h) <==> r.ok && Coherent(h))
    ensures
      && UniqueAppends(h) && AllObserved(h) && Sourced(h) && ReadsArePrefixesOfVersions(h)
      && (forall i | 0 <= i < |h| :: Plain(h[i].ops))
      ==> (r.ok <==> Serializable(h))
  {
    r := CheckSerializable(h);
    if OneAppender(h) && Serializable(h) {
      SerializableIsAcyclic(h);
    }
    if UniqueAppends(h) {
      VerdictIsRight(h);
      if AllObserved(h) {
        SerializableIffAcyclicAndCoherent(h);
        if Sourced(h) && ReadsArePrefixesOfVersions(h) && forall i | 0 <= i < |h| :: Plain(h[i].ops) {
          PlainHistoriesDecided(h);
        }
      }
    }
  }
}
