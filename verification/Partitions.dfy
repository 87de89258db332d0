/** Nothing crosses a blocked edge (src/simloom/_net.py:158-199, 669-703). */
module Partitions {
  import opened Clock
  import opened Net
  import opened Streams

  /** The way from one endpoint to its peer. */
  datatype Edge = Edge(from: nat, to: nat)

  /** The edge is one of the network, and blocked. */
  ghost predicate Cut(net: Network, edge: Edge) {
    && edge.from < |net.ends| && edge.to < |net.ends|
    && net.ends[edge.from].peer == edge.to && net.ends[edge.to].peer == edge.from
    && (net.ends[edge.from].owner, net.ends[edge.to].owner) in net.blocked
  }

  /** What got to an endpoint: handed over, in the inbox, or on its way. */
  function Received(e: Endpoint): seq<Item> {
    e.delivered + e.inbox + e.pending
  }

  /** The edge stays blocked and lets nothing through. */
  ghost predicate Shut(before: Network, after: Network, edge: Edge) {
    && Cut(before, edge) && Cut(after, edge)
    && after.ends[edge.from].owner == before.ends[edge.from].owner
    && after.ends[edge.to].owner == before.ends[edge.to].owner
    && Received(after.ends[edge.to]) == Received(before.ends[edge.to])
  }

  /** Queueing at the peer of another endpoint. */
  lemma QueuedElsewhere(net: Network, k: nat, item: Item, delay: Delay, edge: Edge)
    requires net.Paired() && k < |net.ends| && Cut(net, edge) && k != edge.from
    ensures Shut(net, net.Queued(k, item, delay), edge)
  {
    assert net.ends[net.ends[k].peer].peer == k;
  }

  /** Endpoint `k` changes nothing but its own books. */
  lemma BooksOnly(net: Network, k: nat, e: Endpoint, edge: Edge)
    requires net.Paired() && k < |net.ends| && Cut(net, edge)
    requires
      var a := net.ends[k];
      e.owner == a.owner && e.peer == a.peer && e.delivered + e.inbox + e.pending == a.delivered + a.inbox + a.pending
    ensures Shut(net, net.(ends := net.ends[k := e]), edge)
  {
  }

  lemma SendShut(net: Network, k: nat, item: Item, delay: Delay, edge: Edge)
    requires net.Paired() && k < |net.ends| && Cut(net, edge)
    ensures Shut(net, net.Send(k, item, delay), edge)
  {
    var e := net.ends[k].(sent := net.ends[k].sent + [item]);
    if e.held != [] || net.Blocked(k) {
      BooksOnly(net, k, e.(held := e.held + [item]), edge);
    } else {
      BooksOnly(net, k, e, edge);
      var noted := net.(ends := net.ends[k := e]);
      QueuedElsewhere(noted, k, item, delay, edge);
    }
  }

  lemma {:induction false} FlushShut(net: Network, k: nat, delays: nat -> Delay, edge: Edge)
    requires net.Paired() && k < |net.ends| && Cut(net, edge)
    ensures Shut(net, net.Flush(k, delays), edge)
    decreases |net.ends[k].held|
  {
    var a := net.ends[k];
    if !a.closed && a.held != [] && !net.Blocked(k) {
      BooksOnly(net, k, a.(held := a.held[1..]), edge);
      var taken := net.(ends := net.ends[k := a.(held := a.held[1..])]);
      var next := taken.Queued(k, a.held[0], delays(|a.held|));
      QueuedElsewhere(taken, k, a.held[0], delays(|a.held|), edge);
      FlushShut(next, k, delays, edge);
    }
  }

  lemma ReleaseStepShut(net: Network, before: Network, n: nat, delays: nat -> nat -> Delay, edge: Edge)
    returns (d: Network)
    requires net.Paired() && n < |net.ends| && before == net.Release(n, delays) && Shut(net, before, edge)
    ensures d == net.Release(n + 1, delays) && Shut(net, d, edge)
  {
    FlushShut(before, n, delays(n), edge);
    net.ReleaseNext(n, before, delays);
    d := before.Flush(n, delays(n));
  }

  lemma {:induction false} ReleaseShut(net: Network, n: nat, delays: nat -> nat -> Delay, edge: Edge)
    returns (d: Network)
    requires net.Paired() && n <= |net.ends| && Cut(net, edge)
    ensures d == net.Release(n, delays) && Shut(net, d, edge)
  {
    if n == 0 {
      return net;
    }
    d := ReleaseShut(net, n - 1, delays, edge);
    d := ReleaseStepShut(net, d, n - 1, delays, edge);
  }

  lemma CallShut(net: Network, call: Call, edge: Edge)
    requires net.Paired() && Cut(net, edge)
    ensures Shut(net, net.Called(call), edge)
  {
    var k := call.end;
    if k < |net.ends| {
      var e := net.ends[k];
      match call {
        case Write(_, data, delay) => SendShut(net, k, Chunk(data), delay, edge);
        case WriteEof(_, delay) => SendShut(net, k, Eof, delay, edge);
        case Pause(_) => BooksOnly(net, k, e.(paused := true), edge);
        case Resume(_) => BooksOnly(net, k, e.(paused := false).PumpRequested(), edge);
        case Close(_, delay) =>
          BooksOnly(net, k, e.(closing := true), edge);
          var marked := net.(ends := net.ends[k := e.(closing := true)]);
          SendShut(marked, k, Eof, delay, edge);
        case Vanish(_) => BooksOnly(net, k, e.(closing := true, closed := true), edge);
      }
    }
  }

  lemma {:induction false} CallsShut(net: Network, calls: seq<Call>, edge: Edge)
    requires net.Paired() && Cut(net, edge)
    ensures Shut(net, net.CalledAll(calls), edge)
  {
    if calls != [] {
      var before := net.CalledAll(calls[..|calls| - 1]);
      CallsShut(net, calls[..|calls| - 1], edge);
      CallShut(before, calls[|calls| - 1], edge);
    }
  }

  lemma HandedShut(net: Network, j: nat, calls: seq<Call>, edge: Edge)
    requires net.Paired() && j < |net.ends| && net.ends[j].inbox != [] && Cut(net, edge)
    ensures Shut(net, net.Handed(j, calls), edge)
  {
    var e := net.ends[j];
    assert e.inbox == [e.inbox[0]] + e.inbox[1..];
    BooksOnly(net, j, e.(inbox := e.inbox[1..], delivered := e.delivered + [e.inbox[0]]), edge);
    CallsShut(net.Taken(j), calls, edge);
  }

  lemma {:induction false} PumpedShut(net: Network, j: nat, fuel: nat, reactions: nat -> seq<Call>, edge: Edge)
    requires net.Paired() && j < |net.ends| && fuel <= |net.ends[j].inbox| && Cut(net, edge)
    ensures Shut(net, net.Pumped(j, fuel, reactions), edge)
    decreases fuel
  {
    if fuel != 0 && !net.ends[j].paused && !net.ends[j].closed {
      var next := net.Handed(j, reactions(fuel));
      HandedShut(net, j, reactions(fuel), edge);
      InboxShrinks(net, j, reactions(fuel));
      PumpedShut(next, j, fuel - 1, reactions, edge);
    }
  }

  lemma ArrivedShut(net: Network, j: nat, edge: Edge)
    requires net.Paired() && j < |net.ends| && net.ends[j].timers != [] && Cut(net, edge)
    ensures Shut(net, net.(ends := net.ends[j := net.ends[j].Arrived()]), edge)
  {
    var e := net.ends[j];
    assert e.pending != [] ==> e.pending == [e.pending[0]] + e.pending[1..];
    BooksOnly(net, j, e.Arrived(), edge);
  }

  /** The operation does not open the edge. */
  ghost predicate LeavesShut(net: Network, op: Op, edge: Edge)
    requires edge.from < |net.ends| && edge.to < |net.ends|
  {
    !op.Heal? && (op.Unblock? ==> (op.a, op.b) != (net.ends[edge.from].owner, net.ends[edge.to].owner))
  }

  lemma ApplyShut(net: Network, op: Op, edge: Edge)
    requires net.Paired() && Enabled(net, op) && Cut(net, edge) && LeavesShut(net, op, edge)
    ensures Shut(net, Apply(net, op), edge)
  {
    match op {
      case Invoke(call) => CallShut(net, call, edge);
      case Arrive(j) => ArrivedShut(net, j, edge);
      case Pump(j, reactions) =>
        BooksOnly(net, j, net.ends[j].(pumpScheduled := false), edge);
        var taken := net.(ends := net.ends[j := net.ends[j].(pumpScheduled := false)]);
        PumpedShut(taken, j, |net.ends[j].inbox|, reactions, edge);
      case Unblock(a, b, releases) =>
        var _ := ReleaseShut(net.(blocked := net.blocked - {(a, b)}), |net.ends|, releases, edge);
      case _ =>
    }
  }

  // ---------------------------------------------------------------------------------------------
  // Runs
  // ---------------------------------------------------------------------------------------------

  ghost predicate Lasts(nets: seq<Network>, ops: seq<Op>, start: nat, end: nat, edge: Edge) {
    forall n | start <= n < end && n < |nets| && n < |ops| && edge.from < |nets[n].ends| && edge.to < |nets[n].ends| ::
      LeavesShut(nets[n], ops[n], edge)
  }

  /** Across a blocked edge nothing passes: from a state in which it is blocked on, until it is healed or
      unblocked, the peer gets nothing but what was on its way already, in any run. */
  lemma {:induction false} NothingCrossesABlock(nets: seq<Network>, ops: seq<Op>, start: nat, end: nat, edge: Edge)
    requires Runs(nets, ops) && start <= end < |nets|
    requires Cut(nets[start], edge) && Lasts(nets, ops, start, end, edge)
    ensures Shut(nets[start], nets[end], edge)
    decreases end
  {
    if start < end {
      NothingCrossesABlock(nets, ops, start, end - 1, edge);
      RunKeeps(nets, ops, end - 1);
      assert Step(nets[end - 1], ops[end - 1], nets[end - 1 + 1]);
      assert LeavesShut(nets[end - 1], ops[end - 1], edge);
      ApplyShut(nets[end - 1], ops[end - 1], edge);
    }
  }

  /** A partition blocks just the edges between its groups, in both directions. */
  lemma PartitionSeparates(net: Network, left: seq<Host>, right: seq<Host>, i: nat)
    requires net.Paired() && i < |net.ends|
    ensures
      var (a, b) := (net.ends[i].owner, net.ends[net.ends[i].peer].owner);
      var d := Apply(net, Partition(left, right));
      && d.ends == net.ends
      && (d.Blocked(i) <==> net.Blocked(i) || (a in left && b in right) || (a in right && b in left))
      && (d.Blocked(i) ==> Cut(d, Edge(i, net.ends[i].peer)))
  {
  }
}
