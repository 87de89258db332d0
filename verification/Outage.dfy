/** A run of the network in which a heal comes too late (src/simloom/_net.py:178-192, 254-291, 692-700): a
    transport is closed behind a block, and what it holds is never delivered. The run is worked out operation by
    operation. */
module Outage {
  import opened Wrappers
  import opened Net
  import opened Streams

  /** A connection from "a" to "b", whose first endpoint has sent and holds these items. */
  function Joined(held: seq<Item>, blocked: set<(Host, Host)>): Network {
    Network(0.0, [Opened("a", 1).(held := held, sent := held), Opened("b", 0)], blocked)
  }

  const CUT := {("a", "b")}

  lemma Holds(held: seq<Item>, item: Item)
    ensures Joined(held, CUT).Paired()
    ensures Joined(held, CUT).Send(0, item, 0.0) == Joined(held + [item], CUT)
  {
    var net := Joined(held, CUT);
    assert net.Blocked(0);
    assert net.ends[0 := net.ends[0].(held := held + [item], sent := held + [item])] == Joined(held + [item], CUT).ends;
  }

  function Marked(held: seq<Item>, closed: bool): Network {
    Joined(held, CUT).(ends := [Joined(held, CUT).ends[0].(closing := true, closed := closed), Opened("b", 0)])
  }

  lemma Closes(held: seq<Item>)
    ensures Joined(held, CUT).Paired() && Joined(held, CUT).Closed(0, 0.0) == Marked(held + [Eof], false)
  {
    var net := Joined(held, CUT);
    var marked := net.(ends := net.ends[0 := net.ends[0].(closing := true)]);
    assert marked == Marked(held, false) && marked.Blocked(0);
    var e := marked.ends[0].(held := held + [Eof], sent := held + [Eof]);
    assert marked.ends[0 := e] == Marked(held + [Eof], false).ends;
  }

  lemma Vanishes(held: seq<Item>)
    ensures Marked(held, false).Paired() && Marked(held, false).Ended(0) == Marked(held, true)
  {
    var net := Marked(held, false);
    assert net.ends[0 := net.ends[0].(closed := true)] == Marked(held, true).ends;
  }

  lemma Connects()
    ensures Step(Network(0.0, [], {}), Connect("a", "b"), Joined([], {}))
    ensures Step(Joined([], {}), Block("a", "b"), Joined([], CUT))
  {
    assert {} + CUT == CUT;
  }

  lemma WritesBlocked(held: seq<Item>, data: Bytes)
    requires data != []
    ensures Step(Joined(held, CUT), Invoke(Write(0, data, 0.0)), Joined(held + [Chunk(data)], CUT))
  {
    Holds(held, Chunk(data));
  }

  lemma ClosesBlocked(held: seq<Item>)
    ensures Step(Joined(held, CUT), Invoke(Close(0, 0.0)), Marked(held + [Eof], false))
    ensures Step(Marked(held + [Eof], false), Invoke(Vanish(0)), Marked(held + [Eof], true))
  {
    Closes(held);
    Vanishes(held + [Eof]);
  }

  lemma HealsTooLate(held: seq<Item>, delays: nat -> nat -> Delay) returns (net: Network)
    ensures Step(Marked(held, true), Heal(delays), net)
    ensures |net.ends| == 2 && net.blocked == {} && net.ends[0].held == held
  {
    var open := Marked(held, true).(blocked := {});
    assert open.Paired();
    ReleaseSpares(open, 2, delays, 0);
    ReleaseKeepsBlocked(open, 2, delays);
    net := open.Release(2, delays);
  }

  lemma RunGoesOn(nets: seq<Network>, ops: seq<Op>, op: Op, net: Network)
    requires Runs(nets, ops) && Step(nets[|ops|], op, net)
    ensures Runs(nets + [net], ops + [op])
  {
    var nets', ops' := nets + [net], ops + [op];
    forall i | 0 <= i < |ops'| ensures Step(nets'[i], ops'[i], nets'[i + 1]) {
      if i < |ops| {
        assert Step(nets[i], ops[i], nets[i + 1]);
      }
    }
  }

  /** Such a run: a transport is closed while its edge is blocked, and after the heal the data and the end of
      stream it held are still there. */
  lemma ClosedTailIsKept(delays: nat -> nat -> Delay) returns (nets: seq<Network>, ops: seq<Op>)
    ensures Runs(nets, ops) && |ops| == 6 && ops[5] == Heal(delays)
    ensures |nets[6].ends| == 2 && nets[6].blocked == {} && nets[6].ends[0].held == [Chunk([1]), Eof]
  {
    var tail := [] + [Chunk([1])] + [Eof];
    Connects();
    WritesBlocked([], [1]);
    ClosesBlocked([] + [Chunk([1])]);
    var last := HealsTooLate(tail, delays);
    nets, ops := [Network(0.0, [], {})], [];
    RunGoesOn(nets, ops, Connect("a", "b"), Joined([], {}));
    nets, ops := nets + [Joined([], {})], ops + [Connect("a", "b")];
    RunGoesOn(nets, ops, Block("a", "b"), Joined([], CUT));
    nets, ops := nets + [Joined([], CUT)], ops + [Block("a", "b")];
    RunGoesOn(nets, ops, Invoke(Write(0, [1], 0.0)), Joined([] + [Chunk([1])], CUT));
    nets, ops := nets + [Joined([] + [Chunk([1])], CUT)], ops + [Invoke(Write(0, [1], 0.0))];
    RunGoesOn(nets, ops, Invoke(Close(0, 0.0)), Marked(tail, false));
    nets, ops := nets + [Marked(tail, false)], ops + [Invoke(Close(0, 0.0))];
    RunGoesOn(nets, ops, Invoke(Vanish(0)), Marked(tail, true));
    nets, ops := nets + [Marked(tail, true)], ops + [Invoke(Vanish(0))];
    RunGoesOn(nets, ops, Heal(delays), last);
    nets, ops := nets + [last], ops + [Heal(delays)];
  }
}
