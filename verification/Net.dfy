/** Simulated stream connections (src/simloom/_net.py:95-310, 669-703): chunks travel in order, wait
    behind partitions, and arrive at computed times. The network is a value here, so that the theorems about
    streams can speak of whole runs; delays and what protocols call are parameters. */
module Net {
  import opened Wrappers
  import opened Clock

  type Delay = d: Time | d >= 0.0 witness 0.0
  type Host = string

  datatype Item = Chunk(data: Bytes) | Eof

  /** What anybody may call on a transport. */
  datatype Call =
    | Write(end: nat, data: Bytes, delay: Delay)
    | WriteEof(end: nat, delay: Delay)
    | Pause(end: nat)
    | Resume(end: nat)
    | Close(end: nat, delay: Delay)
    | Vanish(end: nat)                       // finalize, force-close, crash or reset

  /** One side of a connection. `timers` are the outstanding arrive callbacks, earliest first;
      `arrivals` (the computed arrival of each pending item), `sent` and `delivered` are kept for the
      specification. */
  datatype Endpoint = Endpoint(
    owner: Host,
    peer: nat,
    inbox: seq<Item>,
    pending: seq<Item>,
    held: seq<Item>,
    lastArrival: Time,
    paused: bool,
    pumpScheduled: bool,
    closing: bool,
    closed: bool,
    timers: seq<Time>,
    arrivals: seq<Time>,
    sent: seq<Item>,
    delivered: seq<Item>)
  {
    /** An item on its way to this endpoint. */
    function Receiving(item: Item, arrival: Time): Endpoint {
      this.(pending := pending + [item], arrivals := arrivals + [arrival],
            timers := timers + [arrival], lastArrival := arrival)
    }

    function PumpRequested(): Endpoint {
      if closed then this else this.(pumpScheduled := true)
    }

    /** The earliest arrive callback runs. */
    function Arrived(): Endpoint
      requires timers != []
    {
      var e := this.(timers := timers[1..]);
      if closed then e
      else if pending == [] then e.PumpRequested()
      else e.(inbox := inbox + [pending[0]], pending := pending[1..], arrivals := Rest(arrivals)).PumpRequested()
    }
  }

  function Rest(times: seq<Time>): seq<Time> {
    if times == [] then [] else times[1..]
  }

  function Opened(owner: Host, peer: nat): Endpoint {
    Endpoint(owner, peer, [], [], [], 0.0, false, false, false, false, [], [], [], [])
  }

  datatype Network = Network(now: Time, ends: seq<Endpoint>, blocked: set<(Host, Host)>)
  {
    /** Every endpoint has a peer that has it as its peer. */
    predicate Paired() {
      forall i | 0 <= i < |ends| ::
        ends[i].peer < |ends| && ends[i].peer != i && ends[ends[i].peer].peer == i
    }

    predicate Blocked(i: nat)
      requires Paired() && i < |ends|
    {
      (ends[i].owner, ends[ends[i].peer].owner) in blocked
    }

    /** The item gets an arrival time, never before those already queued. */
    function Queued(i: nat, item: Item, delay: Delay): (net: Network)
      requires Paired() && i < |ends|
      ensures net.Paired() && |net.ends| == |ends|
    {
      var j := ends[i].peer;
      this.(ends := ends[j := ends[j].Receiving(item, Later(now + delay, ends[j].lastArrival))])
    }

    function Send(i: nat, item: Item, delay: Delay): (net: Network)
      requires Paired() && i < |ends|
      ensures net.Paired() && |net.ends| == |ends|
    {
      var e := ends[i].(sent := ends[i].sent + [item]);
      if e.held != [] || Blocked(i) then this.(ends := ends[i := e.(held := e.held + [item])])
      else this.(ends := ends[i := e]).Queued(i, item, delay)
    }

    /** Held items go out in order while the edge is open. */
    function Flush(i: nat, delays: nat -> Delay): (net: Network)
      requires Paired() && i < |ends|
      ensures net.Paired() && |net.ends| == |ends|
      decreases |ends[i].held|
    {
      if ends[i].closed || ends[i].held == [] || Blocked(i) then this else
      var item := ends[i].held[0];
      this.(ends := ends[i := ends[i].(held := ends[i].held[1..])])
          .Queued(i, item, delays(|ends[i].held|)).Flush(i, delays)
    }

    /** Every live transport flushes, in order of creation. */
    function Release(n: nat, delays: nat -> nat -> Delay): (net: Network)
      requires Paired() && n <= |ends|
      ensures net.Paired() && |net.ends| == |ends|
    {
      if n == 0 then this else Release(n - 1, delays).Flush(n - 1, delays(n - 1))
    }

    lemma ReleaseNext(n: nat, before: Network, delays: nat -> nat -> Delay)
      requires Paired() && n < |ends| && before == Release(n, delays)
      ensures Release(n + 1, delays) == before.Flush(n, delays(n))
    {
    }

    function Closed(i: nat, delay: Delay): (net: Network)
      requires Paired() && i < |ends|
      ensures net.Paired() && |net.ends| == |ends|
    {
      if ends[i].closing then this else
      var net := this.(ends := ends[i := ends[i].(closing := true)]);
      if ends[ends[i].peer].closing then net else net.Send(i, Eof, delay)
    }

    function Ended(i: nat): (net: Network)
      requires Paired() && i < |ends|
      ensures net.Paired() && |net.ends| == |ends|
    {
      this.(ends := ends[i := ends[i].(closing := true, closed := true)])
    }

    /** One call on a transport; a call on none does nothing. */
    function Called(call: Call): (net: Network)
      requires Paired()
      ensures net.Paired() && |net.ends| == |ends|
    {
      var i := call.end;
      if i >= |ends| then this else
      match call
      case Write(_, data, delay) => if ends[i].closing || data == [] then this else Send(i, Chunk(data), delay)
      case WriteEof(_, delay) => if ends[i].closing then this else Send(i, Eof, delay)
      case Pause(_) => this.(ends := ends[i := ends[i].(paused := true)])
      case Resume(_) => this.(ends := ends[i := ends[i].(paused := false).PumpRequested()])
      case Close(_, delay) => Closed(i, delay)
      case Vanish(_) => Ended(i)
    }

    function CalledAll(calls: seq<Call>): (net: Network)
      requires Paired()
      ensures net.Paired() && |net.ends| == |ends|
    {
      if calls == [] then this else CalledAll(calls[..|calls| - 1]).Called(calls[|calls| - 1])
    }

    function Taken(j: nat): (net: Network)
      requires Paired() && j < |ends| && ends[j].inbox != []
      ensures net.Paired() && |net.ends| == |ends|
    {
      var e := ends[j];
      this.(ends := ends[j := e.(inbox := e.inbox[1..], delivered := e.delivered + [e.inbox[0]])])
    }

    /** One item handed to the protocol, which may call any transports before it returns. */
    function Handed(j: nat, calls: seq<Call>): (net: Network)
      requires Paired() && j < |ends| && ends[j].inbox != []
      ensures net.Paired() && |net.ends| == |ends|
    {
      Taken(j).CalledAll(calls)
    }

    /** The pump hands over items until the inbox is empty, reading is paused or the end is closed. */
    function Pumped(j: nat, fuel: nat, reactions: nat -> seq<Call>): (net: Network)
      requires Paired() && j < |ends| && fuel <= |ends[j].inbox|
      ensures net.Paired() && |net.ends| == |ends|
      decreases fuel
    {
      if fuel == 0 || ends[j].paused || ends[j].closed then this else
      InboxShrinks(this, j, reactions(fuel));
      Handed(j, reactions(fuel)).Pumped(j, fuel - 1, reactions)
    }

    function Pump(j: nat, reactions: nat -> seq<Call>): (net: Network)
      requires Paired() && j < |ends|
      ensures net.Paired() && |net.ends| == |ends|
    {
      this.(ends := ends[j := ends[j].(pumpScheduled := false)]).Pumped(j, |ends[j].inbox|, reactions)
    }
  }

  /** The pump, one item at a time. */
  lemma PumpedStep(net: Network, j: nat, reactions: nat -> seq<Call>)
    requires net.Paired() && j < |net.ends|
    requires net.ends[j].inbox != [] && !net.ends[j].paused && !net.ends[j].closed
    ensures
      var n := |net.ends[j].inbox|;
      var next := net.Handed(j, reactions(n));
      && |next.ends[j].inbox| == n - 1
      && net.Pumped(j, n, reactions) == next.Pumped(j, n - 1, reactions)
  {
    InboxShrinks(net, j, reactions(|net.ends[j].inbox|));
  }

  /** Both directions between two groups of hosts. */
  function Cross(left: seq<Host>, right: seq<Host>): set<(Host, Host)> {
    (set a, b | a in left && b in right :: (a, b)) + (set a, b | a in left && b in right :: (b, a))
  }

  lemma SendKeepsInbox(net: Network, i: nat, item: Item, delay: Delay, j: nat)
    requires net.Paired() && i < |net.ends| && j < |net.ends|
    ensures net.Send(i, item, delay).ends[j].inbox == net.ends[j].inbox
  {
  }

  lemma CallKeepsInbox(net: Network, call: Call, j: nat)
    requires net.Paired() && j < |net.ends|
    ensures net.Called(call).ends[j].inbox == net.ends[j].inbox
  {
    var i := call.end;
    if i < |net.ends| {
      match call {
        case Write(_, data, delay) => SendKeepsInbox(net, i, Chunk(data), delay, j);
        case WriteEof(_, delay) => SendKeepsInbox(net, i, Eof, delay, j);
        case Close(_, delay) =>
          var marked := net.(ends := net.ends[i := net.ends[i].(closing := true)]);
          SendKeepsInbox(marked, i, Eof, delay, j);
        case _ =>
      }
    }
  }

  /** Calls put nothing into an inbox and take nothing out. */
  lemma {:induction false} CallsKeepInboxes(net: Network, calls: seq<Call>, j: nat)
    requires net.Paired() && j < |net.ends|
    ensures net.CalledAll(calls).ends[j].inbox == net.ends[j].inbox
  {
    if calls != [] {
      CallsKeepInboxes(net, calls[..|calls| - 1], j);
      CallKeepsInbox(net.CalledAll(calls[..|calls| - 1]), calls[|calls| - 1], j);
    }
  }

  lemma InboxShrinks(net: Network, j: nat, calls: seq<Call>)
    requires net.Paired() && j < |net.ends| && net.ends[j].inbox != []
    ensures net.Handed(j, calls).ends[j].inbox == net.ends[j].inbox[1..]
  {
    CallsKeepInboxes(net.Taken(j), calls, j);
  }
}
