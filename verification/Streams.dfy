/** What streams promise under any writes, pauses, partitions, heals, closes and crashes
    (src/simloom/_net.py:158-310, 669-703). */
module Streams {
  import opened Clock
  import opened Net

  // ---------------------------------------------------------------------------------------------
  // The invariant
  // ---------------------------------------------------------------------------------------------

  ghost predicate Rising(times: seq<Time>) {
    forall i, j | 0 <= i < j < |times| :: times[i] <= times[j]
  }

  /** Nothing is lost, duplicated or reordered from `a` to `b`. */
  ghost predicate Carries(a: Endpoint, b: Endpoint) {
    a.sent == b.delivered + b.inbox + b.pending + a.held
  }

  /** No arrive callback is overdue, and while the endpoint is open its callbacks are the computed
      arrival times of what is pending, in order. */
  ghost predicate OnTime(e: Endpoint, now: Time) {
    && Rising(e.timers) && Rising(e.arrivals) && |e.arrivals| == |e.pending|
    && (forall t | t in e.timers :: now <= t <= e.lastArrival)
    && (forall t | t in e.arrivals :: t <= e.lastArrival)
    && (!e.closed ==> e.timers == e.arrivals)
  }

  ghost predicate Flowing(net: Network) {
    && net.Paired()
    && (forall i {:trigger Carries(net.ends[i], net.ends[net.ends[i].peer])} | 0 <= i < |net.ends| ::
          Carries(net.ends[i], net.ends[net.ends[i].peer]))
    && (forall i {:trigger OnTime(net.ends[i], net.now)} | 0 <= i < |net.ends| :: OnTime(net.ends[i], net.now))
  }

  /** A live sender holds data only while its edge is blocked. */
  ghost predicate HeldIfBlocked(net: Network, i: nat)
    requires net.Paired() && i < |net.ends|
  {
    net.ends[i].held != [] && !net.ends[i].closed ==> net.Blocked(i)
  }

  /** What waits in the inbox of an open, reading endpoint has a pump coming. */
  ghost predicate PumpDue(e: Endpoint) {
    e.inbox != [] && !e.paused && !e.closed ==> e.pumpScheduled
  }

  ghost predicate Inv(net: Network) {
    && Flowing(net)
    && (forall i: nat | i < |net.ends| :: HeldIfBlocked(net, i))
    && (forall i | 0 <= i < |net.ends| :: PumpDue(net.ends[i]))
  }

  /** Reading side, liveness and identity of an endpoint are as before. */
  ghost predicate SameReader(a: Endpoint, b: Endpoint) {
    && b.owner == a.owner && b.peer == a.peer && b.inbox == a.inbox && b.paused == a.paused
    && b.pumpScheduled == a.pumpScheduled && b.closing == a.closing && b.closed == a.closed
    && b.delivered == a.delivered
  }

  ghost predicate OnlySends(before: Network, after: Network) {
    && |after.ends| == |before.ends| && after.now == before.now && after.blocked == before.blocked
    && forall i | 0 <= i < |before.ends| :: SameReader(before.ends[i], after.ends[i])
  }

  /** An endpoint whose held items did not change is still held back only by a block. */
  lemma HeldStays(before: Network, after: Network, k: nat)
    requires before.Paired() && after.Paired() && OnlySends(before, after) && k < |before.ends|
    requires HeldIfBlocked(before, k) && after.ends[k].held == before.ends[k].held
    ensures HeldIfBlocked(after, k)
  {
    assert SameReader(before.ends[k], after.ends[k]);
    assert SameReader(before.ends[before.ends[k].peer], after.ends[before.ends[k].peer]);
  }

  /** Sending alone leaves every pump as due as it was. */
  lemma PumpsStay(before: Network, after: Network, j: nat)
    requires OnlySends(before, after)
    requires forall i | 0 <= i < |before.ends| && i != j :: PumpDue(before.ends[i])
    ensures forall i | 0 <= i < |after.ends| && i != j :: PumpDue(after.ends[i])
  {
    forall i | 0 <= i < |after.ends| && i != j ensures PumpDue(after.ends[i]) {
      assert SameReader(before.ends[i], after.ends[i]) && PumpDue(before.ends[i]);
    }
  }

  lemma OnlySendsTransitive(a: Network, b: Network, c: Network)
    requires OnlySends(a, b) && OnlySends(b, c)
    ensures OnlySends(a, c)
  {
    forall i | 0 <= i < |a.ends| ensures SameReader(a.ends[i], c.ends[i]) {
      assert SameReader(a.ends[i], b.ends[i]) && SameReader(b.ends[i], c.ends[i]);
    }
  }

  // --- sending ---

  lemma RisingOn(times: seq<Time>, t: Time)
    requires Rising(times) && forall u | u in times :: u <= t
    ensures Rising(times + [t]) && forall u | u in times + [t] :: u in times || u == t
  {
    assert forall i | 0 <= i < |times| :: times[i] in times;
  }

  lemma ReceivingOnTime(e: Endpoint, item: Item, arrival: Time, now: Time)
    requires OnTime(e, now) && now <= arrival && e.lastArrival <= arrival
    ensures OnTime(e.Receiving(item, arrival), now)
  {
    RisingOn(e.timers, arrival);
    RisingOn(e.arrivals, arrival);
  }

  lemma ReceivingCarries(a: Endpoint, b: Endpoint, item: Item, arrival: Time)
    requires a.sent == b.delivered + b.inbox + b.pending + [item] + a.held
    ensures Carries(a, b.Receiving(item, arrival))
  {
    assert b.delivered + b.inbox + b.pending + [item] + a.held == b.delivered + b.inbox + (b.pending + [item]) + a.held;
  }

  /** The item leaves endpoint `i`, whose record already counts it as sent and not as held. */
  lemma QueuedFlows(net: Network, i: nat, item: Item, delay: Delay)
    requires net.Paired() && i < |net.ends|
    requires
      var a := net.ends[i];
      var b := net.ends[a.peer];
      a.sent == b.delivered + b.inbox + b.pending + [item] + a.held
    requires forall k {:trigger Carries(net.ends[k], net.ends[net.ends[k].peer])} | 0 <= k < |net.ends| && k != i ::
      Carries(net.ends[k], net.ends[net.ends[k].peer])
    requires forall k {:trigger OnTime(net.ends[k], net.now)} | 0 <= k < |net.ends| :: OnTime(net.ends[k], net.now)
    ensures Flowing(net.Queued(i, item, delay)) && OnlySends(net, net.Queued(i, item, delay))
    ensures forall k | 0 <= k < |net.ends| :: net.Queued(i, item, delay).ends[k].held == net.ends[k].held
  {
    var j := net.ends[i].peer;
    var arrival := Later(net.now + delay, net.ends[j].lastArrival);
    var d := net.Queued(i, item, delay);
    assert d.ends == net.ends[j := net.ends[j].Receiving(item, arrival)];
    forall k | 0 <= k < |d.ends| ensures Carries(d.ends[k], d.ends[d.ends[k].peer]) {
      if k == i {
        ReceivingCarries(net.ends[i], net.ends[j], item, arrival);
      } else {
        assert net.ends[net.ends[k].peer].peer == k && net.ends[j].peer == i;
        assert Carries(net.ends[k], net.ends[net.ends[k].peer]);
      }
    }
    forall k | 0 <= k < |d.ends| ensures OnTime(d.ends[k], d.now) {
      assert OnTime(net.ends[k], net.now);
      if k == j {
        ReceivingOnTime(net.ends[j], item, arrival, net.now);
      }
    }
  }

  lemma HoldFlows(net: Network, i: nat, item: Item)
    requires Flowing(net) && i < |net.ends|
    ensures
      var a := net.ends[i];
      var d := net.(ends := net.ends[i := a.(sent := a.sent + [item], held := a.held + [item])]);
      Flowing(d) && OnlySends(net, d)
  {
    var a := net.ends[i];
    var b := net.ends[a.peer];
    var d := net.(ends := net.ends[i := a.(sent := a.sent + [item], held := a.held + [item])]);
    assert Carries(a, b);
    assert b.delivered + b.inbox + b.pending + a.held + [item] == b.delivered + b.inbox + b.pending + (a.held + [item]);
    forall k | 0 <= k < |d.ends| ensures Carries(d.ends[k], d.ends[d.ends[k].peer]) {
      assert Carries(net.ends[k], net.ends[net.ends[k].peer]);
    }
    forall k | 0 <= k < |d.ends| ensures OnTime(d.ends[k], d.now) {
      assert OnTime(net.ends[k], net.now);
    }
  }

  /** Sending straight on, when nothing is held back: `e` is endpoint `i` with the item taken along. */
  lemma PassFlows(net: Network, i: nat, e: Endpoint, item: Item, delay: Delay)
    requires Flowing(net) && i < |net.ends|
    requires e == net.ends[i].(sent := e.sent, held := e.held)
    requires e.sent + net.ends[i].held == net.ends[i].sent + [item] + e.held
    requires net.ends[i].held == [] || net.ends[i].held == [item] + e.held
    requires net.ends[i].held == [] ==> e.held == [] && e.sent == net.ends[i].sent + [item]
    requires net.ends[i].held != [] ==> e.sent == net.ends[i].sent
    ensures
      var d := net.(ends := net.ends[i := e]).Queued(i, item, delay);
      && Flowing(d) && OnlySends(net, d)
      && d.ends[i].sent == e.sent && d.ends[i].held == e.held
      && (forall k | 0 <= k < |net.ends| && k != i ::
            d.ends[k].held == net.ends[k].held && d.ends[k].sent == net.ends[k].sent)
  {
    var taken := net.(ends := net.ends[i := e]);
    TakenAlong(net, i, e, item);
    QueuedFlows(taken, i, item, delay);
    OnlySendsTransitive(net, taken, taken.Queued(i, item, delay));
  }

  /** Between taking an item off endpoint `i` and queueing it, only that endpoint's books are open. */
  lemma TakenAlong(net: Network, i: nat, e: Endpoint, item: Item)
    requires Flowing(net) && i < |net.ends|
    requires e == net.ends[i].(sent := e.sent, held := e.held)
    requires e.sent + net.ends[i].held == net.ends[i].sent + [item] + e.held
    requires net.ends[i].held == [] || net.ends[i].held == [item] + e.held
    requires net.ends[i].held == [] ==> e.held == [] && e.sent == net.ends[i].sent + [item]
    requires net.ends[i].held != [] ==> e.sent == net.ends[i].sent
    ensures
      var taken := net.(ends := net.ends[i := e]);
      && taken.Paired() && OnlySends(net, taken)
      && (var b := net.ends[e.peer]; e.sent == b.delivered + b.inbox + b.pending + [item] + e.held)
      && (forall k {:trigger Carries(taken.ends[k], taken.ends[taken.ends[k].peer])} | 0 <= k < |net.ends| && k != i ::
            Carries(taken.ends[k], taken.ends[taken.ends[k].peer]))
      && (forall k {:trigger OnTime(taken.ends[k], taken.now)} | 0 <= k < |net.ends| ::
            OnTime(taken.ends[k], taken.now))
  {
    var taken := net.(ends := net.ends[i := e]);
    assert Carries(net.ends[i], net.ends[net.ends[i].peer]);
    forall k | 0 <= k < |net.ends| && k != i ensures Carries(taken.ends[k], taken.ends[taken.ends[k].peer]) {
      assert Carries(net.ends[k], net.ends[net.ends[k].peer]);
    }
    forall k | 0 <= k < |net.ends| ensures OnTime(taken.ends[k], taken.now) {
      assert OnTime(net.ends[k], net.now);
    }
  }

  lemma SendFlows(net: Network, i: nat, item: Item, delay: Delay)
    requires Flowing(net) && i < |net.ends|
    ensures
      var d := net.Send(i, item, delay);
      && Flowing(d) && OnlySends(net, d)
      && (forall k: nat | k < |net.ends| && HeldIfBlocked(net, k) :: HeldIfBlocked(d, k))
  {
    var a := net.ends[i];
    var d := net.Send(i, item, delay);
    if a.held != [] || net.Blocked(i) {
      HoldFlows(net, i, item);
    } else {
      PassFlows(net, i, a.(sent := a.sent + [item]), item, delay);
    }
    forall k: nat | k < |net.ends| && HeldIfBlocked(net, k) ensures HeldIfBlocked(d, k) {
      if k != i || d.ends[k].held == net.ends[k].held {
        HeldStays(net, d, k);
      } else {
        assert SameReader(net.ends[i], d.ends[i]);
        assert SameReader(net.ends[a.peer], d.ends[a.peer]);
      }
    }
  }

  // --- flushing held items ---

  lemma {:induction false} FlushFlows(net: Network, i: nat, delays: nat -> Delay)
    requires Flowing(net) && i < |net.ends|
    ensures
      var d := net.Flush(i, delays);
      && Flowing(d) && OnlySends(net, d) && HeldIfBlocked(d, i)
      && (forall k | 0 <= k < |net.ends| && k != i :: d.ends[k].held == net.ends[k].held)
    decreases |net.ends[i].held|
  {
    var a := net.ends[i];
    if !a.closed && a.held != [] && !net.Blocked(i) {
      var item := a.held[0];
      assert a.held == [item] + a.held[1..];
      var e := a.(held := a.held[1..]);
      PassFlows(net, i, e, item, delays(|a.held|));
      var next := net.(ends := net.ends[i := e]).Queued(i, item, delays(|a.held|));
      FlushFlows(next, i, delays);
      OnlySendsTransitive(net, next, next.Flush(i, delays));
    }
  }

  /** All is well but for the held items of endpoint `n` and those after it. */
  ghost predicate FlushedUpTo(net: Network, n: nat) {
    && Flowing(net)
    && (forall i | 0 <= i < |net.ends| :: PumpDue(net.ends[i]))
    && (forall k: nat | k < n && k < |net.ends| :: HeldIfBlocked(net, k))
  }

  lemma FlushNext(net: Network, i: nat, delays: nat -> Delay)
    requires FlushedUpTo(net, i) && i < |net.ends|
    ensures FlushedUpTo(net.Flush(i, delays), i + 1) && net.Flush(i, delays).blocked == net.blocked
  {
    var d := net.Flush(i, delays);
    FlushFlows(net, i, delays);
    PumpsStay(net, d, |net.ends|);
    forall k: nat | k < i + 1 ensures HeldIfBlocked(d, k) {
      if k < i {
        HeldStays(net, d, k);
      }
    }
  }

  /** Endpoints before `n` have been flushed since the blocked edges were `blocked`. */
  ghost predicate Released(net: Network, n: nat, blocked: set<(Host, Host)>) {
    FlushedUpTo(net, n) && net.blocked == blocked
  }

  lemma ReleaseStep(net: Network, before: Network, n: nat, delays: nat -> nat -> Delay) returns (d: Network)
    requires net.Paired() && n < |net.ends| && before == net.Release(n, delays)
    requires Released(before, n, net.blocked)
    ensures d == net.Release(n + 1, delays) && Released(d, n + 1, net.blocked)
  {
    FlushNext(before, n, delays(n));
    net.ReleaseNext(n, before, delays);
    d := before.Flush(n, delays(n));
  }

  lemma {:induction false} ReleaseFlows(net: Network, n: nat, delays: nat -> nat -> Delay) returns (d: Network)
    requires net.Paired() && n <= |net.ends| && Released(net, 0, net.blocked)
    ensures d == net.Release(n, delays) && Released(d, n, net.blocked)
  {
    if n == 0 {
      return net;
    }
    d := ReleaseFlows(net, n - 1, delays);
    d := ReleaseStep(net, d, n - 1, delays);
  }

  // --- one endpoint changes on its own ---

  /** Endpoint `i` becomes `e`, which moved items along without losing any. */
  lemma ReplaceFlows(net: Network, i: nat, e: Endpoint)
    requires Flowing(net) && i < |net.ends|
    requires var a := net.ends[i];
      && e.peer == a.peer && e.sent == a.sent && e.held == a.held
      && e.delivered + e.inbox + e.pending == a.delivered + a.inbox + a.pending
    requires OnTime(net.ends[i], net.now) ==> OnTime(e, net.now)
    ensures Flowing(net.(ends := net.ends[i := e]))
  {
    var d := net.(ends := net.ends[i := e]);
    forall k | 0 <= k < |d.ends| ensures Carries(d.ends[k], d.ends[d.ends[k].peer]) {
      assert Carries(net.ends[k], net.ends[net.ends[k].peer]);
    }
    forall k | 0 <= k < |d.ends| ensures OnTime(d.ends[k], d.now) {
      assert OnTime(net.ends[k], net.now);
    }
  }

  lemma ArrivedFlows(net: Network, j: nat)
    requires Inv(net) && j < |net.ends| && net.ends[j].timers != [] && OnTime(net.ends[j], net.now)
    ensures Inv(net.(ends := net.ends[j := net.ends[j].Arrived()]))
  {
    var a := net.ends[j];
    var e := a.Arrived();
    assert a.pending != [] ==> a.pending == [a.pending[0]] + a.pending[1..];
    assert forall t | t in a.timers[1..] :: t in a.timers;
    assert a.arrivals != [] ==> forall t | t in a.arrivals[1..] :: t in a.arrivals;
    ReplaceFlows(net, j, e);
    var d := net.(ends := net.ends[j := e]);
    forall k: nat | k < |d.ends| ensures HeldIfBlocked(d, k) {
      assert HeldIfBlocked(net, k);
    }
  }

  // --- closing and pumping ---

  /** Everything but the pump of endpoint `j` is in order. */
  ghost predicate InvBut(net: Network, j: nat) {
    && Flowing(net)
    && (forall i: nat | i < |net.ends| :: HeldIfBlocked(net, i))
    && (forall i | 0 <= i < |net.ends| && i != j :: PumpDue(net.ends[i]))
  }

  /** Marking an endpoint as closing. */
  lemma MarkKeeps(net: Network, i: nat, j: nat)
    requires InvBut(net, j) && i < |net.ends|
    ensures InvBut(net.(ends := net.ends[i := net.ends[i].(closing := true)]), j)
  {
    var marked := net.(ends := net.ends[i := net.ends[i].(closing := true)]);
    ReplaceFlows(net, i, net.ends[i].(closing := true));
    forall k: nat | k < |net.ends| ensures HeldIfBlocked(marked, k) {
      assert HeldIfBlocked(net, k);
    }
  }

  lemma SendKeeps(net: Network, i: nat, item: Item, delay: Delay, j: nat)
    requires InvBut(net, j) && i < |net.ends|
    ensures InvBut(net.Send(i, item, delay), j)
    ensures PumpDue(net.ends[i]) ==> PumpDue(net.Send(i, item, delay).ends[i])
  {
    var d := net.Send(i, item, delay);
    SendFlows(net, i, item, delay);
    PumpsStay(net, d, j);
    assert SameReader(net.ends[i], d.ends[i]);
  }

  lemma ClosedKeeps(net: Network, i: nat, delay: Delay, j: nat)
    requires InvBut(net, j) && i < |net.ends|
    ensures InvBut(net.Closed(i, delay), j)
    ensures PumpDue(net.ends[i]) ==> PumpDue(net.Closed(i, delay).ends[i])
  {
    if !net.ends[i].closing {
      MarkKeeps(net, i, j);
      var marked := net.(ends := net.ends[i := net.ends[i].(closing := true)]);
      if !net.ends[net.ends[i].peer].closing {
        SendKeeps(marked, i, Eof, delay, j);
      }
    }
  }

  lemma EndedKeeps(net: Network, i: nat, j: nat)
    requires InvBut(net, j) && i < |net.ends|
    ensures InvBut(net.Ended(i), j) && PumpDue(net.Ended(i).ends[i])
  {
    var d := net.Ended(i);
    ReplaceFlows(net, i, d.ends[i]);
    forall k: nat | k < |net.ends| ensures HeldIfBlocked(d, k) {
      assert HeldIfBlocked(net, k);
    }
  }

  /** Taking one item out of the inbox of an endpoint whose pump is running. */
  lemma TakeKeeps(net: Network, j: nat)
    requires InvBut(net, j) && j < |net.ends| && net.ends[j].inbox != []
    ensures InvBut(net.Taken(j), j)
  {
    var e := net.ends[j];
    assert e.inbox == [e.inbox[0]] + e.inbox[1..];
    ReplaceFlows(net, j, e.(inbox := e.inbox[1..], delivered := e.delivered + [e.inbox[0]]));
    forall k: nat | k < |net.ends| ensures HeldIfBlocked(net.Taken(j), k) {
      assert HeldIfBlocked(net, k);
    }
  }

  /** Pausing or resuming reading. */
  lemma SwitchKeeps(net: Network, i: nat, e: Endpoint, j: nat)
    requires InvBut(net, j) && i < |net.ends|
    requires e == net.ends[i].(paused := e.paused, pumpScheduled := e.pumpScheduled)
    requires PumpDue(net.ends[i]) ==> PumpDue(e)
    ensures InvBut(net.(ends := net.ends[i := e]), j)
  {
    ReplaceFlows(net, i, e);
    var d := net.(ends := net.ends[i := e]);
    forall k: nat | k < |d.ends| ensures HeldIfBlocked(d, k) {
      assert HeldIfBlocked(net, k);
    }
  }

  /** Any call keeps everything, and leaves the pump of its transport as due as it was. */
  lemma CallKeeps(net: Network, call: Call, j: nat)
    requires InvBut(net, j)
    ensures InvBut(net.Called(call), j)
    ensures call.end < |net.ends| && PumpDue(net.ends[call.end]) ==> PumpDue(net.Called(call).ends[call.end])
  {
    var i := call.end;
    if i < |net.ends| {
      match call {
        case Write(_, data, delay) =>
          if !net.ends[i].closing && data != [] {
            SendKeeps(net, i, Chunk(data), delay, j);
          }
        case WriteEof(_, delay) =>
          if !net.ends[i].closing {
            SendKeeps(net, i, Eof, delay, j);
          }
        case Pause(_) => SwitchKeeps(net, i, net.ends[i].(paused := true), j);
        case Resume(_) => SwitchKeeps(net, i, net.ends[i].(paused := false).PumpRequested(), j);
        case Close(_, delay) => ClosedKeeps(net, i, delay, j);
        case Vanish(_) => EndedKeeps(net, i, j);
      }
    }
  }

  lemma {:induction false} CallsKeep(net: Network, calls: seq<Call>, j: nat)
    requires InvBut(net, j)
    ensures InvBut(net.CalledAll(calls), j)
  {
    if calls != [] {
      CallsKeep(net, calls[..|calls| - 1], j);
      CallKeeps(net.CalledAll(calls[..|calls| - 1]), calls[|calls| - 1], j);
    }
  }

  /** The protocol may call whatever it likes while it is handed an item. */
  lemma HandedKeeps(net: Network, j: nat, calls: seq<Call>)
    requires InvBut(net, j) && j < |net.ends| && net.ends[j].inbox != []
    ensures InvBut(net.Handed(j, calls), j)
  {
    TakeKeeps(net, j);
    CallsKeep(net.Taken(j), calls, j);
  }

  lemma {:induction false} PumpedKeeps(net: Network, j: nat, fuel: nat, reactions: nat -> seq<Call>)
    requires InvBut(net, j) && j < |net.ends| && fuel == |net.ends[j].inbox|
    ensures Inv(net.Pumped(j, fuel, reactions))
    decreases fuel
  {
    if fuel != 0 && !net.ends[j].paused && !net.ends[j].closed {
      HandedKeeps(net, j, reactions(fuel));
      InboxShrinks(net, j, reactions(fuel));
      PumpedKeeps(net.Handed(j, reactions(fuel)), j, fuel - 1, reactions);
    }
  }

  // ---------------------------------------------------------------------------------------------
  // Operations
  // ---------------------------------------------------------------------------------------------

  datatype Op =
    | Connect(a: Host, b: Host)
    | Invoke(call: Call)
    | Arrive(end: nat)                                   // its earliest arrive callback, when due
    | Pump(end: nat, reactions: nat -> seq<Call>)        // and what the protocol calls for each item
    | Block(a: Host, b: Host)
    | Unblock(a: Host, b: Host, releases: nat -> nat -> Delay)
    | Partition(left: seq<Host>, right: seq<Host>)
    | Heal(releases: nat -> nat -> Delay)
    | Wait(until: Time)                                  // the clock, never past an arrive callback

  predicate Enabled(net: Network, op: Op) {
    match op
    case Arrive(j) => j < |net.ends| && net.ends[j].timers != [] && net.ends[j].timers[0] <= net.now
    case Pump(j, _) => j < |net.ends| && net.ends[j].pumpScheduled
    case Wait(t) => net.now <= t && forall e | e in net.ends :: forall x | x in e.timers :: t <= x
    case _ => true
  }

  ghost function Apply(net: Network, op: Op): Network
    requires net.Paired() && Enabled(net, op)
  {
    match op
    case Connect(a, b) =>
      net.(ends := net.ends + [Opened(a, |net.ends| + 1), Opened(b, |net.ends|)])
    case Invoke(call) => net.Called(call)
    case Arrive(j) => net.(ends := net.ends[j := net.ends[j].Arrived()])
    case Pump(j, reactions) => net.Pump(j, reactions)
    case Block(a, b) => net.(blocked := net.blocked + {(a, b)})
    case Unblock(a, b, releases) => net.(blocked := net.blocked - {(a, b)}).Release(|net.ends|, releases)
    case Partition(left, right) => net.(blocked := net.blocked + Cross(left, right))
    case Heal(releases) => net.(blocked := {}).Release(|net.ends|, releases)
    case Wait(t) => net.(now := t)
  }

  lemma ConnectPairs(net: Network, a: Host, b: Host)
    requires Inv(net)
    ensures Apply(net, Connect(a, b)).Paired()
  {
    var d := Apply(net, Connect(a, b));
    forall i | 0 <= i < |d.ends|
      ensures d.ends[i].peer < |d.ends| && d.ends[i].peer != i && d.ends[d.ends[i].peer].peer == i
    {
      assert i < |net.ends| ==> net.ends[i].peer < |net.ends|;
    }
  }

  /** Endpoints that were there before a connection was opened. */
  lemma OldEndStays(net: Network, d: Network, i: nat)
    requires Inv(net) && d.Paired() && i < |net.ends| <= |d.ends| && d.ends[..|net.ends|] == net.ends
    requires d.now == net.now && d.blocked == net.blocked
    ensures Carries(d.ends[i], d.ends[d.ends[i].peer]) && OnTime(d.ends[i], d.now) && PumpDue(d.ends[i])
    ensures HeldIfBlocked(d, i)
  {
    assert d.ends[i] == net.ends[i] && d.ends[net.ends[i].peer] == net.ends[net.ends[i].peer];
    assert HeldIfBlocked(net, i) && Carries(net.ends[i], net.ends[net.ends[i].peer]);
  }

  /** The two endpoints of the new connection. */
  lemma NewEndStays(net: Network, a: Host, b: Host, i: nat)
    requires Inv(net) && |net.ends| <= i < |net.ends| + 2
    ensures
      var d := Apply(net, Connect(a, b));
      && d.Paired() && i < |d.ends| && Carries(d.ends[i], d.ends[d.ends[i].peer])
      && OnTime(d.ends[i], d.now) && PumpDue(d.ends[i]) && HeldIfBlocked(d, i)
  {
    ConnectPairs(net, a, b);
    var d := Apply(net, Connect(a, b));
    assert d.ends[i] == Opened(if i == |net.ends| then a else b, if i == |net.ends| then i + 1 else i - 1);
  }

  lemma ConnectKeeps(net: Network, a: Host, b: Host)
    requires Inv(net)
    ensures Inv(Apply(net, Connect(a, b)))
  {
    var d := Apply(net, Connect(a, b));
    ConnectPairs(net, a, b);
    assert d.ends[..|net.ends|] == net.ends;
    forall i: nat | i < |d.ends|
      ensures Carries(d.ends[i], d.ends[d.ends[i].peer]) && OnTime(d.ends[i], d.now) && PumpDue(d.ends[i])
      ensures HeldIfBlocked(d, i)
    {
      if i < |net.ends| {
        OldEndStays(net, d, i);
      } else {
        NewEndStays(net, a, b, i);
      }
    }
  }

  lemma UnblockedKeeps(net: Network, blocked: set<(Host, Host)>, delays: nat -> nat -> Delay)
    requires Inv(net)
    ensures Inv(net.(blocked := blocked).Release(|net.ends|, delays))
  {
    var open := net.(blocked := blocked);
    assert Flowing(open);
    var _ := ReleaseFlows(open, |net.ends|, delays);
  }

  lemma BlockedKeeps(net: Network, more: set<(Host, Host)>)
    requires Inv(net)
    ensures Inv(net.(blocked := net.blocked + more))
  {
    var d := net.(blocked := net.blocked + more);
    forall i: nat | i < |d.ends| ensures HeldIfBlocked(d, i) {
      assert HeldIfBlocked(net, i);
    }
  }

  lemma WaitKeeps(net: Network, t: Time)
    requires Inv(net) && Enabled(net, Wait(t))
    ensures Inv(Apply(net, Wait(t)))
  {
    var d := net.(now := t);
    forall i | 0 <= i < |d.ends| ensures OnTime(d.ends[i], t) {
      assert net.ends[i] in net.ends && OnTime(net.ends[i], net.now);
    }
    forall i: nat | i < |d.ends| ensures HeldIfBlocked(d, i) {
      assert HeldIfBlocked(net, i);
    }
  }

  lemma PumpKeeps(net: Network, j: nat, reactions: nat -> seq<Call>)
    requires Inv(net) && j < |net.ends|
    ensures Inv(net.Pump(j, reactions))
  {
    var e := net.ends[j].(pumpScheduled := false);
    ReplaceFlows(net, j, e);
    var taken := net.(ends := net.ends[j := e]);
    forall k: nat | k < |net.ends| ensures HeldIfBlocked(taken, k) {
      assert HeldIfBlocked(net, k);
    }
    PumpedKeeps(taken, j, |e.inbox|, reactions);
  }

  lemma ApplyKeeps(net: Network, op: Op)
    requires Inv(net) && Enabled(net, op)
    ensures Inv(Apply(net, op))
  {
    match op {
      case Connect(a, b) => ConnectKeeps(net, a, b);
      case Invoke(call) => CallKeeps(net, call, call.end);
      case Arrive(j) => assert OnTime(net.ends[j], net.now); ArrivedFlows(net, j);
      case Pump(j, reactions) => PumpKeeps(net, j, reactions);
      case Block(a, b) => BlockedKeeps(net, {(a, b)});
      case Unblock(a, b, releases) => UnblockedKeeps(net, net.blocked - {(a, b)}, releases);
      case Partition(left, right) => BlockedKeeps(net, Cross(left, right));
      case Heal(releases) => UnblockedKeeps(net, {}, releases);
      case Wait(t) => WaitKeeps(net, t);
    }
  }

  // ---------------------------------------------------------------------------------------------
  // Whole runs
  // ---------------------------------------------------------------------------------------------

  /** Any sequence of enabled operations, from an empty network. */
  ghost predicate Runs(nets: seq<Network>, ops: seq<Op>) {
    && |nets| == |ops| + 1
    && nets[0] == Network(0.0, [], {})
    && forall i | 0 <= i < |ops| :: Step(nets[i], ops[i], nets[i + 1])
  }

  /** Operations are defined on paired networks, which every network reached is. */
  ghost predicate Step(before: Network, op: Op, after: Network) {
    before.Paired() ==> Enabled(before, op) && after == Apply(before, op)
  }

  lemma StepKeeps(before: Network, op: Op, after: Network)
    requires Inv(before) && Step(before, op, after)
    ensures Inv(after)
  {
    ApplyKeeps(before, op);
  }

  lemma {:induction false} RunKeeps(nets: seq<Network>, ops: seq<Op>, n: nat)
    requires Runs(nets, ops) && n < |nets|
    ensures Inv(nets[n])
  {
    if n > 0 {
      RunKeeps(nets, ops, n - 1);
      StepKeeps(nets[n - 1], ops[n - 1], nets[n - 1 + 1]);
    }
  }

  /** FIFO and conservation: in every run, what an endpoint has been handed is a prefix of what its
      peer sent, and the rest is in the inbox, on its way, or held back, in that order. */
  lemma StreamsAreFifo(nets: seq<Network>, ops: seq<Op>, n: nat, i: nat)
    requires Runs(nets, ops) && n < |nets| && i < |nets[n].ends|
    ensures
      var net := nets[n];
      && net.Paired()
      && var a, b := net.ends[i], net.ends[net.ends[i].peer];
      && a.sent == b.delivered + b.inbox + b.pending + a.held
      && b.delivered <= a.sent
      && (a.held != [] && !a.closed ==> net.Blocked(i))
  {
    RunKeeps(nets, ops, n);
    assert Carries(nets[n].ends[i], nets[n].ends[nets[n].ends[i].peer]) && HeldIfBlocked(nets[n], i);
  }

  /** No chunk enters an inbox before its own computed arrival time, and an open endpoint has exactly
      one outstanding arrive callback for each pending item. */
  lemma NothingArrivesEarly(nets: seq<Network>, ops: seq<Op>, n: nat)
    requires Runs(nets, ops) && n < |ops| && ops[n].Arrive?
    ensures
      var net := nets[n];
      && Inv(net) && Enabled(net, ops[n])
      && var e := net.ends[ops[n].end];
      && OnTime(e, net.now)
      && (!e.closed ==>
        && |e.timers| == |e.pending| > 0
        && e.arrivals[0] == net.now
        && nets[n + 1].ends[ops[n].end].inbox == e.inbox + [e.pending[0]])
  {
    RunKeeps(nets, ops, n);
    assert Step(nets[n], ops[n], nets[n + 1]);
    var e := nets[n].ends[ops[n].end];
    assert OnTime(e, nets[n].now) && e.timers[0] in e.timers;
  }

  /** Delivery: once nothing is outstanding for an open, reading endpoint, and its live peer's edge is
      not blocked, everything the peer sent has been handed over. */
  lemma QuiescentStreamsAreDelivered(nets: seq<Network>, ops: seq<Op>, n: nat, i: nat)
    requires Runs(nets, ops) && n < |nets| && i < |nets[n].ends|
    requires nets[n].Paired()
    requires !nets[n].ends[i].closed && !nets[n].Blocked(i)
    requires
      var b := nets[n].ends[nets[n].ends[i].peer];
      !b.closed && !b.paused && b.timers == [] && !b.pumpScheduled
    ensures nets[n].ends[nets[n].ends[i].peer].delivered == nets[n].ends[i].sent
  {
    RunKeeps(nets, ops, n);
    var net := nets[n];
    var b := net.ends[net.ends[i].peer];
    assert Carries(net.ends[i], b) && HeldIfBlocked(net, i) && OnTime(b, net.now) && PumpDue(b);
  }

  // --- what a heal lets out, and what it does not ---

  lemma {:induction false} FlushSpares(net: Network, i: nat, delays: nat -> Delay, k: nat)
    requires net.Paired() && i < |net.ends| && k < |net.ends|
    ensures
      var d := net.Flush(i, delays);
      && d.ends[k].closed == net.ends[k].closed
      && (net.ends[k].closed ==> d.ends[k].held == net.ends[k].held)
    decreases |net.ends[i].held|
  {
    var a := net.ends[i];
    if !a.closed && a.held != [] && !net.Blocked(i) {
      var next := net.(ends := net.ends[i := a.(held := a.held[1..])]).Queued(i, a.held[0], delays(|a.held|));
      FlushSpares(next, i, delays, k);
    }
  }

  lemma {:induction false} ReleaseSpares(net: Network, n: nat, delays: nat -> nat -> Delay, k: nat)
    requires net.Paired() && n <= |net.ends| && k < |net.ends|
    ensures
      var d := net.Release(n, delays);
      && d.ends[k].closed == net.ends[k].closed
      && (net.ends[k].closed ==> d.ends[k].held == net.ends[k].held)
  {
    if n > 0 {
      ReleaseSpares(net, n - 1, delays, k);
      FlushSpares(net.Release(n - 1, delays), n - 1, delays(n - 1), k);
    }
  }

  /** Healing lets everything out of a live endpoint. An endpoint that was closed behind the block keeps
      what it held, for ever: after a heal exactly those still hold anything. */
  lemma HealReleasesEverything(nets: seq<Network>, ops: seq<Op>, n: nat, i: nat)
    requires Runs(nets, ops) && n < |ops| && ops[n].Heal? && i < |nets[n + 1].ends|
    ensures |nets[n].ends| == |nets[n + 1].ends| && nets[n + 1].ends[i].closed == nets[n].ends[i].closed
    ensures !nets[n + 1].ends[i].closed ==> nets[n + 1].ends[i].held == []
    ensures nets[n].ends[i].closed ==> nets[n + 1].ends[i].held == nets[n].ends[i].held
    ensures nets[n + 1].ends[i].held == [] <==> !nets[n].ends[i].closed || nets[n].ends[i].held == []
  {
    RunKeeps(nets, ops, n);
    RunKeeps(nets, ops, n + 1);
    assert Step(nets[n], ops[n], nets[n + 1]);
    var open := nets[n].(blocked := {});
    var _ := ReleaseFlows(open, |open.ends|, ops[n].releases);
    ReleaseSpares(open, |open.ends|, ops[n].releases, i);
    assert HeldIfBlocked(nets[n + 1], i);
  }

  lemma {:induction false} FlushKeepsBlocked(net: Network, i: nat, delays: nat -> Delay)
    requires net.Paired() && i < |net.ends|
    ensures net.Flush(i, delays).blocked == net.blocked
    decreases |net.ends[i].held|
  {
    var a := net.ends[i];
    if !a.closed && a.held != [] && !net.Blocked(i) {
      var next := net.(ends := net.ends[i := a.(held := a.held[1..])]).Queued(i, a.held[0], delays(|a.held|));
      FlushKeepsBlocked(next, i, delays);
    }
  }

  lemma {:induction false} ReleaseKeepsBlocked(net: Network, n: nat, delays: nat -> nat -> Delay)
    requires net.Paired() && n <= |net.ends|
    ensures net.Release(n, delays).blocked == net.blocked
  {
    if n > 0 {
      ReleaseKeepsBlocked(net, n - 1, delays);
      FlushKeepsBlocked(net.Release(n - 1, delays), n - 1, delays(n - 1));
    }
  }
}
