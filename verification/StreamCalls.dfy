/** What each call on a transport does (src/simloom/_net.py:141-310): which items it sends, where they go
    and when they are due, and what the pump hands over. */
module StreamCalls {
  import opened Clock
  import opened Net

  /** What a call makes its transport send. */
  function Says(net: Network, call: Call): seq<Item>
    requires net.Paired() && call.end < |net.ends|
  {
    var e := net.ends[call.end];
    if e.closing then [] else
    match call
    case Write(_, data, _) => if data == [] then [] else [Chunk(data)]
    case WriteEof(_, _) => [Eof]
    case Close(_, _) => if net.ends[e.peer].closing then [] else [Eof]
    case _ => []
  }

  function DelayOf(call: Call): Delay {
    match call
    case Write(_, _, delay) => delay
    case WriteEof(_, delay) => delay
    case Close(_, delay) => delay
    case _ => 0.0
  }

  /** `t` is the earliest time that is no sooner than either. */
  predicate IsLater(t: Time, a: Time, b: Time) {
    t >= a && t >= b && (t == a || t == b)
  }

  /** The items join what is on its way to `b`, each with one callback, when its delay is over but not
      before the item ahead of it. */
  ghost predicate GoesOut(b: Endpoint, b': Endpoint, items: seq<Item>, due: Time) {
    && b'.pending == b.pending + items && |b'.arrivals| == |b.arrivals| + |items|
    && b.arrivals <= b'.arrivals && b.timers <= b'.timers && |b'.timers| == |b.timers| + |items|
    && (items == [] ==> b'.lastArrival == b.lastArrival)
    && (items != [] ==>
          && IsLater(b'.lastArrival, due, b.lastArrival)
          && b'.arrivals[|b.arrivals|] == b'.timers[|b.timers|] == b'.lastArrival)
  }

  /** The items leave `i`: behind a block or behind other held items they are held, otherwise they go out. */
  ghost predicate Leaves(net: Network, d: Network, i: nat, items: seq<Item>, due: Time)
    requires net.Paired() && i < |net.ends| == |d.ends|
  {
    var (a, b) := (net.ends[i], net.ends[net.ends[i].peer]);
    var (a', b') := (d.ends[i], d.ends[net.ends[i].peer]);
    && a'.sent == a.sent + items
    && if a.held != [] || net.Blocked(i)
       then a'.held == a.held + items && GoesOut(b, b', [], due)
       else a'.held == a.held && GoesOut(b, b', items, due)
  }

  lemma SendExactly(net: Network, i: nat, item: Item, delay: Delay)
    requires net.Paired() && i < |net.ends|
    ensures Leaves(net, net.Send(i, item, delay), i, [item], net.now + delay)
  {
  }

  lemma NothingLeaves(net: Network, d: Network, i: nat, due: Time)
    requires net.Paired() && i < |net.ends| == |d.ends|
    requires d.ends[i].sent == net.ends[i].sent && d.ends[i].held == net.ends[i].held
    requires d.ends[net.ends[i].peer] == net.ends[net.ends[i].peer]
    ensures Leaves(net, d, i, [], due)
  {
  }

  /** What no call of another endpoint touches, and this one's only as the call says. */
  ghost predicate Switched(e: Endpoint, e': Endpoint, call: Call, own: bool) {
    && e'.owner == e.owner && e'.peer == e.peer && e'.inbox == e.inbox && e'.delivered == e.delivered
    && e'.closing == (e.closing || (own && (call.Close? || call.Vanish?)))
    && e'.closed == (e.closed || (own && call.Vanish?))
    && e'.paused == (if own && call.Pause? then true else if own && call.Resume? then false else e.paused)
    && e'.pumpScheduled == (e.pumpScheduled || (own && call.Resume? && !e.closed))
  }

  /** A call sends just what it says, and nothing once the transport is closing; what it sends is held
      exactly behind a block or other held items. */
  lemma CallsSendExactly(net: Network, call: Call)
    requires net.Paired() && call.end < |net.ends|
    ensures
      var d := net.Called(call);
      var i := call.end;
      && d.now == net.now && d.blocked == net.blocked
      && Leaves(net, d, i, Says(net, call), net.now + DelayOf(call))
  {
    var i := call.end;
    var d := net.Called(call);
    if Says(net, call) == [] {
      NothingLeaves(net, d, i, net.now + DelayOf(call));
    } else if call.Close? {
      var marked := net.(ends := net.ends[i := net.ends[i].(closing := true)]);
      SendExactly(marked, i, Eof, call.delay);
    } else {
      SendExactly(net, i, Says(net, call)[0], DelayOf(call));
    }
  }

  /** And it moves the switches of its own transport alone; third endpoints it leaves as they are. */
  lemma CallsSwitchExactly(net: Network, call: Call, k: nat)
    requires net.Paired() && call.end < |net.ends| && k < |net.ends|
    ensures
      var d := net.Called(call);
      && Switched(net.ends[k], d.ends[k], call, k == call.end)
      && (k != call.end && k != net.ends[call.end].peer ==> d.ends[k] == net.ends[k])
  {
    var i := call.end;
    match call {
      case Write(_, data, delay) => SendSwitchesNothing(net, i, Chunk(data), delay, k);
      case WriteEof(_, delay) => SendSwitchesNothing(net, i, Eof, delay, k);
      case Close(_, delay) =>
        var marked := net.(ends := net.ends[i := net.ends[i].(closing := true)]);
        SendSwitchesNothing(marked, i, Eof, delay, k);
      case _ =>
    }
  }

  /** The switches of an endpoint, and who it is. */
  ghost predicate Unswitched(e: Endpoint, e': Endpoint) {
    && e'.owner == e.owner && e'.peer == e.peer && e'.inbox == e.inbox && e'.delivered == e.delivered
    && e'.closing == e.closing && e'.closed == e.closed && e'.paused == e.paused
    && e'.pumpScheduled == e.pumpScheduled
  }

  lemma QueueSwitchesNothing(net: Network, i: nat, item: Item, delay: Delay, k: nat)
    requires net.Paired() && i < |net.ends| && k < |net.ends|
    ensures
      var d := net.Queued(i, item, delay);
      && Unswitched(net.ends[k], d.ends[k])
      && (k != net.ends[i].peer ==> d.ends[k] == net.ends[k])
  {
  }

  lemma SendSwitchesNothing(net: Network, i: nat, item: Item, delay: Delay, k: nat)
    requires net.Paired() && i < |net.ends| && k < |net.ends|
    ensures
      var d := net.Send(i, item, delay);
      && Unswitched(net.ends[k], d.ends[k])
      && (k != i && k != net.ends[i].peer ==> d.ends[k] == net.ends[k])
  {
    var noted := net.(ends := net.ends[i := net.ends[i].(sent := net.ends[i].sent + [item])]);
    QueueSwitchesNothing(noted, i, item, delay, k);
  }

  // --- the pump ---

  /** The pump may hand over another item. */
  predicate MayPump(e: Endpoint) {
    e.inbox != [] && !e.paused && !e.closed
  }

  /** The networks between one item and the next: each time the first item of the inbox is handed over, and
      the protocol makes its calls. */
  ghost predicate PumpTrace(trace: seq<Network>, j: nat, reactions: nat -> seq<Call>) {
    forall m | 0 <= m < |trace| - 1 :: PumpsTo(trace[m], trace[m + 1], j, reactions)
  }

  ghost predicate PumpsTo(net: Network, next: Network, j: nat, reactions: nat -> seq<Call>) {
    && net.Paired() && j < |net.ends| && MayPump(net.ends[j])
    && var e := net.ends[j];
       var taken := net.(ends := net.ends[j := e.(inbox := e.inbox[1..], delivered := e.delivered + [e.inbox[0]])]);
       taken.Paired() && next == taken.CalledAll(reactions(|e.inbox|))
  }

  /** The pump hands over items in order until there are none, or reading is paused, or the endpoint is
      closed, be it by the protocol itself; and it hands nothing to an endpoint that is paused or closed. */
  lemma {:induction false} PumpStopsExactly(net: Network, j: nat, fuel: nat, reactions: nat -> seq<Call>)
    returns (trace: seq<Network>)
    requires net.Paired() && j < |net.ends| && fuel == |net.ends[j].inbox|
    ensures trace != [] && trace[0] == net && trace[|trace| - 1] == net.Pumped(j, fuel, reactions)
    ensures PumpTrace(trace, j, reactions) && !MayPump(trace[|trace| - 1].ends[j])
    decreases fuel
  {
    if !MayPump(net.ends[j]) {
      trace := [net];
    } else {
      InboxShrinks(net, j, reactions(fuel));
      var next := net.Handed(j, reactions(fuel));
      var rest := PumpStopsExactly(next, j, fuel - 1, reactions);
      trace := [net] + rest;
      assert PumpsTo(net, next, j, reactions);
    }
  }
}
