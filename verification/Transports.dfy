/** The network object (src/simloom/_net.py:141-310, 669-703). Its transports are records in the list
    `ends`, updated in place; each method is proved equal to its counterpart in `Net`. The loops that flush
    held items, pump the inbox and release every transport are the code's own. */
module Transports {
  import opened Wrappers
  import opened Clock
  import opened Net

  class SimNetwork {
    var now: Time
    var ends: seq<Endpoint>
    var blocked: set<(Host, Host)>

    function State(): Network
      reads this
    {
      Network(now, ends, blocked)
    }

    constructor ()
      ensures State() == Network(0.0, [], {})
    {
      now, ends, blocked := 0.0, [], {};
    }

    /** `connected_pair`: two endpoints that are each other's peer. */
    method ConnectedPair(a: Host, b: Host)
      modifies this`ends
      ensures ends == old(ends) + [Opened(a, |old(ends)| + 1), Opened(b, |old(ends)|)]
    {
      var n := |ends|;
      ends := ends + [Opened(a, n + 1), Opened(b, n)];
    }

    method IsBlocked(i: nat) returns (r: bool)
      requires State().Paired() && i < |ends|
      ensures r == State().Blocked(i)
    {
      r := (ends[i].owner, ends[ends[i].peer].owner) in blocked;
    }

    /** Gives the item its arrival time and queues it, with a callback, at the peer. */
    method Queue(i: nat, item: Item, delay: Delay)
      requires State().Paired() && i < |ends|
      modifies this`ends
      ensures State() == old(State()).Queued(i, item, delay)
    {
      var peer := ends[i].peer;
      var arrival := now + delay;
      if arrival < ends[peer].lastArrival {
        arrival := ends[peer].lastArrival;
      }
      var e := ends[peer];
      ends := ends[peer := e.(lastArrival := arrival, pending := e.pending + [item],
                              timers := e.timers + [arrival], arrivals := e.arrivals + [arrival])];
    }

    method Send(i: nat, item: Item, delay: Delay)
      requires State().Paired() && i < |ends|
      modifies this`ends
      ensures State() == old(State()).Send(i, item, delay)
    {
      var shut := IsBlocked(i);
      var e := ends[i].(sent := ends[i].sent + [item]);
      if e.held != [] || shut {
        ends := ends[i := e.(held := e.held + [item])];
        return;
      }
      ends := ends[i := e];
      Queue(i, item, delay);
    }

    method FlushHeld(i: nat, delays: nat -> Delay)
      requires State().Paired() && i < |ends|
      modifies this`ends
      ensures State() == old(State()).Flush(i, delays)
    {
      if ends[i].closed {
        return;
      }
      var shut := IsBlocked(i);
      while ends[i].held != [] && !shut
        invariant State().Paired() && i < |ends| && !ends[i].closed && shut == State().Blocked(i)
        invariant State().Flush(i, delays) == old(State()).Flush(i, delays)
        decreases |ends[i].held|
      {
        var e := ends[i];
        ends := ends[i := e.(held := e.held[1..])];
        Queue(i, e.held[0], delays(|e.held|));
        shut := IsBlocked(i);
      }
    }

    method Release(delays: nat -> nat -> Delay)
      requires State().Paired()
      modifies this`ends
      ensures State() == old(State()).Release(|old(ends)|, delays)
    {
      ghost var start := State();
      var n := 0;
      while n < |ends|
        invariant n <= |ends| == |start.ends| && State().Paired()
        invariant State() == start.Release(n, delays)
      {
        ghost var before := State();
        FlushHeld(n, delays(n));
        start.ReleaseNext(n, before, delays);
        n := n + 1;
      }
    }

    method Close(i: nat, delay: Delay)
      requires State().Paired() && i < |ends|
      modifies this`ends
      ensures State() == old(State()).Closed(i, delay)
    {
      if ends[i].closing {
        return;
      }
      ends := ends[i := ends[i].(closing := true)];
      if !ends[ends[i].peer].closing {
        Send(i, Eof, delay);
      }
    }

    /** Finalizing, a forced close, a crash of the host or a reset: the endpoint is gone. */
    method End(i: nat)
      requires State().Paired() && i < |ends|
      modifies this`ends
      ensures State() == old(State()).Ended(i)
    {
      ends := ends[i := ends[i].(closing := true, closed := true)];
    }

    /** The arrive callback. */
    method Arrive(j: nat)
      requires j < |ends| && ends[j].timers != []
      modifies this`ends
      ensures ends == old(ends)[j := old(ends)[j].Arrived()]
    {
      var e := ends[j].(timers := ends[j].timers[1..]);
      ends := ends[j := e];
      if e.closed {
        return;
      }
      if e.pending != [] {
        ends := ends[j := e.(inbox := e.inbox + [e.pending[0]], pending := e.pending[1..],
                             arrivals := Rest(e.arrivals))];
      }
      ends := ends[j := ends[j].(pumpScheduled := true)];
    }

    method Write(i: nat, data: Bytes, delay: Delay)
      requires State().Paired() && i < |ends|
      modifies this`ends
      ensures State() == old(State()).Called(Net.Write(i, data, delay))
    {
      if ends[i].closing || data == [] {
        return;
      }
      Send(i, Chunk(data), delay);
    }

    method WriteEof(i: nat, delay: Delay)
      requires State().Paired() && i < |ends|
      modifies this`ends
      ensures State() == old(State()).Called(Net.WriteEof(i, delay))
    {
      if !ends[i].closing {
        Send(i, Eof, delay);
      }
    }

    method PauseReading(i: nat)
      requires i < |ends|
      modifies this`ends
      ensures ends == old(ends)[i := old(ends)[i].(paused := true)]
    {
      ends := ends[i := ends[i].(paused := true)];
    }

    method ResumeReading(i: nat)
      requires i < |ends|
      modifies this`ends
      ensures ends == old(ends)[i := old(ends)[i].(paused := false).PumpRequested()]
    {
      ends := ends[i := ends[i].(paused := false)];
      if !ends[i].pumpScheduled && !ends[i].closed {
        ends := ends[i := ends[i].(pumpScheduled := true)];
      }
    }

    /** Any call on a transport. */
    method Invoke(call: Call)
      requires State().Paired()
      modifies this`ends
      ensures State() == old(State()).Called(call)
    {
      if call.end >= |ends| {
        return;
      }
      match call {
        case Write(i, data, delay) => Write(i, data, delay);
        case WriteEof(i, delay) => WriteEof(i, delay);
        case Pause(i) => PauseReading(i);
        case Resume(i) => ResumeReading(i);
        case Close(i, delay) => Close(i, delay);
        case Vanish(i) => End(i);
      }
    }

    /** Hands one item to the protocol; `calls` is what it calls before it returns. */
    method Hand(j: nat, calls: seq<Call>)
      requires State().Paired() && j < |ends| && ends[j].inbox != []
      modifies this`ends
      ensures State() == old(State()).Handed(j, calls)
    {
      var e := ends[j];
      ends := ends[j := e.(inbox := e.inbox[1..], delivered := e.delivered + [e.inbox[0]])];
      ghost var taken := State();
      var i := 0;
      while i < |calls|
        invariant i <= |calls| && State().Paired() && State() == taken.CalledAll(calls[..i])
      {
        assert calls[..i + 1][..i] == calls[..i];
        Invoke(calls[i]);
        i := i + 1;
      }
      assert calls[..i] == calls;
    }

    method Pump(j: nat, reactions: nat -> seq<Call>)
      requires State().Paired() && j < |ends|
      modifies this`ends
      ensures State() == old(State()).Pump(j, reactions)
    {
      ends := ends[j := ends[j].(pumpScheduled := false)];
      ghost var end := State().Pumped(j, |ends[j].inbox|, reactions);
      while ends[j].inbox != [] && !ends[j].paused && !ends[j].closed
        invariant State().Paired() && j < |ends|
        invariant State().Pumped(j, |ends[j].inbox|, reactions) == end
        decreases |ends[j].inbox|
      {
        PumpedStep(State(), j, reactions);
        Hand(j, reactions(|ends[j].inbox|));
      }
    }

    method Block(a: Host, b: Host)
      modifies this`blocked
      ensures blocked == old(blocked) + {(a, b)}
    {
      blocked := blocked + {(a, b)};
    }

    method Unblock(a: Host, b: Host, delays: nat -> nat -> Delay)
      requires State().Paired()
      modifies this
      ensures State() == old(State()).(blocked := old(blocked) - {(a, b)}).Release(|old(ends)|, delays)
    {
      blocked := blocked - {(a, b)};
      Release(delays);
    }

    method Heal(delays: nat -> nat -> Delay)
      requires State().Paired()
      modifies this
      ensures State() == old(State()).(blocked := {}).Release(|old(ends)|, delays)
    {
      blocked := {};
      Release(delays);
    }

    /** `partition`: every edge between the two groups is blocked, both ways. */
    method Partition(left: seq<Host>, right: seq<Host>)
      modifies this`blocked
      ensures blocked == old(blocked) + Cross(left, right)
    {
      var i := 0;
      while i < |left|
        invariant i <= |left|
        invariant forall e :: (e in blocked <==>
          e in old(blocked) || (e.0 in left[..i] && e.1 in right) || (e.1 in left[..i] && e.0 in right))
      {
        var j := 0;
        ghost var before := blocked;
        while j < |right|
          invariant j <= |right|
          invariant forall e :: (e in blocked <==>
            e in before || (e.0 == left[i] && e.1 in right[..j]) || (e.1 == left[i] && e.0 in right[..j]))
        {
          assert forall x :: x in right[..j + 1] <==> x in right[..j] || x == right[j];
          blocked := blocked + {(left[i], right[j])};
          blocked := blocked + {(right[j], left[i])};
          j := j + 1;
        }
        assert right[..j] == right;
        assert forall x :: x in left[..i + 1] <==> x in left[..i] || x == left[i];
        i := i + 1;
      }
      assert left[..i] == left;
    }
  }
}
