/** What becomes of each datagram (src/simloom/_net.py:997-1042): how often it is delivered, with what contents,
    and what the counters of the network count, in any run. */
module DatagramFates {
  import opened Wrappers
  import opened Clock
  import opened Net
  import opened Datagrams

  /** How many deliveries of the datagram sent `n`-th were scheduled. */
  function Deliveries(packets: seq<Packet>, n: nat): nat {
    if packets == [] then 0 else
    Deliveries(packets[..|packets| - 1], n) + if packets[|packets| - 1].serial == n then 1 else 0
  }

  /** What the rolls make of a datagram: nobody is there or it is cut off, it is lost, or it goes out once or
      twice. */
  datatype Verdict = Vanishes | Lost | Once | Twice
  {
    function Copies(): nat {
      match this
      case Vanishes => 0
      case Lost => 0
      case Once => 1
      case Twice => 2
    }
  }

  function Judge(w: Wires, s: Sending, fate: Fate): Verdict {
    if s.flow.dest !in w.bound || (s.owner, w.bound[s.flow.dest]) in w.blocked then Vanishes
    else if fate.lossRoll < w.settings.loss then Lost
    else if fate.dupRoll < w.settings.dup then Twice
    else Once
  }

  /** The verdicts on the sends of a run, in order. */
  function Verdicts(ops: seq<Op>): seq<Verdict> {
    if ops == [] then [] else
    var last := |ops| - 1;
    Verdicts(ops[..last])
    + if ops[last].Send? then [Judge(After(ops[..last]), ops[last].sending, ops[last].fate)] else []
  }

  function Count(verdicts: seq<Verdict>, v: Verdict): nat {
    if verdicts == [] then 0 else
    Count(verdicts[..|verdicts| - 1], v) + if verdicts[|verdicts| - 1] == v then 1 else 0
  }

  lemma CountMore(verdicts: seq<Verdict>, last: Verdict, v: Verdict)
    ensures Count(verdicts + [last], v) == Count(verdicts, v) + if last == v then 1 else 0
  {
    assert (verdicts + [last])[..|verdicts|] == verdicts;
  }

  lemma DeliveriesMore(packets: seq<Packet>, p: Packet, n: nat)
    ensures Deliveries(packets + [p], n) == Deliveries(packets, n) + if p.serial == n then 1 else 0
  {
    assert (packets + [p])[..|packets|] == packets;
  }

  /** A packet is a delivery of the datagram of its number, no sooner than its link allows. */
  ghost predicate Delivers(p: Packet, sent: seq<Sending>) {
    && p.serial < |sent|
    && var s := sent[p.serial];
       p.flow == s.flow && p.data == s.data && (s.link.Valid() ==> p.arrival >= s.now + s.link.least)
  }

  lemma CarriedDelivers(w: Wires, s: Sending, copy: Copy)
    requires copy.Valid() && w.settings.latency.Valid()
    ensures
      var d := w.Carried(s, copy);
      && |d.packets| == |w.packets| + 1 && d.packets[..|w.packets|] == w.packets
      && d.sends == w.sends && d.settings == w.settings
      && d.dropped == w.dropped && d.duplicated == w.duplicated && d.vanished == w.vanished
      && var p := d.packets[|w.packets|];
         && p.serial == w.sends && p.flow == s.flow && p.data == s.data
         && (s.link.Valid() ==> p.arrival >= s.now + s.link.least)
  {
    if s.link.Valid() {
      DrawnInRange(s.link, copy.step);
    }
  }

  /** One send: as many deliveries as its verdict says, all of this datagram, and the counter of that
      verdict moves. */
  ghost predicate SentOnce(w: Wires, d: Wires, s: Sending, v: Verdict) {
    && d.sends == w.sends + 1 && |d.packets| == |w.packets| + v.Copies() && w.packets <= d.packets
    && (forall i | |w.packets| <= i < |d.packets| :: Delivery(d.packets[i], s, w.sends))
    && d.dropped == w.dropped + (if v.Lost? then 1 else 0)
    && d.duplicated == w.duplicated + (if v.Twice? then 1 else 0)
    && d.vanished == w.vanished + (if v.Vanishes? then 1 else 0)
  }

  ghost predicate Delivery(p: Packet, s: Sending, n: nat) {
    p.serial == n && p.flow == s.flow && p.data == s.data && (s.link.Valid() ==> p.arrival >= s.now + s.link.least)
  }

  lemma SendingDecides(w: Wires, s: Sending, fate: Fate)
    requires fate.Valid() && w.settings.latency.Valid()
    ensures SentOnce(w, w.Routed(s, fate), s, Judge(w, s, fate))
  {
    if w.Reaches(s) && fate.lossRoll >= w.settings.loss {
      RoutedCopies(w, s, fate);
      CarriedDelivers(w, s, fate.first);
      CarriedDelivers(w.Carried(s, fate.first), s, fate.second);
    }
  }

  ghost predicate Settled(w: Wires, sent: seq<Sending>, verdicts: seq<Verdict>) {
    && w.sends == |sent| == |verdicts|
    && (forall i | 0 <= i < |w.packets| :: Delivers(w.packets[i], sent))
    && (forall n: nat | n < |verdicts| :: Deliveries(w.packets, n) == verdicts[n].Copies())
    && (forall n: nat | n >= |verdicts| :: Deliveries(w.packets, n) == 0)
    && w.dropped == Count(verdicts, Lost)
    && w.duplicated == Count(verdicts, Twice)
    && w.vanished == Count(verdicts, Vanishes)
  }

  lemma {:induction false} DeliveriesOf(before: seq<Packet>, after: seq<Packet>, n: nat, m: nat)
    requires before <= after && forall i | |before| <= i < |after| :: after[i].serial == n
    ensures Deliveries(after, m) == Deliveries(before, m) + if m == n then |after| - |before| else 0
    decreases |after|
  {
    if |after| == |before| {
      assert after == before;
    } else {
      DeliveriesOf(before, after[..|after| - 1], n, m);
    }
  }

  lemma SettledMore(w: Wires, d: Wires, s: Sending, v: Verdict, sent: seq<Sending>, verdicts: seq<Verdict>)
    requires Settled(w, sent, verdicts) && SentOnce(w, d, s, v)
    ensures Settled(d, sent + [s], verdicts + [v])
  {
    CountMore(verdicts, v, Lost);
    CountMore(verdicts, v, Twice);
    CountMore(verdicts, v, Vanishes);
    forall i | 0 <= i < |d.packets| ensures Delivers(d.packets[i], sent + [s]) {
      if i < |w.packets| {
        assert Delivers(w.packets[i], sent) && d.packets[i] == w.packets[i];
      } else {
        assert Delivery(d.packets[i], s, w.sends);
      }
    }
    forall m: nat
      ensures Deliveries(d.packets, m) == Deliveries(w.packets, m) + if m == w.sends then v.Copies() else 0
    {
      assert forall i | |w.packets| <= i < |d.packets| :: Delivery(d.packets[i], s, w.sends);
      DeliveriesOf(w.packets, d.packets, w.sends, m);
    }
  }

  /** In any run every packet is a delivery of the datagram of its number, each datagram has as many
      deliveries as its verdict says, and the counters count the lost, the doubled and those that reached
      nobody. */
  lemma {:induction false} EveryDatagramIsSettled(ops: seq<Op>)
    requires forall op | op in ops :: Allowed(op)
    ensures Settled(After(ops), Sent(ops), Verdicts(ops))
  {
    if ops != [] {
      var last := |ops| - 1;
      EveryDatagramIsSettled(ops[..last]);
      RunKeepsInv(ops[..last]);
      assert Allowed(ops[last]);
      if ops[last].Send? {
        var w := After(ops[..last]);
        SendingDecides(w, ops[last].sending, ops[last].fate);
        SettledMore(w, After(ops), ops[last].sending, Judge(w, ops[last].sending, ops[last].fate),
                    Sent(ops[..last]), Verdicts(ops[..last]));
      } else {
        assert Sent(ops) == Sent(ops[..last]) && Verdicts(ops) == Verdicts(ops[..last]);
        assert After(ops).packets == After(ops[..last]).packets;
      }
    }
  }
}
