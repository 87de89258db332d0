/** Datagram flows (src/simloom/_net.py:563-593, 997-1042): loss, duplication, reordering and delay, and the
    exact conditions under which a flow stays in order. */
module Datagrams {
  import opened Wrappers
  import opened Clock
  import opened Net

  type Address = (string, int)

  /** The tape's answer to a percentage draw. */
  type Roll = r: nat | r < 100

  const DELAY_STEPS := 64

  datatype Flow = Flow(source: Address, dest: Address)

  /** The latency range of a link. */
  datatype Latency = Latency(least: Time, most: Time)
  {
    predicate Valid() {
      0.0 <= least <= most
    }

    function Drawn(step: nat): Time {
      least + (most - least) * (step as real / (DELAY_STEPS - 1) as real)
    }
  }

  datatype Settings = Settings(latency: Latency, loss: nat, dup: nat, reorder: nat)

  datatype Copy = Copy(step: nat, reorderRoll: Roll)
  {
    predicate Valid() {
      step < DELAY_STEPS
    }
  }

  /** Everything the tape decides about one datagram. */
  datatype Fate = Fate(lossRoll: Roll, dupRoll: Roll, first: Copy, second: Copy)
  {
    predicate Valid() {
      first.Valid() && second.Valid()
    }
  }

  /** One call of `sendto`: `owner` is the sender's host, `link` the latency of the edge it uses. */
  datatype Sending = Sending(flow: Flow, owner: Host, data: Bytes, now: Time, link: Latency)

  /** A scheduled delivery of the datagram sent `serial`-th; `late` if it was held back on purpose. */
  datatype Packet = Packet(arrival: Time, flow: Flow, data: Bytes, serial: nat, late: bool)

  /** `front` is the last in-order arrival of each flow; `packets` lists every delivery ever scheduled,
      in order of creation; `sends` numbers the calls, and `vanished` counts those that reach nobody. */
  datatype Wires = Wires(
    settings: Settings,
    bound: map<Address, Host>,
    blocked: set<(Host, Host)>,
    front: map<Flow, Time>,
    packets: seq<Packet>,
    dropped: nat,
    duplicated: nat,
    reordered: nat,
    sends: nat,
    vanished: nat)
  {
    function Front(flow: Flow): Time {
      FrontOf(front, flow)
    }

    predicate Reaches(s: Sending) {
      s.flow.dest in bound && (s.owner, bound[s.flow.dest]) !in blocked
    }

    /** One copy of the datagram gets its arrival time. */
    function Carried(s: Sending, copy: Copy): Wires {
      var last := Front(s.flow);
      var arrival := s.now + s.link.Drawn(copy.step);
      if copy.reorderRoll < settings.reorder then
        var held := Later(arrival, last) + 5.0 * settings.latency.most;
        this.(packets := packets + [Packet(held, s.flow, s.data, sends, true)],
              front := front[s.flow := last], reordered := reordered + 1)
      else
        var onward := Later(arrival, last + settings.latency.least);
        this.(packets := packets + [Packet(onward, s.flow, s.data, sends, false)], front := front[s.flow := onward])
    }

    function Routed(s: Sending, fate: Fate): (w: Wires)
      ensures w.settings == settings && w.bound == bound && w.blocked == blocked
    {
      if !Reaches(s) then this.(sends := sends + 1, vanished := vanished + 1)
      else if fate.lossRoll < settings.loss then this.(sends := sends + 1, dropped := dropped + 1)
      else if fate.dupRoll < settings.dup then
        CarriedAll(s, [fate.first, fate.second]).(sends := sends + 1, duplicated := duplicated + 1)
      else CarriedAll(s, [fate.first]).(sends := sends + 1)
    }

    function CarriedAll(s: Sending, copies: seq<Copy>): (w: Wires)
      ensures w.settings == settings && w.bound == bound && w.blocked == blocked
    {
      if copies == [] then this else CarriedAll(s, copies[..|copies| - 1]).Carried(s, copies[|copies| - 1])
    }
  }

  const DEFAULT := Settings(Latency(0.0005, 0.02), 0, 0, 0)
  const QUIET := Wires(DEFAULT, map[], {}, map[], [], 0, 0, 0, 0, 0)

  // ---------------------------------------------------------------------------------------------
  // The network object's datagram half
  // ---------------------------------------------------------------------------------------------

  class DatagramNetwork {
    var settings: Settings
    var bound: map<Address, Host>
    var blocked: set<(Host, Host)>
    var front: map<Flow, Time>
    var packets: seq<Packet>
    var dropped: nat
    var duplicated: nat
    var reordered: nat
    var sends: nat
    ghost var vanished: nat

    ghost function State(): Wires
      reads this
    {
      Wires(settings, bound, blocked, front, packets, dropped, duplicated, reordered, sends, vanished)
    }

    constructor ()
      ensures State() == QUIET
    {
      settings, bound, blocked, front, packets := DEFAULT, map[], {}, map[], [];
      dropped, duplicated, reordered, sends, vanished := 0, 0, 0, 0, 0;
    }

    /** `set_latency`. A range from zero is accepted. */
    method SetLatency(least: Time, most: Time) returns (r: Result<(), string>)
      modifies this`settings
      ensures r.Ok? <==> Latency(least, most).Valid()
      ensures settings == if r.Ok? then old(settings).(latency := Latency(least, most)) else old(settings)
    {
      if !(0.0 <= least <= most) {
        return Err("latency range must satisfy 0 <= min <= max");
      }
      settings := settings.(latency := Latency(least, most));
      return Ok(());
    }

    /** Schedules one copy. `last` is the front of the flow so far, and `next` the one from now on. */
    method CarryOne(s: Sending, copy: Copy, last: Time, ghost sofar: map<Flow, Time>) returns (next: Time)
      requires FrontOf(sofar, s.flow) == last
      modifies this`packets, this`reordered
      ensures State().(front := sofar[s.flow := next]) == old(State()).(front := sofar).Carried(s, copy)
    {
      next := last;
      var arrival := s.now + s.link.Drawn(copy.step);
      var late := copy.reorderRoll < settings.reorder;
      if late {
        arrival := Later(arrival, last) + 5.0 * settings.latency.most;
        reordered := reordered + 1;
      } else {
        arrival := Later(arrival, last + settings.latency.least);
        next := arrival;
      }
      packets := packets + [Packet(arrival, s.flow, s.data, sends, late)];
    }

    /** Schedules the copies of one datagram; only prompt ones move the flow's front. */
    method Carry(s: Sending, copies: seq<Copy>)
      requires copies != []
      modifies this`packets, this`front, this`reordered
      ensures State() == old(State()).CarriedAll(s, copies)
    {
      ghost var start, sofar := State(), front;
      var last := if s.flow in front then front[s.flow] else 0.0;
      var i := 0;
      while i < |copies|
        invariant i <= |copies| && front == start.front
        invariant FrontOf(sofar, s.flow) == last && (i > 0 ==> sofar == front[s.flow := last])
        invariant State().(front := sofar) == start.CarriedAll(s, copies[..i])
      {
        assert copies[..i + 1][..i] == copies[..i];
        last := CarryOne(s, copies[i], last, sofar);
        sofar := sofar[s.flow := last];
        assert sofar == front[s.flow := last];
        i := i + 1;
      }
      assert copies[..i] == copies;
      front := front[s.flow := last];
    }

    /** `_route_datagram`; the tape's draws are in `fate`. */
    method RouteDatagram(s: Sending, fate: Fate)
      modifies this
      ensures State() == old(State()).Routed(s, fate)
    {
      if s.flow.dest !in bound || (s.owner, bound[s.flow.dest]) in blocked {
        vanished := vanished + 1;
      } else if fate.lossRoll < settings.loss {
        dropped := dropped + 1;
      } else if fate.dupRoll < settings.dup {
        Carry(s, [fate.first, fate.second]);
        duplicated := duplicated + 1;
      } else {
        Carry(s, [fate.first]);
      }
      sends := sends + 1;
    }
  }

  // ---------------------------------------------------------------------------------------------
  // What every run keeps
  // ---------------------------------------------------------------------------------------------

  function FrontOf(front: map<Flow, Time>, flow: Flow): Time {
    if flow in front then front[flow] else 0.0
  }

  ghost predicate PromptAt(packets: seq<Packet>, i: nat, flow: Flow, t: Time) {
    i < |packets| && packets[i].flow == flow && !packets[i].late && packets[i].arrival == t
  }

  /** The front of a flow is the arrival of one of its prompt packets, and no other one is later. */
  ghost predicate FrontCovers(packets: seq<Packet>, front: map<Flow, Time>, p: Packet) {
    !p.late ==>
      && p.arrival <= FrontOf(front, p.flow)
      && exists i: nat :: PromptAt(packets, i, p.flow, FrontOf(front, p.flow))
  }

  ghost predicate FrontIsLast(packets: seq<Packet>, front: map<Flow, Time>) {
    forall p | p in packets :: FrontCovers(packets, front, p)
  }

  ghost predicate Numbered(packets: seq<Packet>, n: nat) {
    && (forall i | 0 <= i < |packets| :: packets[i].serial < n)
    && (forall i, j | 0 <= i < j < |packets| :: packets[i].serial <= packets[j].serial)
  }

  /** Every datagram sent is accounted for: it vanished, was dropped, or was scheduled, twice if it
      was duplicated. */
  ghost predicate Accounted(w: Wires) {
    |w.packets| + w.vanished + w.dropped == w.sends + w.duplicated
  }

  /** How many packets were held back on purpose. */
  function LateCount(packets: seq<Packet>): nat {
    if packets == [] then 0 else LateCount(packets[..|packets| - 1]) + if packets[|packets| - 1].late then 1 else 0
  }

  /** What holds of the scheduled packets when `n` datagrams have been sent. */
  ghost predicate Airborne(packets: seq<Packet>, front: map<Flow, Time>, reordered: nat, n: nat) {
    FrontIsLast(packets, front) && Numbered(packets, n) && reordered == LateCount(packets)
  }

  ghost predicate Inv(w: Wires) {
    w.settings.latency.Valid() && Airborne(w.packets, w.front, w.reordered, w.sends) && Accounted(w)
  }

  lemma DrawnInRange(link: Latency, step: nat)
    requires link.Valid() && step < DELAY_STEPS
    ensures link.least <= link.Drawn(step) <= link.most
    ensures link.Drawn(0) == link.least && link.Drawn(DELAY_STEPS - 1) == link.most
  {
    var part := step as real / (DELAY_STEPS - 1) as real;
    assert 0.0 <= part <= 1.0;
    assert (link.most - link.least) * part <= link.most - link.least;
  }

  /** One more packet at the end: a prompt one becomes the front, a late one leaves it. */
  lemma PacketAdded(packets: seq<Packet>, front: map<Flow, Time>, p: Packet, t: Time)
    requires FrontIsLast(packets, front)
    requires if p.late then t == FrontOf(front, p.flow) else t == p.arrival >= FrontOf(front, p.flow)
    ensures FrontIsLast(packets + [p], front[p.flow := t])
  {
    var all := packets + [p];
    forall q | q in all ensures FrontCovers(all, front[p.flow := t], q) {
      assert q in packets || q == p;
      var last := FrontOf(front[p.flow := t], q.flow);
      if !q.late && q.flow == p.flow && !p.late {
        assert PromptAt(all, |packets|, q.flow, last);
        assert q in packets ==> FrontCovers(packets, front, q);
      } else if !q.late {
        assert FrontCovers(packets, front, q) && last == FrontOf(front, q.flow);
        var i: nat :| PromptAt(packets, i, q.flow, last);
        assert PromptAt(all, i, q.flow, last);
      }
    }
  }

  lemma CarriedKeeps(w: Wires, s: Sending, copy: Copy, n: nat)
    requires w.settings.latency.Valid() && Airborne(w.packets, w.front, w.reordered, n) && n <= w.sends + 1
    ensures
      var d := w.Carried(s, copy);
      Airborne(d.packets, d.front, d.reordered, w.sends + 1) && |d.packets| == |w.packets| + 1
  {
    var d := w.Carried(s, copy);
    var n := |w.packets|;
    assert d.packets[..n] == w.packets && d.packets == w.packets + [d.packets[n]];
    PacketAdded(w.packets, w.front, d.packets[n], d.Front(s.flow));
    assert d.front == w.front[s.flow := d.Front(s.flow)];
  }

  /** A datagram that gets through: one copy, or two. */
  lemma RoutedCopies(w: Wires, s: Sending, fate: Fate)
    requires w.Reaches(s) && fate.lossRoll >= w.settings.loss
    ensures
      var one := w.Carried(s, fate.first);
      w.Routed(s, fate) ==
        if fate.dupRoll < w.settings.dup then
          one.Carried(s, fate.second).(sends := w.sends + 1, duplicated := w.duplicated + 1)
        else one.(sends := w.sends + 1)
  {
    var one := [fate.first];
    assert one[..0] == [] && w.CarriedAll(s, []) == w;
    assert w.CarriedAll(s, one) == w.Carried(s, fate.first);
    assert [fate.first, fate.second][..1] == one;
    assert w.CarriedAll(s, [fate.first, fate.second]) == w.CarriedAll(s, one).Carried(s, fate.second);
  }

  lemma RoutedKeeps(w: Wires, s: Sending, fate: Fate)
    requires Inv(w)
    ensures Inv(w.Routed(s, fate))
  {
    if w.Reaches(s) && fate.lossRoll >= w.settings.loss {
      var one := w.Carried(s, fate.first);
      RoutedCopies(w, s, fate);
      CarriedKeeps(w, s, fate.first, w.sends);
      if fate.dupRoll < w.settings.dup {
        CarriedKeeps(one, s, fate.second, w.sends + 1);
      }
    } else {
      assert Airborne(w.packets, w.front, w.reordered, w.sends + 1);
    }
  }

  // ---------------------------------------------------------------------------------------------
  // When a flow stays in order
  // ---------------------------------------------------------------------------------------------

  /** Datagrams sent earlier arrive strictly earlier. */
  ghost predicate InOrder(packets: seq<Packet>, flow: Flow) {
    forall i, j | 0 <= i < |packets| && 0 <= j < |packets| && packets[i].flow == packets[j].flow == flow
                  && packets[i].serial < packets[j].serial ::
      packets[i].arrival < packets[j].arrival
  }

  ghost predicate NoneLate(packets: seq<Packet>, flow: Flow) {
    forall p | p in packets && p.flow == flow :: !p.late
  }

  /** Everything sent before the `n`-th datagram arrives before `t`. */
  ghost predicate OlderBefore(packets: seq<Packet>, flow: Flow, n: nat, t: Time) {
    forall p | p in packets && p.flow == flow && p.serial < n :: p.arrival < t
  }

  lemma PacketInOrder(packets: seq<Packet>, p: Packet)
    requires Numbered(packets, p.serial + 1) && !p.late
    requires InOrder(packets, p.flow) && NoneLate(packets, p.flow)
    requires OlderBefore(packets, p.flow, p.serial, p.arrival)
    ensures InOrder(packets + [p], p.flow) && NoneLate(packets + [p], p.flow)
    ensures OlderBefore(packets + [p], p.flow, p.serial, p.arrival) && Numbered(packets + [p], p.serial + 1)
  {
    assert forall i | 0 <= i < |packets| :: packets[i] in packets;
  }

  /** The guard of an orderly send: nothing gets through, the flow is new, the configured minimum
      latency is positive, or the link is slow enough for the flow's front. */
  ghost predicate KeepsOrder(w: Wires, s: Sending) {
    || !w.Reaches(s) || w.settings.loss >= 100
    || (forall p | p in w.packets :: p.flow != s.flow)
    || w.settings.latency.least > 0.0
    || s.now + s.link.least > w.Front(s.flow)
  }

  /** Under the guard, a send that gets through arrives after all that was sent before it. */
  lemma GuardedIsLater(w: Wires, s: Sending, copy: Copy)
    requires Inv(w) && w.settings.reorder == 0 && s.link.Valid() && copy.Valid()
    requires NoneLate(w.packets, s.flow) && KeepsOrder(w, s) && w.Reaches(s) && w.settings.loss < 100
    ensures OlderBefore(w.packets, s.flow, w.sends, w.Carried(s, copy).Front(s.flow))
  {
    DrawnInRange(s.link, copy.step);
    forall p | p in w.packets && p.flow == s.flow ensures p.arrival < w.Carried(s, copy).Front(s.flow) {
      assert FrontCovers(w.packets, w.front, p);
    }
  }

  lemma OrderlySend(w: Wires, s: Sending, fate: Fate)
    requires Inv(w) && w.settings.reorder == 0 && s.link.Valid() && fate.Valid()
    requires InOrder(w.packets, s.flow) && NoneLate(w.packets, s.flow) && KeepsOrder(w, s)
    ensures InOrder(w.Routed(s, fate).packets, s.flow) && NoneLate(w.Routed(s, fate).packets, s.flow)
  {
    if w.Reaches(s) && fate.lossRoll >= w.settings.loss {
      RoutedCopies(w, s, fate);
      var one := w.Carried(s, fate.first);
      var p := one.packets[|w.packets|];
      GuardedIsLater(w, s, fate.first);
      PacketInOrder(w.packets, p);
      assert one.packets == w.packets + [p] && one.Front(s.flow) == p.arrival;
      var two := one.Carried(s, fate.second);
      var q := two.packets[|one.packets|];
      PacketInOrder(one.packets, q);
      assert two.packets == one.packets + [q];
    }
  }

  lemma TieIsDisorder(packets: seq<Packet>, j: nat, p: Packet, all: seq<Packet>)
    requires packets + [p] <= all && j < |packets|
    requires packets[j].flow == p.flow && packets[j].serial < p.serial && packets[j].arrival == p.arrival
    ensures !InOrder(all, p.flow)
  {
    assert all[j] == (packets + [p])[j] && all[|packets|] == (packets + [p])[|packets|];
  }

  /** A tie: the datagram may arrive at the very instant of the flow's front. */
  lemma TiedSend(w: Wires, s: Sending) returns (fate: Fate)
    requires Inv(w) && w.settings.reorder == 0 && s.link.Valid() && NoneLate(w.packets, s.flow) && !KeepsOrder(w, s)
    ensures fate.Valid() && !InOrder(w.Routed(s, fate).packets, s.flow)
  {
    fate := Fate(99, 99, Copy(0, 0), Copy(0, 0));
    DrawnInRange(s.link, 0);
    RoutedCopies(w, s, fate);
    var p :| p in w.packets && p.flow == s.flow;
    assert FrontCovers(w.packets, w.front, p);
    var j: nat :| PromptAt(w.packets, j, s.flow, w.Front(s.flow));
    TieIsDisorder(w.packets, j, w.Carried(s, fate.first).packets[|w.packets|], w.Routed(s, fate).packets);
  }

  /** Without the reordering fault, a send keeps its flow in order whatever the tape decides, if and
      only if the guard holds. The configured minimum latency may be zero, and then two datagrams of one
      flow can be due at the same instant, where the scheduler may swap them. */
  lemma OrderIsKeptExactly(w: Wires, s: Sending)
    requires Inv(w) && w.settings.reorder == 0 && s.link.Valid()
    requires InOrder(w.packets, s.flow) && NoneLate(w.packets, s.flow)
    ensures (forall fate: Fate | fate.Valid() :: InOrder(w.Routed(s, fate).packets, s.flow)) <==> KeepsOrder(w, s)
  {
    if KeepsOrder(w, s) {
      forall fate: Fate | fate.Valid() ensures InOrder(w.Routed(s, fate).packets, s.flow) {
        OrderlySend(w, s, fate);
      }
    } else {
      var fate := TiedSend(w, s);
    }
  }

  // --- the reordering fault ---

  /** Whatever their delays, a datagram held back on purpose is overtaken by the next prompt one of its
      flow, if and only if five maximum latencies outweigh the slowest the link may be. */
  lemma HeldBackIsOvertaken(w: Wires, s: Sending, next: Sending)
    requires 0 < w.settings.reorder < 100 && s.link.Valid()
    requires next.flow == s.flow && next.link == s.link
    ensures
      (forall slow: Copy, prompt: Copy | slow.Valid() && prompt.Valid()
         && slow.reorderRoll < w.settings.reorder <= prompt.reorderRoll :: Overtakes(w, s, slow, next, prompt))
      <==>
      Later(next.now + s.link.most, w.Front(s.flow) + w.settings.latency.least)
        < Later(s.now + s.link.least, w.Front(s.flow)) + 5.0 * w.settings.latency.most
  {
    forall slow: Copy, prompt: Copy | slow.Valid() && prompt.Valid()
      && slow.reorderRoll < w.settings.reorder <= prompt.reorderRoll
      ensures
        Overtakes(w, s, slow, next, prompt) <==>
        Later(next.now + s.link.Drawn(prompt.step), w.Front(s.flow) + w.settings.latency.least)
          < Later(s.now + s.link.Drawn(slow.step), w.Front(s.flow)) + 5.0 * w.settings.latency.most
      ensures s.link.least <= s.link.Drawn(slow.step) && s.link.Drawn(prompt.step) <= s.link.most
    {
      DrawnInRange(s.link, slow.step);
      DrawnInRange(s.link, prompt.step);
    }
    DrawnInRange(s.link, 0);
    var slow, prompt := Copy(0, 0), Copy(DELAY_STEPS - 1, 99);
    assert slow.Valid() && prompt.Valid();
  }

  /** On a link slower than the default latency it is not: held back to 0.1 seconds, the datagram still arrives
      before the next prompt one, which takes a second. */
  lemma HeldBackStaysAhead(w: Wires, flow: Flow, owner: Host, data: Bytes)
    requires w.settings == DEFAULT.(reorder := 50) && w.Front(flow) == 0.0
    ensures
      var s := Sending(flow, owner, data, 0.0, Latency(0.0, 1.0));
      var slow, prompt := Copy(0, 0), Copy(DELAY_STEPS - 1, 99);
      slow.Valid() && prompt.Valid() && !Overtakes(w, s, slow, s, prompt)
  {
    DrawnInRange(Latency(0.0, 1.0), 0);
  }

  /** The copy of `next` arrives before the held back copy of `s`, sent just before it. */
  predicate Overtakes(w: Wires, s: Sending, slow: Copy, next: Sending, prompt: Copy) {
    var held := w.Carried(s, slow);
    var passed := held.(sends := w.sends + 1).Carried(next, prompt);
    passed.packets[|w.packets| + 1].arrival < passed.packets[|w.packets|].arrival
  }

  // ---------------------------------------------------------------------------------------------
  // Whole runs, and the order of delivery
  // ---------------------------------------------------------------------------------------------

  datatype Op =
    | Send(sending: Sending, fate: Fate)
    | Configure(settings: Settings)
    | Rewire(bound: map<Address, Host>, blocked: set<(Host, Host)>)

  predicate Allowed(op: Op) {
    match op
    case Send(s, fate) => s.link.Valid() && fate.Valid()
    case Configure(settings) => settings.latency.Valid()
    case Rewire(_, _) => true
  }

  function Apply(w: Wires, op: Op): Wires {
    match op
    case Send(s, fate) => w.Routed(s, fate)
    case Configure(settings) => w.(settings := settings)
    case Rewire(bound, blocked) => w.(bound := bound, blocked := blocked)
  }

  function After(ops: seq<Op>): Wires {
    if ops == [] then QUIET else Apply(After(ops[..|ops| - 1]), ops[|ops| - 1])
  }

  lemma OneMore(ops: seq<Op>, op: Op)
    ensures After(ops + [op]) == Apply(After(ops), op)
  {
    assert (ops + [op])[..|ops|] == ops;
  }

  lemma {:induction false} RunKeepsInv(ops: seq<Op>)
    requires forall op | op in ops :: Allowed(op)
    ensures Inv(After(ops))
  {
    if ops != [] {
      var last := |ops| - 1;
      RunKeepsInv(ops[..last]);
      assert Allowed(ops[last]);
      if ops[last].Send? {
        RoutedKeeps(After(ops[..last]), ops[last].sending, ops[last].fate);
      }
    }
  }

  /** No reordering fault, and a minimum latency above zero. */
  predicate Calm(settings: Settings) {
    settings.latency.Valid() && settings.latency.least > 0.0 && settings.reorder == 0
  }

  predicate StaysCalm(op: Op) {
    Allowed(op) && (op.Configure? ==> Calm(op.settings))
  }

  lemma OtherFlowsStay(w: Wires, s: Sending, fate: Fate, flow: Flow)
    requires flow != s.flow && InOrder(w.packets, flow) && NoneLate(w.packets, flow)
    ensures InOrder(w.Routed(s, fate).packets, flow) && NoneLate(w.Routed(s, fate).packets, flow)
  {
    if w.Reaches(s) && fate.lossRoll >= w.settings.loss {
      RoutedCopies(w, s, fate);
    }
  }

  /** By default flows are in order: losses and duplicates notwithstanding, as long as the minimum
      latency stays positive and no datagram is held back on purpose. */
  lemma {:induction false} CalmFlowsInOrder(ops: seq<Op>, flow: Flow)
    requires forall op | op in ops :: StaysCalm(op)
    ensures Calm(After(ops).settings) && InOrder(After(ops).packets, flow) && NoneLate(After(ops).packets, flow)
  {
    if ops != [] {
      var last := |ops| - 1;
      var w := After(ops[..last]);
      CalmFlowsInOrder(ops[..last], flow);
      RunKeepsInv(ops[..last]);
      assert StaysCalm(ops[last]);
      if ops[last].Send? {
        if ops[last].sending.flow == flow {
          OrderlySend(w, ops[last].sending, ops[last].fate);
        } else {
          OtherFlowsStay(w, ops[last].sending, ops[last].fate, flow);
        }
      }
    }
  }

  /** An order in which the event loop may run deliveries: each at most once, by time, ties in any order. */
  ghost predicate MayDeliver(packets: seq<Packet>, order: seq<nat>) {
    && (forall i | 0 <= i < |order| :: order[i] < |packets|)
    && (forall i, j | 0 <= i < j < |order| :: order[i] != order[j])
    && (forall i, j | 0 <= i < j < |order| && order[i] < |packets| && order[j] < |packets| ::
          packets[order[i]].arrival <= packets[order[j]].arrival)
  }

  /** Of two datagrams of one flow, the one delivered first was sent first. */
  ghost predicate DeliversInOrder(packets: seq<Packet>, order: seq<nat>, flow: Flow)
    requires MayDeliver(packets, order)
  {
    forall i, j | 0 <= i < j < |order| && packets[order[i]].flow == packets[order[j]].flow == flow ::
      packets[order[i]].serial <= packets[order[j]].serial
  }

  lemma CalmFlowsDeliverInOrder(ops: seq<Op>, flow: Flow, order: seq<nat>)
    requires forall op | op in ops :: StaysCalm(op)
    requires MayDeliver(After(ops).packets, order)
    ensures DeliversInOrder(After(ops).packets, order, flow)
  {
    CalmFlowsInOrder(ops, flow);
  }

  /** No fault at all: calm, and neither loss nor duplication. */
  predicate Clean(settings: Settings) {
    Calm(settings) && settings.loss == 0 && settings.dup == 0
  }

  ghost predicate StaysClean(ops: seq<Op>, i: nat)
    requires i < |ops|
  {
    && Allowed(ops[i])
    && (ops[i].Configure? ==> Clean(ops[i].settings))
    && (ops[i].Send? ==> After(ops[..i]).Reaches(ops[i].sending))
  }

  /** The calls of `sendto`, in order. */
  function Sent(ops: seq<Op>): seq<Sending> {
    if ops == [] then [] else
    Sent(ops[..|ops| - 1]) + if ops[|ops| - 1].Send? then [ops[|ops| - 1].sending] else []
  }

  /** Exactly once: on a clean network where every destination is bound and not cut off, there is one
      delivery for each datagram sent, with its contents. */
  lemma {:induction false} CleanIsExactlyOnce(ops: seq<Op>)
    requires forall i | 0 <= i < |ops| :: StaysClean(ops, i)
    ensures
      var w := After(ops);
      && Clean(w.settings) && w.sends == |w.packets| == |Sent(ops)|
      && forall i | 0 <= i < |w.packets| ::
           w.packets[i].serial == i && w.packets[i].flow == Sent(ops)[i].flow && w.packets[i].data == Sent(ops)[i].data
  {
    if ops != [] {
      var last := |ops| - 1;
      forall i | 0 <= i < last ensures StaysClean(ops[..last], i) {
        assert StaysClean(ops, i) && ops[..last][..i] == ops[..i];
      }
      CleanIsExactlyOnce(ops[..last]);
      assert StaysClean(ops, last);
      if ops[last].Send? {
        RoutedCopies(After(ops[..last]), ops[last].sending, ops[last].fate);
      }
    }
  }

  // --- the exception ---

  const SOURCE: Address := ("10.0.0.99", 40000)
  const SINK: Address := ("10.0.0.1", 9000)

  const INSTANT := Settings(Latency(0.0, 0.0), 0, 0, 0)
  const UNDELAYED := Fate(0, 0, Copy(0, 0), Copy(0, 0))

  function Undelayed(data: Bytes): Sending {
    Sending(Flow(SOURCE, SINK), "", data, 0.0, INSTANT.latency)
  }

  lemma InstantArrival(w: Wires, data: Bytes)
    requires w.settings == INSTANT && w.Reaches(Undelayed(data)) && w.Front(Flow(SOURCE, SINK)) == 0.0
    ensures
      var d := w.Routed(Undelayed(data), UNDELAYED);
      && d.packets == w.packets + [Packet(0.0, Flow(SOURCE, SINK), data, w.sends, false)]
      && d.sends == w.sends + 1 && d.Front(Flow(SOURCE, SINK)) == 0.0
  {
    RoutedCopies(w, Undelayed(data), UNDELAYED);
    DrawnInRange(INSTANT.latency, 0);
  }

  const WIRED: seq<Op> := [Rewire(map[SINK := ""], {}), Configure(INSTANT)]

  lemma Wired()
    ensures After(WIRED) == QUIET.(bound := map[SINK := ""], settings := INSTANT)
  {
    OneMore([], WIRED[0]);
    OneMore([WIRED[0]], WIRED[1]);
    assert [] + [WIRED[0]] == [WIRED[0]] && [WIRED[0]] + [WIRED[1]] == WIRED;
  }

  /** Both datagrams are due at once. */
  lemma BothDue(a: Bytes, b: Bytes)
    ensures
      After(WIRED + [Send(Undelayed(a), UNDELAYED)] + [Send(Undelayed(b), UNDELAYED)]).packets
      == [Packet(0.0, Flow(SOURCE, SINK), a, 0, false), Packet(0.0, Flow(SOURCE, SINK), b, 1, false)]
  {
    var first, second := Send(Undelayed(a), UNDELAYED), Send(Undelayed(b), UNDELAYED);
    Wired();
    InstantArrival(After(WIRED), a);
    OneMore(WIRED, first);
    InstantArrival(After(WIRED + [first]), b);
    OneMore(WIRED + [first], second);
  }

  /** After `set_latency(0, 0)`, which is accepted, a flow without any fault may be delivered out of
      order, although the documentation promises order by default. */
  lemma ZeroLatencyReorders(a: Bytes, b: Bytes) returns (ops: seq<Op>, order: seq<nat>)
    ensures ops == WIRED + [Send(Undelayed(a), UNDELAYED)] + [Send(Undelayed(b), UNDELAYED)]
    ensures MayDeliver(After(ops).packets, order) && |order| == 2 == |After(ops).packets|
    ensures !DeliversInOrder(After(ops).packets, order, Flow(SOURCE, SINK))
  {
    ops := WIRED + [Send(Undelayed(a), UNDELAYED)] + [Send(Undelayed(b), UNDELAYED)];
    order := [1, 0];
    BothDue(a, b);
    var packets := After(ops).packets;
    assert packets[order[0]].serial > packets[order[1]].serial;
  }
}
