/** Order in the event loop (src/simloom/_loop.py:293-312, 314-318, 354-361, 563-576): timers of one
    instant fire in order of creation, and the ready list is a queue but for the scheduler's pick. */
module LoopOrder {
  import opened Clock
  import opened Loops
  import opened LoopLooks
  import opened LoopRuns

  // ---------------------------------------------------------------------------------------------
  // The heap
  // ---------------------------------------------------------------------------------------------

  /** By time, and at one time by creation. */
  ghost predicate Precedes(a: Timer, b: Timer) {
    a.when < b.when || (a.when == b.when && a.handle < b.handle)
  }

  ghost predicate InOrderOfCreation(heap: seq<Timer>) {
    forall i, j | 0 <= i < j < |heap| :: Precedes(heap[i], heap[j])
  }

  /** The timers created so far, in order. */
  ghost predicate OrderedHeap(s: LoopState) {
    InOrderOfCreation(s.scheduled) && forall t | t in s.scheduled :: t.handle < |s.handles|
  }

  /** A new timer goes behind those of its own time and before those of later times. */
  lemma {:induction false} InsertBehindEquals(heap: seq<Timer>, timer: Timer) returns (k: nat)
    requires InOrderOfCreation(heap)
    ensures k <= |heap| && Insert(heap, timer) == heap[..k] + [timer] + heap[k..]
    ensures forall i | 0 <= i < k :: heap[i].when <= timer.when
    ensures forall i | k <= i < |heap| :: timer.when < heap[i].when
  {
    if heap == [] || timer.when < heap[0].when {
      k := 0;
    } else {
      k := InsertBehindEquals(heap[1..], timer);
      assert heap == [heap[0]] + heap[1..];
      k := k + 1;
      assert forall i | k <= i < |heap| :: heap[i] == heap[1..][i - 1];
      assert forall i | 0 < i < k :: heap[i] == heap[1..][i - 1];
    }
  }

  lemma InsertKeepsOrder(heap: seq<Timer>, timer: Timer)
    requires InOrderOfCreation(heap) && forall t | t in heap :: t.handle < timer.handle
    ensures InOrderOfCreation(Insert(heap, timer))
    ensures forall t | t in Insert(heap, timer) :: t in heap || t == timer
  {
    var k := InsertBehindEquals(heap, timer);
    var after := heap[..k] + [timer] + heap[k..];
    forall i, j | 0 <= i < j < |after| ensures Precedes(after[i], after[j]) {
      assert i < k ==> after[i] == heap[i];
      assert i > k ==> after[i] == heap[i - 1];
      assert j < k ==> after[j] == heap[j];
      assert j > k ==> after[j] == heap[j - 1];
    }
  }

  lemma EffectKeepsOrder(s: LoopState, effect: Effect)
    requires OrderedHeap(s)
    ensures OrderedHeap(s.Affected(effect)) && s.handles <= s.Affected(effect).handles
  {
    if effect.CallAt? {
      InsertKeepsOrder(s.scheduled, Timer(effect.when, |s.handles|));
    }
  }

  lemma {:induction false} EffectsKeepOrder(s: LoopState, effects: seq<Effect>)
    requires OrderedHeap(s)
    ensures OrderedHeap(s.AffectedAll(effects)) && s.handles <= s.AffectedAll(effects).handles
  {
    if effects != [] {
      var last := |effects| - 1;
      EffectsKeepOrder(s, effects[..last]);
      EffectKeepsOrder(s.AffectedAll(effects[..last]), effects[last]);
    }
  }

  lemma {:induction false} DropTopKeepsOrder(s: LoopState)
    requires OrderedHeap(s)
    ensures OrderedHeap(s.DropTop())
    decreases |s.scheduled|
  {
    if s.scheduled != [] && s.scheduled[0].handle in s.cancelled {
      DropTopKeepsOrder(s.(scheduled := s.scheduled[1..], dropped := s.dropped + [s.scheduled[0].handle]));
    }
  }

  // ---------------------------------------------------------------------------------------------
  // The ready list
  // ---------------------------------------------------------------------------------------------

  function Filter(p: HandleId -> bool, hs: seq<HandleId>): seq<HandleId> {
    if hs == [] then [] else (if p(hs[0]) then [hs[0]] else []) + Filter(p, hs[1..])
  }

  lemma {:induction false} FilterMore(p: HandleId -> bool, hs: seq<HandleId>, h: HandleId)
    ensures Filter(p, hs + [h]) == if p(h) then Filter(p, hs) + [h] else Filter(p, hs)
  {
    var longer := hs + [h];
    if hs == [] {
      assert longer == [h] && longer[1..] == [];
    } else {
      FilterMore(p, hs[1..], h);
      assert longer[0] == hs[0] && longer[1..] == hs[1..] + [h];
      var first := if p(hs[0]) then [hs[0]] else [];
      assert first + (Filter(p, hs[1..]) + [h]) == (first + Filter(p, hs[1..])) + [h];
    }
  }

  /** The handles that may run, those of crashed tasks, and those cancelled: each in their order. */
  function Kept(s: LoopState, hs: seq<HandleId>): seq<HandleId> {
    Filter((h: HandleId) => h !in s.cancelled && !s.CrashedOwned(h), hs)
  }

  function Parked(s: LoopState, hs: seq<HandleId>): seq<HandleId> {
    Filter((h: HandleId) => h !in s.cancelled && s.CrashedOwned(h), hs)
  }

  function Cancelled(s: LoopState, hs: seq<HandleId>): seq<HandleId> {
    Filter((h: HandleId) => h in s.cancelled, hs)
  }

  /** The places of a loop after these handles were dealt with. */
  ghost predicate Dealt(s: LoopState, d: LoopState, hs: seq<HandleId>) {
    && d.ready == s.ready + Kept(s, hs)
    && d.parked == s.parked + Parked(s, hs)
    && d.dropped == s.dropped + Cancelled(s, hs)
  }

  lemma DealtMore(s: LoopState, d: LoopState, hs: seq<HandleId>, h: HandleId)
    requires Dealt(s, d, hs) && d.cancelled == s.cancelled && d.crashed == s.crashed && d.handles == s.handles
    ensures Dealt(s, d.Sift(h), hs + [h])
  {
    assert d.CrashedOwned(h) <==> s.CrashedOwned(h);
    assert s.ready + (Kept(s, hs) + [h]) == d.ready + [h];
    assert s.parked + (Parked(s, hs) + [h]) == d.parked + [h];
    assert s.dropped + (Cancelled(s, hs) + [h]) == d.dropped + [h];
    FilterMore((h: HandleId) => h !in s.cancelled && !s.CrashedOwned(h), hs, h);
    FilterMore((h: HandleId) => h !in s.cancelled && s.CrashedOwned(h), hs, h);
    FilterMore((h: HandleId) => h in s.cancelled, hs, h);
  }

  lemma {:induction false} SiftAllDeals(s: LoopState, hs: seq<HandleId>)
    ensures Dealt(s, s.SiftAll(hs), hs)
    ensures s.SiftAll(hs) ==
      s.(ready := s.SiftAll(hs).ready, parked := s.SiftAll(hs).parked, dropped := s.SiftAll(hs).dropped)
  {
    if hs != [] {
      var last := |hs| - 1;
      SiftAllDeals(s, hs[..last]);
      DealtMore(s, s.SiftAll(hs[..last]), hs[..last], hs[last]);
      assert hs[..last] + [hs[last]] == hs;
    }
  }

  /** Compaction keeps what may run in its order, and parks and drops the rest in theirs. */
  lemma CompactionKeepsOrder(s: LoopState)
    ensures Dealt(s.(ready := []), s.Compacted(), s.ready)
    ensures OrderedHeap(s) ==> OrderedHeap(s.Compacted())
  {
    SiftAllDeals(s.(ready := []), s.ready);
  }

  // --- timers that are due ---

  /** How many timers at the top of the heap are due. */
  function DueCount(heap: seq<Timer>, now: Time): (n: nat)
    ensures n <= |heap|
    ensures forall i | 0 <= i < n :: heap[i].when <= now
    ensures n < |heap| ==> heap[n].when > now
  {
    if heap != [] && heap[0].when <= now then 1 + DueCount(heap[1..], now) else 0
  }

  function HandlesOf(timers: seq<Timer>): (hs: seq<HandleId>)
    ensures |hs| == |timers| && forall i | 0 <= i < |hs| :: hs[i] == timers[i].handle
  {
    seq(|timers|, i requires 0 <= i < |timers| => timers[i].handle)
  }

  lemma DealtFirst(s: LoopState, d: LoopState, h: HandleId, hs: seq<HandleId>)
    requires Dealt(s.Sift(h), d, hs)
    ensures Dealt(s, d, [h] + hs)
  {
    assert ([h] + hs)[1..] == hs;
    SameFilters(s, s.Sift(h), hs);
  }

  lemma {:induction false} SameFilters(s: LoopState, t: LoopState, hs: seq<HandleId>)
    requires t.cancelled == s.cancelled && t.crashed == s.crashed && t.handles == s.handles
    ensures Kept(s, hs) == Kept(t, hs) && Parked(s, hs) == Parked(t, hs) && Cancelled(s, hs) == Cancelled(t, hs)
  {
    if hs != [] {
      SameFilters(s, t, hs[1..]);
    }
  }

  /** The due timers are dealt with in the order of the heap, and the others stay there. */
  lemma {:induction false} ReleaseKeepsOrder(s: LoopState)
    ensures
      var d, n := s.Released(), DueCount(s.scheduled, s.now);
      && Dealt(s, d, HandlesOf(s.scheduled[..n])) && d.scheduled == s.scheduled[n..]
      && d.handles == s.handles && d.now == s.now
    decreases |s.scheduled|
  {
    var n := DueCount(s.scheduled, s.now);
    if n > 0 {
      var rest := s.scheduled[1..];
      var popped := s.(scheduled := rest);
      var h := s.scheduled[0].handle;
      ReleaseKeepsOrder(popped.Sift(h));
      DealtFirst(popped, s.Released(), h, HandlesOf(rest[..n - 1]));
      assert HandlesOf(s.scheduled[..n]) == [h] + HandlesOf(rest[..n - 1]);
      SameFilters(s, popped, HandlesOf(s.scheduled[..n]));
    } else {
      assert HandlesOf(s.scheduled[..0]) == [];
    }
  }

  // ---------------------------------------------------------------------------------------------
  // Turns and runs
  // ---------------------------------------------------------------------------------------------

  /** Handles created from `from` on, in order of creation. */
  ghost predicate NewInOrder(hs: seq<HandleId>, from: nat, to: nat) {
    && (forall h | h in hs :: from <= h < to)
    && forall i, j | 0 <= i < j < |hs| :: hs[i] < hs[j]
  }

  /** What callbacks queue goes to the end of the ready list, in order of creation. */
  lemma {:induction false} EffectsQueue(s: LoopState, effects: seq<Effect>) returns (queued: seq<HandleId>)
    ensures s.AffectedAll(effects).ready == s.ready + queued
    ensures NewInOrder(queued, |s.handles|, |s.AffectedAll(effects).handles|)
    ensures |s.handles| <= |s.AffectedAll(effects).handles|
  {
    if effects == [] {
      queued := [];
      assert s.ready + queued == s.ready;
    } else {
      var last := |effects| - 1;
      queued := EffectsQueue(s, effects[..last]);
      var before := s.AffectedAll(effects[..last]);
      assert forall i | 0 <= i < |queued| :: queued[i] in queued;
      if effects[last].CallSoon? {
        assert (s.ready + queued) + [|before.handles|] == s.ready + (queued + [|before.handles|]);
        queued := queued + [|before.handles|];
      }
    }
  }

  /** The ready list of `d` is that of `s` without the handle the scheduler picked, and behind it what
      was queued meanwhile. */
  ghost predicate PickedAndQueued(s: LoopState, d: LoopState, pick: nat, queued: seq<HandleId>) {
    && s.ready != [] && NewInOrder(queued, |s.handles|, |d.handles|)
    && var index := pick % |s.ready|;
       d.ready == s.ready[..index] + s.ready[index + 1..] + queued
  }

  lemma SteppedQueues(s: LoopState, choice: Choice, max: nat) returns (queued: seq<HandleId>)
    requires s.ready != [] && OrderedHeap(s)
    ensures var d := s.Stepped(choice, max).0; OrderedHeap(d) && PickedAndQueued(s, d, choice.pick, queued)
  {
    var index := choice.pick % |s.ready|;
    var counted := s.(ready := s.ready[..index] + s.ready[index + 1..]).Counted();
    queued := [];
    if !s.Stepped(choice, max).1.Livelock? {
      var started := counted.(ran := s.ran + [Step(s.ready[index], s.now)]);
      queued := EffectsQueue(started, choice.effects);
      EffectsKeepOrder(started, choice.effects);
    }
  }

  /** What the scheduler picks from at `t`: the ready list as it stood, then the timers due by then in
      order, both without cancelled work and work of crashed tasks. */
  ghost function Candidates(s: LoopState, t: Time): seq<HandleId> {
    var heap := s.DropTop().scheduled;
    Kept(s, s.ready) + DueHandles(s, heap, t)
  }

  /** The turn called back the candidate the scheduler picked; the other candidates are ready, in their
      order, and behind them what the callback queued. */
  ghost predicate Queues(
    s: LoopState, d: LoopState, candidates: seq<HandleId>, pick: nat, queued: seq<HandleId>)
  {
    && candidates != [] && NewInOrder(queued, |s.handles|, |d.handles|)
    && var index := pick % |candidates|;
       && d.ran == s.ran + [Step(candidates[index], d.now)]
       && d.ready == candidates[..index] + candidates[index + 1..] + queued
  }

  ghost function DueHandles(s: LoopState, heap: seq<Timer>, t: Time): seq<HandleId> {
    Kept(s, HandlesOf(heap[..DueCount(heap, t)]))
  }

  lemma ReleasedOrdered(s: LoopState)
    requires OrderedHeap(s)
    ensures OrderedHeap(s.Released())
  {
    ReleaseKeepsOrder(s);
    assert forall t | t in s.Released().scheduled :: t in s.scheduled;
  }

  lemma DispatchedQueues(s: LoopState, choice: Choice, max: nat) returns (queued: seq<HandleId>)
    requires OrderedHeap(s)
    ensures
      var d := s.Dispatched(choice, max).0;
      && OrderedHeap(d) && d.now == s.now
      && (d.ran != s.ran ==> Queues(s, d, s.ready + DueHandles(s, s.scheduled, s.now), choice.pick, queued))
  {
    var r := s.Released();
    ReleasedOrdered(s);
    ReleaseKeepsOrder(s);
    ReleasingRunsNothing(s);
    queued := [];
    if r.ready != [] {
      queued := SteppedQueues(r, choice, max);
      CalledBackRegisters(r, choice);
    }
  }

  /** What a turn starts from: the kept work in its order, and the heap. */
  ghost predicate Cleaned(s: LoopState, c: LoopState) {
    && c.ready == Kept(s, s.ready) && c.scheduled == s.DropTop().scheduled
    && c.cancelled == s.cancelled && c.crashed == s.crashed && c.handles == s.handles && c.ran == s.ran
  }

  lemma CleanKeepsOrder(s: LoopState)
    requires OrderedHeap(s)
    ensures Cleaned(s, s.DropTop().Compacted()) && OrderedHeap(s.DropTop().Compacted())
  {
    DropTopKeepsOrder(s);
    DroppingKeepsWork(s);
    var top := s.DropTop();
    SiftAllDeals(top.(ready := []), top.ready);
    SameFilters(s, top.(ready := []), s.ready);
  }

  lemma CleanedQueues(s: LoopState, c: LoopState, choice: Choice, max: nat) returns (queued: seq<HandleId>)
    requires Cleaned(s, c) && OrderedHeap(c)
    ensures
      var d := c.Dispatched(choice, max).0;
      OrderedHeap(d) && (d.ran != s.ran ==> Queues(s, d, Candidates(s, d.now), choice.pick, queued))
  {
    queued := DispatchedQueues(c, choice, max);
    SameFilters(s, c, HandlesOf(c.scheduled[..DueCount(c.scheduled, c.now)]));
  }

  /** Whatever the scheduler picks, a turn passes over no earlier work silently: what may run keeps its
      order, timers come up by time and then by creation, and new work goes to the end. */
  lemma TurnQueues(s: LoopState, choice: Choice, max: nat) returns (queued: seq<HandleId>)
    requires OrderedHeap(s)
    ensures
      var d := s.RunOnce(choice, max).0;
      OrderedHeap(d) && (d.ran != s.ran ==> Queues(s, d, Candidates(s, d.now), choice.pick, queued))
  {
    CleanKeepsOrder(s);
    var clean := s.DropTop().Compacted();
    queued := [];
    if clean.ready != [] {
      queued := CleanedQueues(s, clean, choice, max);
    } else if clean.scheduled != [] {
      var deadline, target := clean.monitors.NextDeadline(), clean.scheduled[0].when;
      if !(deadline.Some? && (deadline.value <= clean.now || deadline.value < target)) {
        queued := CleanedQueues(s, clean.(now := Later(target, clean.now)), choice, max);
      }
    }
  }

  lemma {:induction false} DroppingKeepsWork(s: LoopState)
    ensures
      var d := s.DropTop();
      d == s.(scheduled := d.scheduled, dropped := d.dropped)
    decreases |s.scheduled|
  {
    if s.scheduled != [] && s.scheduled[0].handle in s.cancelled {
      DroppingKeepsWork(s.(scheduled := s.scheduled[1..], dropped := s.dropped + [s.scheduled[0].handle]));
    }
  }

  /** In every state of every run the heap is in order of time and creation, so each turn that calls a
      handle back is as said. */
  lemma {:induction false} RunsKeepOrder(u: Universe, choices: seq<Choice>, max: nat)
    ensures OrderedHeap(After(u, choices, max).0)
  {
    if choices == [] {
      EffectsKeepOrder(Fresh(u.epoch), u.setup);
    } else {
      var last := |choices| - 1;
      RunsKeepOrder(u, choices[..last], max);
      var (s, outcome) := After(u, choices[..last], max);
      if Continues(outcome) {
        var queued := TurnQueues(s, choices[last], max);
      }
    }
  }
}
