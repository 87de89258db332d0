/** What every step of the event loop keeps (src/simloom/_loop.py:303-398): a handle is never lost and never
    doubled. It waits in the ready list or the heap, is parked with a crashed task, has run once, or was
    dropped as cancelled. */
module LoopInvariants {
  import opened Clock
  import opened Loops

  // ---------------------------------------------------------------------------------------------
  // Conservation: every handle is in exactly one place
  // ---------------------------------------------------------------------------------------------

  ghost function TimerUses(heap: seq<Timer>, h: HandleId): nat {
    if heap == [] then 0 else (if heap[0].handle == h then 1 else 0) + TimerUses(heap[1..], h)
  }

  ghost function RanUses(ran: seq<Step>, h: HandleId): nat {
    if ran == [] then 0 else RanUses(ran[..|ran| - 1], h) + (if ran[|ran| - 1].handle == h then 1 else 0)
  }

  ghost function Uses(hs: seq<HandleId>, h: HandleId): nat {
    multiset(hs)[h]
  }

  /** In how many places a handle is: ready, in the heap, parked, run, or dropped as cancelled. */
  ghost function Places(s: LoopState, h: HandleId): nat {
    Uses(s.ready, h) + TimerUses(s.scheduled, h) + Uses(s.parked, h) + RanUses(s.ran, h) + Uses(s.dropped, h)
  }

  ghost predicate Placed(s: LoopState) {
    forall h: HandleId :: Places(s, h) == if h < |s.handles| then 1 else 0
  }

  /** Only cancelled work was dropped, and only work of crashed tasks is parked. */
  ghost predicate Justified(s: LoopState) {
    && (forall h | h in s.dropped :: h in s.cancelled)
    && (forall h | h in s.parked :: s.CrashedOwned(h))
  }

  ghost predicate Conserved(s: LoopState) {
    Placed(s) && Justified(s)
  }

  lemma {:induction false} InsertUses(heap: seq<Timer>, timer: Timer, h: HandleId)
    ensures TimerUses(Insert(heap, timer), h) == TimerUses(heap, h) + if timer.handle == h then 1 else 0
  {
    if heap == [] || timer.when < heap[0].when {
      assert ([timer] + heap)[1..] == heap;
    } else {
      InsertUses(heap[1..], timer, h);
      assert ([heap[0]] + Insert(heap[1..], timer))[1..] == Insert(heap[1..], timer);
    }
  }

  lemma {:induction false} DropTopPlaces(s: LoopState, h: HandleId)
    ensures Places(s.DropTop(), h) == Places(s, h) && s.DropTop().handles == s.handles
    decreases |s.scheduled|
  {
    if s.scheduled != [] && s.scheduled[0].handle in s.cancelled {
      DropTopPlaces(s.(scheduled := s.scheduled[1..], dropped := s.dropped + [s.scheduled[0].handle]), h);
    }
  }

  lemma SiftPlaces(s: LoopState, x: HandleId, h: HandleId)
    ensures Places(s.Sift(x), h) == Places(s, h) + (if x == h then 1 else 0) && s.Sift(x).handles == s.handles
  {
  }

  lemma {:induction false} SiftAllPlaces(s: LoopState, hs: seq<HandleId>, h: HandleId)
    ensures Places(s.SiftAll(hs), h) == Places(s, h) + Uses(hs, h) && s.SiftAll(hs).handles == s.handles
  {
    if hs == [] {
    } else {
      var last := |hs| - 1;
      SiftAllPlaces(s, hs[..last], h);
      SiftPlaces(s.SiftAll(hs[..last]), hs[last], h);
      assert hs == hs[..last] + [hs[last]];
    }
  }

  lemma CompactedPlaces(s: LoopState, h: HandleId)
    ensures Places(s.Compacted(), h) == Places(s, h) && s.Compacted().handles == s.handles
  {
    SiftAllPlaces(s.(ready := []), s.ready, h);
  }

  lemma {:induction false} ReleasedPlaces(s: LoopState, h: HandleId)
    ensures Places(s.Released(), h) == Places(s, h) && s.Released().handles == s.handles
    decreases |s.scheduled|
  {
    if s.scheduled != [] && s.scheduled[0].when <= s.now {
      var rest := s.(scheduled := s.scheduled[1..]);
      SiftPlaces(rest, s.scheduled[0].handle, h);
      ReleasedPlaces(rest.Sift(s.scheduled[0].handle), h);
    }
  }

  lemma AffectedKeepsPlaces(s: LoopState, effect: Effect)
    requires Placed(s)
    ensures Placed(s.Affected(effect))
  {
    forall h: HandleId
      ensures Places(s.Affected(effect), h) == if h < |s.Affected(effect).handles| then 1 else 0
    {
      assert Places(s, h) == if h < |s.handles| then 1 else 0;
      if effect.CallAt? {
        InsertUses(s.scheduled, Timer(effect.when, |s.handles|), h);
      }
    }
  }

  lemma {:induction false} AffectedAllKeepsPlaces(s: LoopState, effects: seq<Effect>)
    requires Placed(s)
    ensures Placed(s.AffectedAll(effects))
  {
    if effects == [] {
    } else {
      var last := |effects| - 1;
      AffectedAllKeepsPlaces(s, effects[..last]);
      AffectedKeepsPlaces(s.AffectedAll(effects[..last]), effects[last]);
    }
  }

  /** Moving the handle at `index` from the ready list to the history of steps. */
  lemma PickPlaces(s: LoopState, index: nat, h: HandleId)
    requires index < |s.ready|
    ensures
      Places(s.(ready := s.ready[..index] + s.ready[index + 1..], ran := s.ran + [Step(s.ready[index], s.now)]), h)
      == Places(s, h)
  {
    assert s.ready == s.ready[..index] + [s.ready[index]] + s.ready[index + 1..];
    assert (s.ran + [Step(s.ready[index], s.now)])[..|s.ran|] == s.ran;
  }

  lemma SamePlaces(s: LoopState, t: LoopState)
    requires Placed(s) && t.handles == s.handles
    requires forall h: HandleId :: Places(t, h) == Places(s, h)
    ensures Placed(t)
  {
  }

  lemma SteppedKeepsPlaces(s: LoopState, choice: Choice, max: nat)
    requires Placed(s) && s.ready != []
    ensures !s.Stepped(choice, max).1.Livelock? ==> Placed(s.Stepped(choice, max).0)
  {
    var index := choice.pick % |s.ready|;
    var counted := s.(ready := s.ready[..index] + s.ready[index + 1..]).Counted();
    if counted.instantSteps <= max {
      var stepped := counted.(ran := s.ran + [Step(s.ready[index], s.now)]);
      forall h: HandleId ensures Places(stepped, h) == Places(s, h) {
        PickPlaces(s, index, h);
      }
      SamePlaces(s, stepped);
      AffectedAllKeepsPlaces(stepped, choice.effects);
      SamePlaces(stepped.AffectedAll(choice.effects), s.Stepped(choice, max).0);
    }
  }

  lemma DispatchedKeepsPlaces(s: LoopState, choice: Choice, max: nat)
    requires Placed(s)
    ensures !s.Dispatched(choice, max).1.Livelock? ==> Placed(s.Dispatched(choice, max).0)
  {
    forall h: HandleId ensures Places(s.Released(), h) == Places(s, h) {
      ReleasedPlaces(s, h);
    }
    ReleasedPlaces(s, 0);
    SamePlaces(s, s.Released());
    if s.Released().ready != [] {
      SteppedKeepsPlaces(s.Released(), choice, max);
    }
  }

  lemma CleanKeepsPlaces(s: LoopState)
    requires Placed(s)
    ensures Placed(s.DropTop().Compacted())
  {
    forall h: HandleId ensures Places(s.DropTop().Compacted(), h) == Places(s, h) {
      DropTopPlaces(s, h);
      CompactedPlaces(s.DropTop(), h);
    }
    DropTopPlaces(s, 0);
    CompactedPlaces(s.DropTop(), 0);
    SamePlaces(s, s.DropTop().Compacted());
  }

  lemma WaitedKeepsPlaces(s: LoopState, choice: Choice, max: nat)
    requires Placed(s) && s.ready == []
    ensures !s.Waited(choice, max).1.Livelock? ==> Placed(s.Waited(choice, max).0)
  {
    if s.scheduled != [] {
      var deadline := s.monitors.NextDeadline();
      var target := s.scheduled[0].when;
      if deadline.Some? && (deadline.value <= s.now || deadline.value < target) {
        SamePlaces(s, s.Waited(choice, max).0);
      } else {
        var later := s.(now := Later(target, s.now));
        SamePlaces(s, later);
        DispatchedKeepsPlaces(later, choice, max);
      }
    }
  }

  // ---------------------------------------------------------------------------------------------
  // Nothing is dropped or parked without a reason
  // ---------------------------------------------------------------------------------------------

  lemma {:induction false} DropTopJustified(s: LoopState)
    requires Justified(s)
    ensures Justified(s.DropTop())
    decreases |s.scheduled|
  {
    if s.scheduled != [] && s.scheduled[0].handle in s.cancelled {
      DropTopJustified(s.(scheduled := s.scheduled[1..], dropped := s.dropped + [s.scheduled[0].handle]));
    }
  }

  lemma {:induction false} SiftAllJustified(s: LoopState, hs: seq<HandleId>)
    requires Justified(s)
    ensures Justified(s.SiftAll(hs))
  {
    if hs != [] {
      SiftAllJustified(s, hs[..|hs| - 1]);
    }
  }

  lemma {:induction false} ReleasedJustified(s: LoopState)
    requires Justified(s)
    ensures Justified(s.Released())
    decreases |s.scheduled|
  {
    if s.scheduled != [] && s.scheduled[0].when <= s.now {
      ReleasedJustified(s.(scheduled := s.scheduled[1..]).Sift(s.scheduled[0].handle));
    }
  }

  lemma {:induction false} AffectedAllJustified(s: LoopState, effects: seq<Effect>)
    requires Justified(s)
    ensures Justified(s.AffectedAll(effects))
  {
    if effects != [] {
      var before := s.AffectedAll(effects[..|effects| - 1]);
      AffectedAllJustified(s, effects[..|effects| - 1]);
      assert forall h: HandleId | before.CrashedOwned(h) :: before.Affected(effects[|effects| - 1]).CrashedOwned(h);
    }
  }

  lemma DispatchedJustified(s: LoopState, choice: Choice, max: nat)
    requires Justified(s)
    ensures Justified(s.Dispatched(choice, max).0)
  {
    ReleasedJustified(s);
    var r := s.Released();
    if r.ready != [] {
      var index := choice.pick % |r.ready|;
      var counted := r.(ready := r.ready[..index] + r.ready[index + 1..]).Counted();
      assert Justified(counted);
      AffectedAllJustified(counted.(ran := r.ran + [Step(r.ready[index], r.now)]), choice.effects);
    }
  }

  /** On every exit, livelock included, what was dropped was cancelled and what is parked is a crashed task's. */
  lemma RunOnceJustified(s: LoopState, choice: Choice, max: nat)
    requires Justified(s)
    ensures Justified(s.RunOnce(choice, max).0)
  {
    DropTopJustified(s);
    SiftAllJustified(s.DropTop().(ready := []), s.DropTop().ready);
    var clean := s.DropTop().Compacted();
    assert Justified(clean);
    if clean.ready != [] {
      DispatchedJustified(clean, choice, max);
    } else if clean.scheduled != [] {
      DispatchedJustified(clean.(now := Later(clean.scheduled[0].when, clean.now)), choice, max);
    }
  }

  /** Handle conservation: on every exit except livelock, each handle ever scheduled is in exactly one
      place: ready, in the heap, parked with a crashed task, run once, or dropped as cancelled. */
  lemma RunOnceConserves(s: LoopState, choice: Choice, max: nat)
    requires Conserved(s)
    ensures Justified(s.RunOnce(choice, max).0)
    ensures !s.RunOnce(choice, max).1.Livelock? ==> Conserved(s.RunOnce(choice, max).0)
  {
    RunOnceJustified(s, choice, max);
    CleanKeepsPlaces(s);
    var clean := s.DropTop().Compacted();
    if clean.ready == [] {
      WaitedKeepsPlaces(clean, choice, max);
    } else {
      DispatchedKeepsPlaces(clean, choice, max);
    }
  }

  /** A handle that was neither run nor cancelled, and whose task has not crashed, waits its turn. */
  ghost predicate Waits(s: LoopState, h: HandleId) {
    h in s.ready || exists t :: t in s.scheduled && t.handle == h
  }

  lemma {:induction false} TimerWaits(heap: seq<Timer>, h: HandleId)
    requires TimerUses(heap, h) > 0
    ensures exists t :: t in heap && t.handle == h
  {
    if heap[0].handle == h {
      assert heap[0] in heap;
    } else {
      TimerWaits(heap[1..], h);
      var t :| t in heap[1..] && t.handle == h;
      assert t in heap;
    }
  }

  lemma LiveWorkWaits(s: LoopState, h: HandleId)
    requires Conserved(s) && h < |s.handles|
    ensures RanUses(s.ran, h) == 0 && h !in s.cancelled && !s.CrashedOwned(h) ==> Waits(s, h)
  {
    assert Places(s, h) == 1;
    if TimerUses(s.scheduled, h) > 0 {
      TimerWaits(s.scheduled, h);
    }
  }
}
