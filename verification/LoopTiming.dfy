/** The virtual clock of the event loop (src/simloom/_loop.py:314-398, 539-576): it never runs
    backwards or past work that is due, so everything runs exactly when it should. Ready work is due now, and
    a timer is due at its own time or at its creation. */
module LoopTiming {
  import opened Clock
  import opened Loops

  ghost predicate Sorted(heap: seq<Timer>) {
    forall i, j | 0 <= i < j < |heap| :: heap[i].when <= heap[j].when
  }

  ghost predicate TimerDue(s: LoopState, t: Timer) {
    && t.handle < |s.handles|
    && (t.handle !in s.cancelled ==> s.handles[t.handle].due == Later(t.when, s.now))
  }

  /** A handle that may run: not cancelled, and not parked with a crashed task. */
  ghost predicate Live(s: LoopState, h: HandleId) {
    h < |s.handles| && h !in s.cancelled && !s.CrashedOwned(h)
  }

  ghost predicate DueNow(s: LoopState, h: HandleId) {
    h < |s.handles| && (Live(s, h) ==> s.handles[h].due == s.now)
  }

  /** It ran at the instant it was due, and that instant has been reached. */
  ghost predicate RanWhenDue(s: LoopState, r: Step) {
    r.handle < |s.handles| && s.handles[r.handle].due == r.time && r.time <= s.now
  }

  ghost predicate InOrder(ran: seq<Step>) {
    forall i, j | 0 <= i < j < |ran| :: ran[i].time <= ran[j].time
  }

  /** Timers still in the heap are due at their own time, or now if that is past; ready work is due
      now; and everything that ran, ran exactly when it was due. */
  ghost predicate Punctual(s: LoopState) {
    && Sorted(s.scheduled)
    && (forall t | t in s.scheduled :: TimerDue(s, t))
    && (forall h | h in s.ready :: DueNow(s, h))
    && (forall r | r in s.ran :: RanWhenDue(s, r))
    && InOrder(s.ran)
  }

  ghost predicate AllLive(s: LoopState) {
    forall h | h in s.ready :: Live(s, h)
  }

  lemma {:induction false} InsertSorted(heap: seq<Timer>, timer: Timer)
    requires Sorted(heap)
    ensures Sorted(Insert(heap, timer))
    ensures forall t :: t in Insert(heap, timer) <==> t in heap || t == timer
  {
    if heap == [] || timer.when < heap[0].when {
    } else {
      InsertSorted(heap[1..], timer);
      var rest := Insert(heap[1..], timer);
      assert forall t :: t in heap <==> t == heap[0] || t in heap[1..];
      forall i | 0 <= i < |rest| ensures heap[0].when <= rest[i].when {
        assert rest[i] in rest;
      }
    }
  }

  /** Taking the top off the heap, wherever the handle goes. */
  lemma PopTopPunctual(s: LoopState, dropped: seq<HandleId>)
    requires Punctual(s) && s.scheduled != []
    ensures Punctual(s.(scheduled := s.scheduled[1..], dropped := dropped))
  {
    var d := s.(scheduled := s.scheduled[1..], dropped := dropped);
    forall t | t in d.scheduled ensures TimerDue(d, t) {
      assert t in s.scheduled && TimerDue(s, t);
    }
    forall h | h in d.ready ensures DueNow(d, h) {
      assert DueNow(s, h);
    }
    forall r | r in d.ran ensures RanWhenDue(d, r) {
      assert RanWhenDue(s, r);
    }
  }

  lemma {:induction false} DropTopPunctual(s: LoopState)
    requires Punctual(s)
    ensures
      var d := s.DropTop();
      && Punctual(d) && d == s.(scheduled := d.scheduled, dropped := d.dropped)
      && |d.scheduled| <= |s.scheduled|
      && (d.scheduled != [] ==> d.scheduled[0].handle !in d.cancelled)
    decreases |s.scheduled|
  {
    if s.scheduled != [] && s.scheduled[0].handle in s.cancelled {
      PopTopPunctual(s, s.dropped + [s.scheduled[0].handle]);
      DropTopPunctual(s.(scheduled := s.scheduled[1..], dropped := s.dropped + [s.scheduled[0].handle]));
    }
  }

  lemma SiftPunctual(s: LoopState, h: HandleId)
    requires Punctual(s) && AllLive(s) && DueNow(s, h)
    ensures Punctual(s.Sift(h)) && AllLive(s.Sift(h))
    ensures s.Sift(h) == s.(ready := s.Sift(h).ready, parked := s.Sift(h).parked, dropped := s.Sift(h).dropped)
  {
  }

  lemma {:induction false} SiftAllPunctual(s: LoopState, hs: seq<HandleId>)
    requires Punctual(s) && AllLive(s) && forall h | h in hs :: DueNow(s, h)
    ensures
      var d := s.SiftAll(hs);
      && Punctual(d) && AllLive(d)
      && d == s.(ready := d.ready, parked := d.parked, dropped := d.dropped)
  {
    if hs == [] {
    } else {
      var last := |hs| - 1;
      SiftAllPunctual(s, hs[..last]);
      assert hs[last] in hs;
      SiftPunctual(s.SiftAll(hs[..last]), hs[last]);
    }
  }

  /** What a step starts from: only live work in the ready list, a live timer at the top. */
  lemma CleanPunctual(s: LoopState)
    requires Punctual(s)
    ensures
      var d := s.DropTop().Compacted();
      && Punctual(d) && AllLive(d)
      && d == s.(ready := d.ready, scheduled := d.scheduled, parked := d.parked, dropped := d.dropped)
      && |d.scheduled| <= |s.scheduled|
      && (d.scheduled != [] ==> d.scheduled[0].handle !in d.cancelled)
  {
    DropTopPunctual(s);
    var d := s.DropTop();
    SiftAllPunctual(d.(ready := []), d.ready);
  }

  lemma {:induction false} ReleasedPunctual(s: LoopState)
    requires Punctual(s) && AllLive(s)
    ensures
      var d := s.Released();
      && Punctual(d) && AllLive(d)
      && d == s.(ready := d.ready, scheduled := d.scheduled, parked := d.parked, dropped := d.dropped)
      && |d.scheduled| <= |s.scheduled|
      && (s.scheduled != [] && s.scheduled[0].when <= s.now ==> |d.scheduled| < |s.scheduled|)
    decreases |s.scheduled|
  {
    if s.scheduled != [] && s.scheduled[0].when <= s.now {
      var rest := s.(scheduled := s.scheduled[1..]);
      PopTopPunctual(s, s.dropped);
      assert TimerDue(s, s.scheduled[0]);
      SiftPunctual(rest, s.scheduled[0].handle);
      ReleasedPunctual(rest.Sift(s.scheduled[0].handle));
    }
  }

  /** With nothing ready, the clock may move up to the earliest timer. */
  lemma AdvancePunctual(s: LoopState, t: Time)
    requires Punctual(s) && s.ready == [] && t >= s.now
    requires t == s.now || s.scheduled == [] || t <= s.scheduled[0].when
    ensures Punctual(s.(now := t))
  {
    var d := s.(now := t);
    forall u | u in d.scheduled ensures TimerDue(d, u) {
      assert TimerDue(s, u);
      var i :| 0 <= i < |s.scheduled| && s.scheduled[i] == u;
      assert s.scheduled[0].when <= u.when;
    }
    forall r | r in d.ran ensures RanWhenDue(d, r) {
      assert RanWhenDue(s, r);
    }
  }

  lemma AffectedPunctual(s: LoopState, effect: Effect)
    requires Punctual(s)
    ensures Punctual(s.Affected(effect)) && s.Affected(effect).now == s.now
    ensures s.Affected(effect).ran == s.ran && s.handles <= s.Affected(effect).handles
  {
    var d := s.Affected(effect);
    if effect.CallAt? {
      InsertSorted(s.scheduled, Timer(effect.when, |s.handles|));
    }
    forall t | t in d.scheduled ensures TimerDue(d, t) {
      if t in s.scheduled {
        assert TimerDue(s, t);
      }
    }
    forall h | h in d.ready ensures DueNow(d, h) {
      if h in s.ready {
        assert DueNow(s, h);
      }
    }
    forall r | r in d.ran ensures RanWhenDue(d, r) {
      assert RanWhenDue(s, r);
    }
  }

  lemma {:induction false} AffectedAllPunctual(s: LoopState, effects: seq<Effect>)
    requires Punctual(s)
    ensures Punctual(s.AffectedAll(effects)) && s.AffectedAll(effects).now == s.now
    ensures s.AffectedAll(effects).ran == s.ran && s.handles <= s.AffectedAll(effects).handles
  {
    if effects == [] {
    } else {
      var last := |effects| - 1;
      AffectedAllPunctual(s, effects[..last]);
      AffectedPunctual(s.AffectedAll(effects[..last]), effects[last]);
    }
  }

  /** The bookkeeping before the chosen callback runs. */
  ghost function Chosen(s: LoopState, choice: Choice): LoopState
    requires s.ready != []
  {
    var index := choice.pick % |s.ready|;
    var counted := s.(ready := s.ready[..index] + s.ready[index + 1..]).Counted();
    counted.(ran := s.ran + [Step(s.ready[index], s.now)])
  }

  lemma ChosenPunctual(s: LoopState, choice: Choice)
    requires Punctual(s) && AllLive(s) && s.ready != []
    ensures Punctual(Chosen(s, choice)) && Punctual(Chosen(s, choice).(ran := s.ran))
  {
    var h := s.ready[choice.pick % |s.ready|];
    assert DueNow(s, h) && Live(s, h);
    var d := Chosen(s, choice);
    forall g | g in d.ready ensures DueNow(d, g) {
      assert DueNow(s, g);
    }
    forall t | t in d.scheduled ensures TimerDue(d, t) {
      assert TimerDue(s, t);
    }
    forall r | r in d.ran ensures RanWhenDue(d, r) {
      if r in s.ran {
        assert RanWhenDue(s, r);
      }
    }
    forall i | 0 <= i < |s.ran| ensures s.ran[i].time <= s.now {
      assert RanWhenDue(s, s.ran[i]);
    }
  }

  /** A step's handle was live when picked, and due at that very instant. */
  ghost predicate RunsOnTime(before: LoopState, after: LoopState, outcome: Outcome) {
    outcome.Ran? ==>
      var h := outcome.handle;
      && Live(before, h) && before.handles[h].due == after.now
      && after.ran == before.ran + [Step(h, after.now)]
  }

  lemma SteppedPunctual(s: LoopState, choice: Choice, max: nat)
    requires Punctual(s) && AllLive(s) && s.ready != []
    ensures
      var (d, outcome) := s.Stepped(choice, max);
      Punctual(d) && d.now == s.now && RunsOnTime(s, d, outcome)
  {
    ChosenPunctual(s, choice);
    var chosen := Chosen(s, choice);
    var h := s.ready[choice.pick % |s.ready|];
    assert Live(s, h) && DueNow(s, h);
    AffectedAllPunctual(chosen, choice.effects);
    var (d, outcome) := s.Stepped(choice, max);
    if !outcome.Livelock? {
      SamePunctual(chosen.AffectedAll(choice.effects), d);
    } else {
      SamePunctual(chosen.(ran := s.ran), d);
    }
  }

  lemma SamePunctual(s: LoopState, d: LoopState)
    requires Punctual(s) && d == s.(monitors := d.monitors)
    ensures Punctual(d)
  {
    forall t | t in d.scheduled ensures TimerDue(d, t) {
      assert TimerDue(s, t);
    }
    forall h | h in d.ready ensures DueNow(d, h) {
      assert DueNow(s, h);
    }
    forall r | r in d.ran ensures RanWhenDue(d, r) {
      assert RanWhenDue(s, r);
    }
  }

  lemma DispatchedPunctual(s: LoopState, choice: Choice, max: nat)
    requires Punctual(s) && AllLive(s)
    ensures
      var (d, outcome) := s.Dispatched(choice, max);
      Punctual(d) && d.now == s.now && RunsOnTime(s, d, outcome)
  {
    ReleasedPunctual(s);
    if s.Released().ready != [] {
      SteppedPunctual(s.Released(), choice, max);
    }
  }

  /** The clock advanced with nothing ready, and not past the earliest live timer. */
  ghost predicate ClockMoved(clean: LoopState, now: Time) {
    && clean.now <= now
    && (clean.now < now ==>
          && clean.ready == []
          && forall t | t in clean.scheduled && t.handle !in clean.cancelled :: now <= t.when)
  }

  lemma WaitedPunctual(s: LoopState, choice: Choice, max: nat)
    requires Punctual(s) && s.ready == []
    ensures
      var (d, outcome) := s.Waited(choice, max);
      Punctual(d) && ClockMoved(s, d.now) && RunsOnTime(s, d, outcome)
  {
    if s.scheduled != [] {
      var deadline := s.monitors.NextDeadline();
      var target := s.scheduled[0].when;
      assert forall t | t in s.scheduled :: target <= t.when;
      if deadline.Some? && deadline.value <= s.now {
        SamePunctual(s, s.Waited(choice, max).0);
      } else if deadline.Some? && deadline.value < target {
        AdvancePunctual(s, deadline.value);
        SamePunctual(s.(now := deadline.value), s.Waited(choice, max).0);
      } else {
        AdvancePunctual(s, Later(target, s.now));
        DispatchedPunctual(s.(now := Later(target, s.now)), choice, max);
      }
    }
  }

  /** The clock is monotone, moves only with an empty ready list and never past a live timer; whatever
      runs is live and due at that instant: a `call_soon` handle runs at the time it was queued, a
      timer at its time or at its creation if that is later. */
  lemma RunOncePunctual(s: LoopState, choice: Choice, max: nat)
    requires Punctual(s)
    ensures
      var (d, outcome) := s.RunOnce(choice, max);
      Punctual(d) && s.now <= d.now && ClockMoved(s.DropTop().Compacted(), d.now) && RunsOnTime(s, d, outcome)
  {
    CleanPunctual(s);
    var clean := s.DropTop().Compacted();
    if clean.ready == [] {
      WaitedPunctual(clean, choice, max);
    } else {
      DispatchedPunctual(clean, choice, max);
    }
  }
}
