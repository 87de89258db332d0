/** Whole runs of the event loop, under any scheduler, program and monitors
    (src/simloom/_loop.py:250-277, 303-398, 484-503). */
module LoopRuns {
  import opened Clock
  import opened Responses
  import opened Loops
  import opened LoopInvariants
  import opened LoopTiming
  import opened LoopDeadlines
  import opened LoopLooks

  // ---------------------------------------------------------------------------------------------
  // Steps per instant
  // ---------------------------------------------------------------------------------------------

  /** How many handles ran at one virtual time. */
  function StepsAt(ran: seq<Step>, t: Time): nat {
    if ran == [] then 0 else StepsAt(ran[..|ran| - 1], t) + if ran[|ran| - 1].time == t then 1 else 0
  }

  ghost predicate AtMost(ran: seq<Step>, max: nat) {
    forall t :: StepsAt(ran, t) <= max
  }

  ghost predicate NoneAfter(ran: seq<Step>, t: Time) {
    forall u | u > t :: StepsAt(ran, u) == 0
  }

  /** The livelock counter counts the steps of the latest instant. */
  ghost predicate Metered(s: LoopState, max: nat) {
    && s.instantTime <= s.now
    && NoneAfter(s.ran, s.instantTime)
    && StepsAt(s.ran, s.instantTime) == s.instantSteps
    && AtMost(s.ran, max)
  }

  lemma StepsAtOneMore(ran: seq<Step>, step: Step, t: Time)
    ensures StepsAt(ran + [step], t) == StepsAt(ran, t) + if step.time == t then 1 else 0
  {
    assert (ran + [step])[..|ran|] == ran;
  }

  /** The step that is about to run is counted, unless it trips the bound. */
  lemma CountedMeters(s: LoopState, h: HandleId, max: nat)
    requires Metered(s, max)
    ensures
      var counted := s.Counted();
      counted.instantSteps <= max ==> Metered(counted.(ran := s.ran + [Step(h, s.now)]), max)
  {
    var counted := s.Counted();
    var ran := s.ran + [Step(h, s.now)];
    if counted.instantSteps <= max {
      forall t ensures StepsAt(ran, t) <= max && (t > s.now ==> StepsAt(ran, t) == 0) {
        StepsAtOneMore(s.ran, Step(h, s.now), t);
      }
      StepsAtOneMore(s.ran, Step(h, s.now), s.now);
    }
  }

  ghost predicate SameMeter(s: LoopState, d: LoopState) {
    d.ran == s.ran && d.instantTime == s.instantTime && d.instantSteps == s.instantSteps && s.now <= d.now
  }

  lemma {:induction false} AffectedMeter(s: LoopState, effects: seq<Effect>)
    ensures SameMeter(s, s.AffectedAll(effects)) && s.crashed <= s.AffectedAll(effects).crashed
  {
    if effects != [] {
      AffectedMeter(s, effects[..|effects| - 1]);
    }
  }

  lemma SteppedMetered(s: LoopState, choice: Choice, max: nat)
    requires Metered(s, max) && s.ready != []
    ensures
      var (d, outcome) := s.Stepped(choice, max);
      AtMost(d.ran, max) && (!outcome.Livelock? ==> Metered(d, max)) && s.crashed <= d.crashed
  {
    var index := choice.pick % |s.ready|;
    var h := s.ready[index];
    var picked := s.(ready := s.ready[..index] + s.ready[index + 1..]);
    CountedMeters(picked, h, max);
    AffectedMeter(picked.Counted().(ran := s.ran + [Step(h, s.now)]), choice.effects);
  }

  lemma DispatchedMetered(s: LoopState, choice: Choice, max: nat)
    requires Metered(s, max) && Punctual(s) && AllLive(s)
    ensures
      var (d, outcome) := s.Dispatched(choice, max);
      AtMost(d.ran, max) && (!outcome.Livelock? ==> Metered(d, max)) && s.crashed <= d.crashed
  {
    ReleasedPunctual(s);
    if s.Released().ready != [] {
      SteppedMetered(s.Released(), choice, max);
    }
  }

  lemma RunOnceMetered(s: LoopState, choice: Choice, max: nat)
    requires Metered(s, max) && Punctual(s)
    ensures
      var (d, outcome) := s.RunOnce(choice, max);
      AtMost(d.ran, max) && (!outcome.Livelock? ==> Metered(d, max)) && s.crashed <= d.crashed
  {
    CleanPunctual(s);
    var clean := s.DropTop().Compacted();
    if clean.ready != [] {
      DispatchedMetered(clean, choice, max);
    } else if clean.scheduled != [] {
      var deadline := clean.monitors.NextDeadline();
      var target := clean.scheduled[0].when;
      if !(deadline.Some? && (deadline.value <= clean.now || deadline.value < target)) {
        AdvancePunctual(clean, Later(target, clean.now));
        DispatchedMetered(clean.(now := Later(target, clean.now)), choice, max);
      }
    }
  }

  /** Livelock is raised exactly by the step that would be one too many at its instant. */
  ghost predicate LivelockExact(s: LoopState, d: LoopState, outcome: Outcome, max: nat) {
    && (outcome.Livelock? ==> StepsAt(s.ran, d.now) == max)
    && (d.ran != s.ran ==> StepsAt(s.ran, d.now) < max)
  }

  lemma SteppedLivelock(s: LoopState, choice: Choice, max: nat)
    requires Metered(s, max) && s.ready != []
    ensures var (d, outcome) := s.Stepped(choice, max); LivelockExact(s, d, outcome, max)
  {
    var index := choice.pick % |s.ready|;
    var counted := s.(ready := s.ready[..index] + s.ready[index + 1..]).Counted();
    assert counted.instantSteps == StepsAt(s.ran, s.now) + 1 by {
      assert s.now != s.instantTime ==> StepsAt(s.ran, s.now) == 0;
    }
    assert StepsAt(s.ran, s.now) <= max;
    AffectedMeter(counted.(ran := s.ran + [Step(s.ready[index], s.now)]), choice.effects);
    SteppedObserved(s, choice, max);
  }

  lemma DispatchedLivelock(s: LoopState, choice: Choice, max: nat)
    requires Metered(s, max)
    ensures var (d, outcome) := s.Dispatched(choice, max); LivelockExact(s, d, outcome, max)
  {
    ReleasingKeepsMeter(s);
    if s.Released().ready != [] {
      SteppedLivelock(s.Released(), choice, max);
    }
  }

  lemma {:induction false} ReleasingKeepsMeter(s: LoopState)
    ensures SameMeter(s, s.Released()) && s.Released().now == s.now
    decreases |s.scheduled|
  {
    if s.scheduled != [] && s.scheduled[0].when <= s.now {
      ReleasingKeepsMeter(s.(scheduled := s.scheduled[1..]).Sift(s.scheduled[0].handle));
    }
  }

  lemma RunOnceLivelock(s: LoopState, choice: Choice, max: nat)
    requires Metered(s, max) && Punctual(s)
    ensures var (d, outcome) := s.RunOnce(choice, max); LivelockExact(s, d, outcome, max)
  {
    CleanPunctual(s);
    var clean := s.DropTop().Compacted();
    if clean.ready != [] {
      DispatchedLivelock(clean, choice, max);
    } else if clean.scheduled != [] {
      DispatchedLivelock(clean.(now := Later(clean.scheduled[0].when, clean.now)), choice, max);
    }
  }

  // ---------------------------------------------------------------------------------------------
  // Runs
  // ---------------------------------------------------------------------------------------------

  /** What a run starts from: the calls made before the first turn, such as scheduling the main task. */
  datatype Universe = Universe(epoch: Time, setup: seq<Effect>)
  {
    function Start(): LoopState {
      Fresh(epoch).AffectedAll(setup)
    }
  }

  /** The loop goes on after these exits; the others raise. */
  predicate Continues(outcome: Outcome) {
    outcome.Ran? || outcome.Idle?
  }

  /** The state after a list of choices, and how the last step ended; a raised error ends the run. */
  function After(u: Universe, choices: seq<Choice>, max: nat): (LoopState, Outcome) {
    if choices == [] then (u.Start(), Idle) else
    var (s, outcome) := After(u, choices[..|choices| - 1], max);
    if Continues(outcome) then s.RunOnce(choices[|choices| - 1], max) else (s, outcome)
  }

  ghost predicate Inv(s: LoopState, max: nat) {
    Conserved(s) && Punctual(s) && InTime(s.monitors, s.now) && Metered(s, max)
  }

  lemma StartInv(u: Universe, max: nat)
    ensures Inv(u.Start(), max)
  {
    var empty := Fresh(u.epoch);
    AffectedAllKeepsPlaces(empty, u.setup);
    AffectedAllJustified(empty, u.setup);
    AffectedAllPunctual(empty, u.setup);
    AffectedInTime(empty, u.setup);
    AffectedMeter(empty, u.setup);
  }

  lemma {:induction false} RunKeepsInv(u: Universe, choices: seq<Choice>, max: nat)
    ensures
      var (s, outcome) := After(u, choices, max);
      && Justified(s) && Punctual(s) && InTime(s.monitors, s.now) && AtMost(s.ran, max)
      && (!outcome.Livelock? ==> Inv(s, max))
  {
    if choices == [] {
      StartInv(u, max);
    } else {
      var last := |choices| - 1;
      RunKeepsInv(u, choices[..last], max);
      var (s, outcome) := After(u, choices[..last], max);
      if Continues(outcome) {
        RunOnceConserves(s, choices[last], max);
        RunOncePunctual(s, choices[last], max);
        RunOnceInTime(s, choices[last], max);
        RunOnceMetered(s, choices[last], max);
      }
    }
  }

  /** Exact time: in any run, every handle that ran did so once, at exactly the instant it was due, in
      the order of the clock; and no more than `max` handles ran at any one virtual time. */
  lemma EverythingRunsOnTime(u: Universe, choices: seq<Choice>, max: nat)
    ensures
      var (s, outcome) := After(u, choices, max);
      && (forall r | r in s.ran :: r.handle < |s.handles| && s.handles[r.handle].due == r.time <= s.now)
      && InOrder(s.ran)
      && (!outcome.Livelock? ==> forall h: HandleId :: RanUses(s.ran, h) <= 1)
      && AtMost(s.ran, max)
  {
    RunKeepsInv(u, choices, max);
    var (s, outcome) := After(u, choices, max);
    forall r | r in s.ran ensures r.handle < |s.handles| && s.handles[r.handle].due == r.time <= s.now {
      assert RanWhenDue(s, r);
    }
    if !outcome.Livelock? {
      forall h: HandleId ensures RanUses(s.ran, h) <= 1 {
        assert Places(s, h) <= 1;
      }
    }
  }

  /** In any run, what was dropped had been cancelled and what is parked belongs to a crashed task. In a run
      not ended by livelock each handle is in exactly one place, so one that has not run, is not cancelled and has
      no crashed owner is ready or in the heap. Reviving crashed tasks moves every parked handle, and nothing else,
      back to the ready list. */
  lemma NoHandleIsLost(u: Universe, choices: seq<Choice>, max: nat, h: HandleId)
    ensures
      var (s, outcome) := After(u, choices, max);
      && (h in s.dropped ==> h in s.cancelled) && (h in s.parked ==> s.CrashedOwned(h))
      && (!outcome.Livelock? ==>
            && Places(s, h) == (if h < |s.handles| then 1 else 0)
            && (h < |s.handles| && RanUses(s.ran, h) == 0 && h !in s.cancelled && !s.CrashedOwned(h) ==> Waits(s, h))
            && Places(s.Revived(), h) == Places(s, h))
      && (h in s.parked ==> h in s.Revived().ready) && s.Revived().parked == []
      && (h in s.Revived().ready ==> h in s.ready || h in s.parked)
  {
    RunKeepsInv(u, choices, max);
    var (s, outcome) := After(u, choices, max);
    if !outcome.Livelock? && h < |s.handles| {
      LiveWorkWaits(s, h);
    }
  }

  /** No handle of a crashed task runs: whatever ran after a task had crashed was not its work. */
  lemma {:induction false} CrashedTasksStayStopped(u: Universe, choices: seq<Choice>, n: nat, max: nat, i: nat)
    requires n <= |choices|
    requires
      var early := After(u, choices[..n], max).0;
      var late := After(u, choices, max).0;
      |early.ran| <= i < |late.ran|
    ensures
      var early := After(u, choices[..n], max).0;
      var late := After(u, choices, max).0;
      && late.ran[i].handle < |late.handles|
      && (late.handles[late.ran[i].handle].owner.Some? ==>
            late.handles[late.ran[i].handle].owner.value !in early.crashed)
    decreases |choices|
  {
    assert choices[..|choices|] == choices;
    if n < |choices| {
      RanGrows(u, choices, n, max);
      var last := |choices| - 1;
      assert choices[..last][..n] == choices[..n];
      RunKeepsInv(u, choices[..last], max);
      var (s, outcome) := After(u, choices[..last], max);
      if i < |s.ran| {
        CrashedTasksStayStopped(u, choices[..last], n, max, i);
        RanGrows(u, choices, last, max);
      } else if Continues(outcome) {
        RanGrows(u, choices[..last], n, max);
        RunOncePunctual(s, choices[last], max);
        RanGrowsOnce(s, choices[last], max);
      }
    }
  }

  lemma {:induction false} SiftAllHistory(s: LoopState, hs: seq<HandleId>)
    ensures s.SiftAll(hs).ran == s.ran && s.SiftAll(hs).handles == s.handles && s.SiftAll(hs).crashed == s.crashed
  {
    if hs != [] {
      SiftAllHistory(s, hs[..|hs| - 1]);
    }
  }

  /** One step adds at most the handle it ran, and forgets neither handles nor crashes. */
  lemma RanGrowsOnce(s: LoopState, choice: Choice, max: nat)
    requires Punctual(s)
    ensures
      var (d, outcome) := s.RunOnce(choice, max);
      && s.ran <= d.ran && s.handles <= d.handles && s.crashed <= d.crashed
      && forall i | |s.ran| <= i < |d.ran| :: Live(s, d.ran[i].handle)
  {
    CleanPunctual(s);
    var clean := s.DropTop().Compacted();
    if clean.ready != [] {
      DispatchGrows(clean, choice, max);
    } else if clean.scheduled != [] {
      var deadline := clean.monitors.NextDeadline();
      var target := clean.scheduled[0].when;
      if !(deadline.Some? && (deadline.value <= clean.now || deadline.value < target)) {
        AdvancePunctual(clean, Later(target, clean.now));
        DispatchGrows(clean.(now := Later(target, clean.now)), choice, max);
      }
    }
  }

  lemma DispatchGrows(s: LoopState, choice: Choice, max: nat)
    requires Punctual(s) && AllLive(s)
    ensures
      var (d, outcome) := s.Dispatched(choice, max);
      && s.ran <= d.ran && s.handles <= d.handles && s.crashed <= d.crashed
      && forall i | |s.ran| <= i < |d.ran| :: Live(s, d.ran[i].handle)
  {
    ReleasedPunctual(s);
    var r := s.Released();
    if r.ready != [] {
      var h := r.ready[choice.pick % |r.ready|];
      assert Live(r, h);
      ChosenPunctual(r, choice);
      AffectedAllPunctual(Chosen(r, choice), choice.effects);
      AffectedMeter(Chosen(r, choice), choice.effects);
    }
  }

  lemma {:induction false} RanGrows(u: Universe, choices: seq<Choice>, n: nat, max: nat)
    requires n <= |choices|
    ensures
      var early := After(u, choices[..n], max).0;
      var late := After(u, choices, max).0;
      && early.ran <= late.ran && early.handles <= late.handles && early.crashed <= late.crashed
    decreases |choices|
  {
    if n == |choices| {
      assert choices[..n] == choices;
    } else {
      var last := |choices| - 1;
      assert choices[..last][..n] == choices[..n];
      RanGrows(u, choices[..last], n, max);
      RunKeepsInv(u, choices[..last], max);
      var (s, outcome) := After(u, choices[..last], max);
      if Continues(outcome) {
        RanGrowsOnce(s, choices[last], max);
      }
    }
  }

  // ---------------------------------------------------------------------------------------------
  // What the monitors saw of a run
  // ---------------------------------------------------------------------------------------------

  ghost function StateAt(u: Universe, choices: seq<Choice>, max: nat, n: nat): LoopState
    requires n <= |choices|
  {
    After(u, choices[..n], max).0
  }

  /** Turn `n` of the run ran a handle and broke no invariant. */
  ghost predicate RanAt(u: Universe, choices: seq<Choice>, max: nat, n: nat) {
    n < |choices| && After(u, choices[..n + 1], max).1.Ran?
  }

  /** Monitor `m` looked during turn `n`, at the boundary or at its deadline. */
  ghost predicate LooksAt(u: Universe, choices: seq<Choice>, max: nat, n: nat, m: nat) {
    n < |choices| && SeenBy(StateAt(u, choices, max, n + 1), m) != SeenBy(StateAt(u, choices, max, n), m)
  }

  /** During turn `n` monitor `m` looked, and found its response to hold. */
  ghost predicate RespondsAt(u: Universe, choices: seq<Choice>, max: nat, n: nat, m: nat) {
    LooksAt(u, choices, max, n, m) && choices[n].sample.responses(m)
  }

  /** Turn `n`: a turn of the loop, or nothing once an error was raised. */
  lemma TurnAt(u: Universe, choices: seq<Choice>, max: nat, n: nat)
    requires n < |choices|
    ensures
      var (s, outcome) := After(u, choices[..n], max);
      After(u, choices[..n + 1], max) == if Continues(outcome) then s.RunOnce(choices[n], max) else (s, outcome)
  {
    assert choices[..n + 1][..n] == choices[..n];
  }

  lemma TurnObserved(u: Universe, choices: seq<Choice>, max: nat, n: nat)
    requires n < |choices|
    ensures
      var s, d := StateAt(u, choices, max, n), StateAt(u, choices, max, n + 1);
      && SameMonitors(s.monitors, d.monitors)
      && (if RanAt(u, choices, max, n) then LookedAtBoundary(s, d, choices[n].sample)
          else AtMostRechecked(s, d, choices[n].sample))
  {
    TurnAt(u, choices, max, n);
    var (s, outcome) := After(u, choices[..n], max);
    if Continues(outcome) {
      TurnFaithfully(s, choices[n], max);
    }
  }

  /** Monitors and looks are only added, and goals only reached. */
  ghost predicate OnlyMore(s: LoopState, d: LoopState) {
    && SameMonitors(s.monitors, d.monitors)
    && (forall m: nat :: SeenBy(s, m) <= SeenBy(d, m))
    && (forall m: nat | Reached(s, m) :: Reached(d, m))
  }

  lemma OnlyMoreTransitive(a: LoopState, b: LoopState, c: LoopState)
    requires OnlyMore(a, b) && OnlyMore(b, c)
    ensures OnlyMore(a, c)
  {
    assert forall m: nat :: SeenBy(a, m) <= SeenBy(b, m) <= SeenBy(c, m);
  }

  lemma TurnOnlyAdds(u: Universe, choices: seq<Choice>, max: nat, n: nat)
    requires n < |choices|
    ensures OnlyMore(StateAt(u, choices, max, n), StateAt(u, choices, max, n + 1))
  {
    TurnObserved(u, choices, max, n);
    var s, d := StateAt(u, choices, max, n), StateAt(u, choices, max, n + 1);
    forall m: nat ensures SeenBy(s, m) <= SeenBy(d, m) && (Reached(s, m) ==> Reached(d, m)) {
      assert m < |d.monitors.leadsTo| || SeenBy(s, m) == SeenBy(d, m);
      assert m < |d.monitors.eventually| || !Reached(s, m);
    }
  }

  lemma {:induction false} MonitorsStay(u: Universe, choices: seq<Choice>, max: nat, a: nat, b: nat)
    requires a <= b <= |choices|
    ensures OnlyMore(StateAt(u, choices, max, a), StateAt(u, choices, max, b))
    decreases b - a
  {
    if a < b {
      MonitorsStay(u, choices, max, a, b - 1);
      TurnOnlyAdds(u, choices, max, b - 1);
      OnlyMoreTransitive(StateAt(u, choices, max, a), StateAt(u, choices, max, b - 1), StateAt(u, choices, max, b));
    }
  }

  lemma NothingSeenYet(u: Universe, choices: seq<Choice>, max: nat, m: nat)
    ensures SeenBy(StateAt(u, choices, max, 0), m) == [] && !Reached(StateAt(u, choices, max, 0), m)
  {
    EffectsRegister(Fresh(u.epoch), u.setup);
    assert SeenBy(Fresh(u.epoch), m) == [] && !Reached(Fresh(u.epoch), m);
    assert choices[..0] == [];
  }

  /** A turn adds at most one look, at the time it reaches and with the answer of its sample. */
  lemma TurnLooks(u: Universe, choices: seq<Choice>, max: nat, n: nat, m: nat)
    requires n < |choices|
    ensures
      var before, after := SeenBy(StateAt(u, choices, max, n), m), SeenBy(StateAt(u, choices, max, n + 1), m);
      || after == before
      || (&& |after| == |before| + 1 && before <= after
          && after[|before|].time == StateAt(u, choices, max, n + 1).now
          && after[|before|].response == choices[n].sample.responses(m))
  {
    TurnObserved(u, choices, max, n);
    var d := StateAt(u, choices, max, n + 1);
    assert m >= |d.monitors.leadsTo| ==> SeenBy(d, m) == [];
  }

  /** Every look was had at some turn of the run. */
  lemma {:induction false} LookHasTurn(u: Universe, choices: seq<Choice>, max: nat, end: nat, m: nat, j: nat)
    returns (n: nat)
    requires end <= |choices| && j < |SeenBy(StateAt(u, choices, max, end), m)|
    ensures n < end && |SeenBy(StateAt(u, choices, max, n), m)| == j < |SeenBy(StateAt(u, choices, max, n + 1), m)|
    ensures
      var look := SeenBy(StateAt(u, choices, max, end), m)[j];
      look.time == StateAt(u, choices, max, n + 1).now && look.response == choices[n].sample.responses(m)
    decreases end
  {
    if end == 0 {
      NothingSeenYet(u, choices, max, m);
    } else {
      TurnLooks(u, choices, max, end - 1, m);
      if j < |SeenBy(StateAt(u, choices, max, end - 1), m)| {
        n := LookHasTurn(u, choices, max, end - 1, m, j);
      } else {
        n := end - 1;
      }
    }
  }

  /** From a trigger on, monitor `m` looked at every boundary; and either its response held at one of its
      looks, within the bound, or it held at none of them and the bound has not run out. */
  ghost predicate Answered(u: Universe, choices: seq<Choice>, max: nat, n: nat, m: nat, due: Time) {
    && (forall r | n <= r < |choices| && RanAt(u, choices, max, r) :: LooksAt(u, choices, max, r, m))
    && (|| (exists r :: n <= r < |choices| && RespondsAt(u, choices, max, r, m)
                        && StateAt(u, choices, max, r + 1).now <= due)
        || (&& (forall r | n <= r < |choices| :: !RespondsAt(u, choices, max, r, m))
            && After(u, choices, max).0.now <= due))
  }

  lemma BoundariesAreLookedAt(u: Universe, choices: seq<Choice>, max: nat, n: nat, m: nat, r: nat)
    requires n <= r && RanAt(u, choices, max, r) && n < |choices|
    requires m < |StateAt(u, choices, max, n + 1).monitors.leadsTo|
    ensures LooksAt(u, choices, max, r, m)
  {
    MonitorsStay(u, choices, max, n + 1, r + 1);
    TurnObserved(u, choices, max, r);
  }

  /** A look from `i` on was had from turn `n` on, if `i` looks had been had before it. */
  lemma LookIsLater(u: Universe, choices: seq<Choice>, max: nat, n: nat, m: nat, j: nat) returns (r: nat)
    requires n < |choices| && |SeenBy(StateAt(u, choices, max, n), m)| <= j < |SeenBy(After(u, choices, max).0, m)|
    ensures n <= r < |choices| && LooksAt(u, choices, max, r, m)
    ensures
      var look := SeenBy(After(u, choices, max).0, m)[j];
      look.time == StateAt(u, choices, max, r + 1).now && look.response == choices[r].sample.responses(m)
  {
    assert choices[..|choices|] == choices;
    r := LookHasTurn(u, choices, max, |choices|, m, j);
    if r < n {
      MonitorsStay(u, choices, max, r + 1, n);
    }
  }

  /** And the looks of later turns are among the later looks. */
  lemma LaterLook(u: Universe, choices: seq<Choice>, max: nat, n: nat, m: nat, r: nat) returns (j: nat)
    requires n <= r && LooksAt(u, choices, max, r, m)
    ensures |SeenBy(StateAt(u, choices, max, n), m)| <= j < |SeenBy(After(u, choices, max).0, m)|
    ensures SeenBy(After(u, choices, max).0, m)[j].response == choices[r].sample.responses(m)
  {
    j := |SeenBy(StateAt(u, choices, max, r), m)|;
    TurnObserved(u, choices, max, r);
    MonitorsStay(u, choices, max, n, r);
    MonitorsStay(u, choices, max, r + 1, |choices|);
    assert choices[..|choices|] == choices;
    assert m < |StateAt(u, choices, max, r + 1).monitors.leadsTo|;
  }

  /** The look at the boundary of turn `n`, and what the history of looks says about it in the end. */
  lemma TriggerIsSeen(u: Universe, choices: seq<Choice>, max: nat, n: nat, m: nat) returns (i: nat)
    requires RanAt(u, choices, max, n) && m < |StateAt(u, choices, max, n + 1).monitors.leadsTo|
    requires choices[n].sample.triggers(m)
    ensures i == |SeenBy(StateAt(u, choices, max, n), m)| && m < |After(u, choices, max).0.monitors.leadsTo|
    ensures
      var there, s := StateAt(u, choices, max, n + 1), After(u, choices, max).0;
      var within, seen := there.monitors.leadsTo[m].within, SeenBy(s, m);
      && i < |seen| && seen[i].time == there.now
      && (AnsweredInTime(within, seen, i) || (Owed(seen, i) && s.now <= there.now + within))
  {
    i := |SeenBy(StateAt(u, choices, max, n), m)|;
    TurnObserved(u, choices, max, n);
    MonitorsStay(u, choices, max, n + 1, |choices|);
    assert choices[..|choices|] == choices;
    RunKeepsInv(u, choices, max);
    var there, s := StateAt(u, choices, max, n + 1), After(u, choices, max).0;
    var l := s.monitors.leadsTo[m];
    assert Faithful(l, s.now) && l.seen[i] == SeenBy(there, m)[i];
    BoundedResponse(l.within, l.seen, s.now, i);
  }

  lemma AnswerHasTurn(u: Universe, choices: seq<Choice>, max: nat, n: nat, m: nat, i: nat, due: Time)
    requires n < |choices| && i == |SeenBy(StateAt(u, choices, max, n), m)|
    requires
      var seen := SeenBy(After(u, choices, max).0, m);
      exists j :: i <= j < |seen| && seen[j].response && seen[j].time <= due
    ensures exists r :: n <= r < |choices| && RespondsAt(u, choices, max, r, m)
                        && StateAt(u, choices, max, r + 1).now <= due
  {
    var seen := SeenBy(After(u, choices, max).0, m);
    var j :| i <= j < |seen| && seen[j].response && seen[j].time <= due;
    var r := LookIsLater(u, choices, max, n, m, j);
    assert RespondsAt(u, choices, max, r, m);
  }

  lemma NoAnswerNoTurn(u: Universe, choices: seq<Choice>, max: nat, n: nat, m: nat, i: nat, r: nat)
    requires n <= r < |choices| && i == |SeenBy(StateAt(u, choices, max, n), m)|
    requires
      var seen := SeenBy(After(u, choices, max).0, m);
      forall j | i <= j < |seen| :: !seen[j].response
    ensures !RespondsAt(u, choices, max, r, m)
  {
    if RespondsAt(u, choices, max, r, m) {
      var j := LaterLook(u, choices, max, n, m, r);
    }
  }

  /** Bounded response over whole runs: whenever a handle ran and the trigger of a registered monitor held at
      the boundary, the response held at some look of the monitor from there on, within the bound, or it held at
      none and the bound has not run out; and the monitor looks at every boundary. */
  lemma TriggersAreAnswered(u: Universe, choices: seq<Choice>, max: nat, n: nat, m: nat)
    requires RanAt(u, choices, max, n) && m < |StateAt(u, choices, max, n + 1).monitors.leadsTo|
    requires choices[n].sample.triggers(m)
    ensures
      var there := StateAt(u, choices, max, n + 1);
      Answered(u, choices, max, n, m, there.now + there.monitors.leadsTo[m].within)
  {
    var there := StateAt(u, choices, max, n + 1);
    var due := there.now + there.monitors.leadsTo[m].within;
    var seen := SeenBy(After(u, choices, max).0, m);
    var i := TriggerIsSeen(u, choices, max, n, m);
    forall r | n <= r < |choices| && RanAt(u, choices, max, r) ensures LooksAt(u, choices, max, r, m) {
      BoundariesAreLookedAt(u, choices, max, n, m, r);
    }
    if exists j :: i <= j < |seen| && seen[j].response && seen[j].time <= due {
      AnswerHasTurn(u, choices, max, n, m, i, due);
    } else {
      assert Owed(seen, i);
      forall r | n <= r < |choices| ensures !RespondsAt(u, choices, max, r, m) {
        NoAnswerNoTurn(u, choices, max, n, m, i, r);
      }
    }
  }

  /** Goal `m` was registered when turn `n` ran a handle, and held at the boundary it reached. */
  ghost predicate GoalHeldAt(u: Universe, choices: seq<Choice>, max: nat, n: nat, m: nat) {
    && RanAt(u, choices, max, n) && choices[n].sample.goals(m)
    && m < |StateAt(u, choices, max, n + 1).monitors.eventually|
  }

  lemma TurnGoals(u: Universe, choices: seq<Choice>, max: nat, n: nat, m: nat)
    requires n < |choices|
    ensures
      var before, after := Reached(StateAt(u, choices, max, n), m), Reached(StateAt(u, choices, max, n + 1), m);
      && (before || GoalHeldAt(u, choices, max, n, m) ==> after)
      && (after ==> before || choices[n].sample.goals(m))
  {
    TurnObserved(u, choices, max, n);
    MonitorsStay(u, choices, max, n, n + 1);
  }

  /** A goal counts as reached if it held at any boundary since it was registered, and only if it held at a
      turn of the run. So a run that ends for a missed goal never saw it reached. */
  lemma {:induction false} GoalsAreExact(u: Universe, choices: seq<Choice>, max: nat, end: nat, m: nat)
    requires end <= |choices|
    ensures forall n: nat | n < end && GoalHeldAt(u, choices, max, n, m) :: Reached(StateAt(u, choices, max, end), m)
    ensures Reached(StateAt(u, choices, max, end), m) ==>
              exists n: nat :: n < end && choices[n].sample.goals(m)
    decreases end
  {
    if end == 0 {
      NothingSeenYet(u, choices, max, m);
    } else {
      GoalsAreExact(u, choices, max, end - 1, m);
      TurnGoals(u, choices, max, end - 1, m);
    }
  }

  /** A step that neither runs a handle nor raises uses up a timer or a pending deadline, so the loop
      cannot turn over for ever without doing one of the two. */
  lemma LoopMakesProgress(u: Universe, choices: seq<Choice>, choice: Choice, max: nat)
    requires Continues(After(u, choices, max).1)
    ensures
      var s := After(u, choices, max).0;
      var (d, outcome) := s.RunOnce(choice, max);
      outcome.Idle? ==> Work(d) < Work(s)
  {
    RunKeepsInv(u, choices, max);
    RunOnceInTime(After(u, choices, max).0, choice, max);
  }

  /** How a turn ends. A liveness violation is raised only when nothing was ready and something was still
      scheduled, with the clock on it, for a goal or response that really failed; a quiescent loop reports deadlock
      instead. A safety violation is raised exactly when a handle ran and some invariant did not hold after it, and
      names the first such; a turn ends well exactly when a handle ran and all of them held. Livelock is raised exactly
      when a handle was picked at an instant that has had `max` steps already. */
  lemma ViolationsAreExact(u: Universe, choices: seq<Choice>, choice: Choice, max: nat)
    requires Continues(After(u, choices, max).1)
    ensures
      var s := After(u, choices, max).0;
      var clean := s.DropTop().Compacted();
      var (d, outcome) := s.RunOnce(choice, max);
      && RaisedInTime(clean, d, choice.sample, outcome)
      && (outcome.Deadlock? <==> clean.ready == [] && clean.scheduled == [])
      && EndsExactly(s, d, outcome, choice.sample) && LivelockExact(s, d, outcome, max)
  {
    RunKeepsInv(u, choices, max);
    RunOnceLivelock(After(u, choices, max).0, choice, max);
    RunOnceInTime(After(u, choices, max).0, choice, max);
    TurnFaithfully(After(u, choices, max).0, choice, max);
  }

  // ---------------------------------------------------------------------------------------------
  // The loop object runs so
  // ---------------------------------------------------------------------------------------------

  lemma {:induction false} RaisedStays(u: Universe, choices: seq<Choice>, n: nat, max: nat)
    requires n <= |choices| && !Continues(After(u, choices[..n], max).1)
    ensures After(u, choices, max) == After(u, choices[..n], max)
    decreases |choices|
  {
    if n == |choices| {
      assert choices[..n] == choices;
    } else {
      var last := |choices| - 1;
      assert choices[..last][..n] == choices[..n];
      RaisedStays(u, choices[..last], n, max);
    }
  }

  /** A new loop with its first calls made, and turned over once for each choice unless an error is
      raised: `run_forever`, stopped after the last choice. */
  method RunForever(u: Universe, choices: seq<Choice>, max: nat) returns (loop: SimLoop, outcome: Outcome)
    ensures fresh(loop) && fresh(loop.monitors)
    ensures (loop.State(), outcome) == After(u, choices, max)
  {
    loop := new SimLoop(u.epoch, max);
    loop.RunCallback(u.setup);
    outcome := Idle;
    var i := 0;
    assert choices[..0] == [];
    while i < |choices| && Continues(outcome)
      invariant i <= |choices| && fresh(loop) && fresh(loop.monitors) && loop.maxStepsPerInstant == max
      invariant (loop.State(), outcome) == After(u, choices[..i], max)
    {
      assert choices[..i + 1][..i] == choices[..i];
      outcome := loop.RunOnce(choices[i]);
      i := i + 1;
    }
    if i < |choices| {
      RaisedStays(u, choices, i, max);
    }
    assert choices[..|choices|] == choices;
  }
}
