/** What was asked of the loop, and what became of it (src/simloom/_loop.py:303-384). */
module LoopRequests {
  import opened Wrappers
  import opened Clock
  import opened Monitors
  import opened Responses
  import opened Loops
  import opened LoopTiming
  import opened LoopDeadlines
  import opened LoopLooks
  import opened LoopRuns

  // ---------------------------------------------------------------------------------------------
  // The registrations of a run
  // ---------------------------------------------------------------------------------------------

  /** A goal to be reached within so much time of its registration. */
  datatype Goal = Goal(name: string, at: Time, within: Time)
  {
    function Due(): Time {
      at + within
    }

    function Missed(): Violation {
      Violation(name, Liveness, at + within)
    }
  }

  /** A response owed within so much time of its trigger. */
  datatype Bound = Bound(name: string, within: Time)
  {
    function Missed(trigger: Time): Violation {
      Violation(name, Liveness, trigger + within)
    }
  }

  /** Everything asked of the loop so far, read off the calls that callbacks made, and when. */
  datatype Registry = Registry(
    handles: seq<Handle>,
    cancelled: set<HandleId>,
    crashed: set<Task>,
    invariants: seq<string>,
    goals: seq<Goal>,
    bounds: seq<Bound>)
  {
    function Plus(effect: Effect, at: Time): Registry {
      match effect
      case CallSoon(owner) => this.(handles := handles + [Handle(owner, at)])
      case CallAt(when, owner) => this.(handles := handles + [Handle(owner, if when > at then when else at)])
      case Cancel(h) => this.(cancelled := cancelled + {h})
      case CrashTasks(tasks) => this.(crashed := crashed + tasks)
      case WatchAlways(name) => this.(invariants := invariants + [name])
      case WatchEventually(name, within) =>
        if within > 0.0 then this.(goals := goals + [Goal(name, at, within)]) else this
      case WatchLeadsTo(name, within) =>
        if within > 0.0 then this.(bounds := bounds + [Bound(name, within)]) else this
    }

    function PlusAll(effects: seq<Effect>, at: Time): Registry {
      if effects == [] then this
      else PlusAll(effects[..|effects| - 1], at).Plus(effects[|effects| - 1], at)
    }

    ghost predicate Extends(earlier: Registry) {
      && earlier.handles <= handles && earlier.cancelled <= cancelled && earlier.crashed <= crashed
      && earlier.invariants <= invariants && earlier.goals <= goals && earlier.bounds <= bounds
    }

    /** The monitors are these, each with the bound it was registered with. */
    ghost predicate DescribesMonitors(m: MonitorState) {
      && |m.always| == |invariants| && |m.eventually| == |goals| && |m.leadsTo| == |bounds|
      && (forall i | 0 <= i < |invariants| :: m.always[i].name == invariants[i])
      && (forall i | 0 <= i < |goals| ::
            m.eventually[i].name == goals[i].name && m.eventually[i].deadline == goals[i].Due())
      && (forall i | 0 <= i < |bounds| ::
            m.leadsTo[i].name == bounds[i].name && m.leadsTo[i].within == bounds[i].within)
    }

    /** And the handles are those created, each with its owner and the instant it is due. */
    ghost predicate Describes(s: LoopState) {
      && handles == s.handles && cancelled == s.cancelled && crashed == s.crashed
      && DescribesMonitors(s.monitors)
    }
  }

  const NOTHING := Registry([], {}, {}, [], [], [])

  /** Turn `n` called a handle back, whatever came of it. */
  ghost predicate CalledAt(u: Universe, choices: seq<Choice>, max: nat, n: nat)
    requires n < |choices|
  {
    StateAt(u, choices, max, n + 1).ran != StateAt(u, choices, max, n).ran
  }

  ghost function RegistryAt(u: Universe, choices: seq<Choice>, max: nat, n: nat): Registry
    requires n <= |choices|
  {
    if n == 0 then NOTHING.PlusAll(u.setup, u.epoch)
    else if !CalledAt(u, choices, max, n - 1) then RegistryAt(u, choices, max, n - 1)
    else RegistryAt(u, choices, max, n - 1).PlusAll(choices[n - 1].effects, StateAt(u, choices, max, n).now)
  }

  lemma {:induction false} PlusAllExtends(r: Registry, effects: seq<Effect>, at: Time)
    ensures r.PlusAll(effects, at).Extends(r)
  {
    if effects != [] {
      PlusAllExtends(r, effects[..|effects| - 1], at);
    }
  }

  lemma {:induction false} RegistryGrows(u: Universe, choices: seq<Choice>, max: nat, a: nat, b: nat)
    requires a <= b <= |choices|
    ensures RegistryAt(u, choices, max, b).Extends(RegistryAt(u, choices, max, a))
    decreases b - a
  {
    if a < b {
      RegistryGrows(u, choices, max, a, b - 1);
      PlusAllExtends(RegistryAt(u, choices, max, b - 1), choices[b - 1].effects, StateAt(u, choices, max, b).now);
    }
  }

  // --- the monitors of the loop are those registered ---

  lemma EffectDescribed(s: LoopState, r: Registry, effect: Effect)
    requires r.Describes(s)
    ensures r.Plus(effect, s.now).Describes(s.Affected(effect)) && s.Affected(effect).now == s.now
  {
  }

  lemma {:induction false} EffectsDescribed(s: LoopState, r: Registry, effects: seq<Effect>)
    requires r.Describes(s)
    ensures r.PlusAll(effects, s.now).Describes(s.AffectedAll(effects))
    ensures s.AffectedAll(effects).now == s.now
  {
    if effects != [] {
      var last := |effects| - 1;
      EffectsDescribed(s, r, effects[..last]);
      EffectDescribed(s.AffectedAll(effects[..last]), r.PlusAll(effects[..last], s.now), effects[last]);
    }
  }

  /** Looking and enforcing change no name and no bound. */
  lemma SameDescribed(r: Registry, m: MonitorState, d: MonitorState)
    requires r.DescribesMonitors(m) && SameMonitors(m, d)
    requires |d.always| == |m.always| && |d.eventually| == |m.eventually| && |d.leadsTo| == |m.leadsTo|
    ensures r.DescribesMonitors(d)
  {
  }

  lemma EnforcedDescribed(s: LoopState, r: Registry, sample: Sample)
    requires r.Describes(s)
    ensures var (d, _) := s.Enforced(sample); r.Describes(d) && d.ran == s.ran
  {
    EnforcedObserved(s, sample);
    SameDescribed(r, s.monitors, s.Enforced(sample).0.monitors);
  }

  /** What a turn makes of the registry. */
  ghost predicate Registers(s: LoopState, d: LoopState, r: Registry, effects: seq<Effect>) {
    if d.ran == s.ran then r.Describes(d) else r.PlusAll(effects, d.now).Describes(d)
  }

  lemma SteppedDescribed(s: LoopState, r: Registry, choice: Choice, max: nat)
    requires r.Describes(s) && s.ready != []
    ensures Registers(s, s.Stepped(choice, max).0, r, choice.effects)
  {
    var (d, outcome) := s.Stepped(choice, max);
    if !outcome.Livelock? {
      var after := CalledBack(s, choice);
      CalledBackRegisters(s, choice);
      var index := choice.pick % |s.ready|;
      var counted := s.(ready := s.ready[..index] + s.ready[index + 1..]).Counted();
      EffectsDescribed(counted.(ran := s.ran + [Step(s.ready[index], s.now)]), r, choice.effects);
      assert d == after.(monitors := after.monitors.AfterStep(after.now, choice.sample).0);
      SameDescribed(r.PlusAll(choice.effects, s.now), after.monitors, d.monitors);
    }
  }

  lemma DispatchedDescribed(s: LoopState, r: Registry, choice: Choice, max: nat)
    requires r.Describes(s)
    ensures Registers(s, s.Dispatched(choice, max).0, r, choice.effects)
  {
    ReleasingRunsNothing(s);
    if s.Released().ready != [] {
      SteppedDescribed(s.Released(), r, choice, max);
    }
  }

  lemma TurnDescribed(s: LoopState, r: Registry, choice: Choice, max: nat)
    requires r.Describes(s)
    ensures Registers(s, s.RunOnce(choice, max).0, r, choice.effects)
  {
    DroppingRunsNothing(s);
    SiftingRunsNothing(s.DropTop().(ready := []), s.DropTop().ready);
    var clean := s.DropTop().Compacted();
    if clean.ready != [] {
      DispatchedDescribed(clean, r, choice, max);
    } else if clean.scheduled != [] {
      var deadline, target := clean.monitors.NextDeadline(), clean.scheduled[0].when;
      var t := if deadline.Some? && deadline.value <= clean.now then clean.now
               else if deadline.Some? && deadline.value < target then deadline.value
               else Later(target, clean.now);
      EnforcedDescribed(clean.(now := t), r, choice.sample);
      DispatchedDescribed(clean.(now := t), r, choice, max);
    }
  }

  /** At every point of a run the monitors are those its callbacks registered, in that order, a goal with
      its bound counted from the instant of its registration. */
  lemma {:induction false} RegistryIsExact(u: Universe, choices: seq<Choice>, max: nat, n: nat)
    requires n <= |choices|
    ensures RegistryAt(u, choices, max, n).Describes(StateAt(u, choices, max, n))
  {
    if n == 0 {
      EffectsDescribed(Fresh(u.epoch), NOTHING, u.setup);
      assert choices[..0] == [];
    } else {
      RegistryIsExact(u, choices, max, n - 1);
      TurnAt(u, choices, max, n - 1);
      var (s, outcome) := After(u, choices[..n - 1], max);
      if Continues(outcome) {
        TurnDescribed(s, RegistryAt(u, choices, max, n - 1), choices[n - 1], max);
      }
    }
  }

  // ---------------------------------------------------------------------------------------------
  // Work runs as scheduled
  // ---------------------------------------------------------------------------------------------

  lemma TurnRunsLive(u: Universe, choices: seq<Choice>, max: nat, n: nat)
    requires n < |choices|
    ensures
      var s, d := StateAt(u, choices, max, n), StateAt(u, choices, max, n + 1);
      s.ran <= d.ran && forall i | |s.ran| <= i < |d.ran| :: Live(s, d.ran[i].handle)
  {
    TurnAt(u, choices, max, n);
    RunKeepsInv(u, choices[..n], max);
    var (s, outcome) := After(u, choices[..n], max);
    if Continues(outcome) {
      RanGrowsOnce(s, choices[n], max);
    }
  }

  /** What ran between two points of a run was live at some turn between them. */
  lemma {:induction false} RunsAlive(u: Universe, choices: seq<Choice>, max: nat, n: nat, end: nat, i: nat)
    returns (k: nat)
    requires n < end <= |choices|
    requires |StateAt(u, choices, max, n).ran| <= i < |StateAt(u, choices, max, end).ran|
    ensures n <= k < end && Live(StateAt(u, choices, max, k), StateAt(u, choices, max, end).ran[i].handle)
    decreases end
  {
    TurnRunsLive(u, choices, max, end - 1);
    if n < end - 1 && i < |StateAt(u, choices, max, end - 1).ran| {
      k := RunsAlive(u, choices, max, n, end - 1, i);
    } else {
      k := end - 1;
    }
  }

  /** Whatever is called back was scheduled, runs at the very instant it was scheduled for, a past one
      counting as now, and was not cancelled, nor its task crashed, at any point before it ran. */
  lemma RunsAsScheduled(u: Universe, choices: seq<Choice>, max: nat, n: nat, i: nat)
    requires n <= |choices|
    requires |StateAt(u, choices, max, n).ran| <= i < |After(u, choices, max).0.ran|
    ensures
      var step := After(u, choices, max).0.ran[i];
      var asked := RegistryAt(u, choices, max, |choices|);
      && step.handle < |asked.handles| && step.time == asked.handles[step.handle].due
      && step.handle !in RegistryAt(u, choices, max, n).cancelled
      && (asked.handles[step.handle].owner.Some? ==>
            asked.handles[step.handle].owner.value !in RegistryAt(u, choices, max, n).crashed)
  {
    InTheEnd(u, choices, max);
    EverythingRunsOnTime(u, choices, max);
    var step := After(u, choices, max).0.ran[i];
    assert step in After(u, choices, max).0.ran;
    var k := RunsAlive(u, choices, max, n, |choices|, i);
    RegistryGrows(u, choices, max, n, k);
    RegistryGrows(u, choices, max, k, |choices|);
    RegistryIsExact(u, choices, max, k);
    RegistryIsExact(u, choices, max, |choices|);
  }

  lemma InTheEnd(u: Universe, choices: seq<Choice>, max: nat)
    ensures StateAt(u, choices, max, |choices|) == After(u, choices, max).0
  {
    assert choices[..|choices|] == choices;
  }

  // ---------------------------------------------------------------------------------------------
  // Goals are met in time
  // ---------------------------------------------------------------------------------------------

  /** Goals that come to count as reached do so no later than their deadline. */
  ghost predicate ReachesInTime(s: LoopState, d: LoopState) {
    forall m: nat | m < |d.monitors.eventually| && !Reached(s, m) && Reached(d, m) ::
      d.now <= d.monitors.eventually[m].deadline
  }

  lemma SteppedReaches(s: LoopState, choice: Choice, max: nat)
    requires InTime(s.monitors, s.now) && s.ready != []
    ensures ReachesInTime(s, s.Stepped(choice, max).0)
  {
    var (d, outcome) := s.Stepped(choice, max);
    if !outcome.Livelock? {
      var after := CalledBack(s, choice);
      CalledBackRegisters(s, choice);
      var index := choice.pick % |s.ready|;
      var counted := s.(ready := s.ready[..index] + s.ready[index + 1..]).Counted();
      AffectedInTime(counted.(ran := s.ran + [Step(s.ready[index], s.now)]), choice.effects);
      assert d == after.(monitors := after.monitors.AfterStep(after.now, choice.sample).0);
      forall m: nat | m < |d.monitors.eventually| && !Reached(s, m) && Reached(d, m)
        ensures d.now <= d.monitors.eventually[m].deadline
      {
        assert !Reached(after, m) && after.monitors.eventually[m] in after.monitors.eventually;
      }
    }
  }

  lemma DispatchedReaches(s: LoopState, choice: Choice, max: nat)
    requires InTime(s.monitors, s.now)
    ensures ReachesInTime(s, s.Dispatched(choice, max).0)
  {
    ReleasingRunsNothing(s);
    var r := s.Released();
    assert forall m: nat :: Reached(r, m) == Reached(s, m);
    if r.ready != [] {
      SteppedReaches(r, choice, max);
    }
  }

  lemma EnforcedReaches(s: LoopState, sample: Sample)
    requires InTime(s.monitors, s.now)
    ensures ReachesInTime(s, s.Enforced(sample).0)
  {
    EnforcedObserved(s, sample);
    var d := s.Enforced(sample).0;
    forall m: nat | m < |d.monitors.eventually| && !Reached(s, m) && Reached(d, m)
      ensures d.now <= d.monitors.eventually[m].deadline
    {
      assert s.monitors.eventually[m] in s.monitors.eventually;
    }
  }

  lemma TurnReaches(s: LoopState, choice: Choice, max: nat)
    requires InTime(s.monitors, s.now)
    ensures ReachesInTime(s, s.RunOnce(choice, max).0)
  {
    DroppingRunsNothing(s);
    SiftingRunsNothing(s.DropTop().(ready := []), s.DropTop().ready);
    var clean := s.DropTop().Compacted();
    assert forall m: nat :: Reached(clean, m) == Reached(s, m);
    if clean.ready != [] {
      DispatchedReaches(clean, choice, max);
    } else if clean.scheduled != [] {
      var deadline, target := clean.monitors.NextDeadline(), clean.scheduled[0].when;
      var t := if deadline.Some? && deadline.value <= clean.now then clean.now
               else if deadline.Some? && deadline.value < target then deadline.value
               else Later(target, clean.now);
      if t != clean.now {
        AdvanceInTime(clean.monitors, clean.now, t);
      }
      var moved := clean.(now := t);
      assert forall m: nat :: Reached(moved, m) == Reached(s, m);
      EnforcedReaches(moved, choice.sample);
      DispatchedReaches(moved, choice, max);
    }
  }

  /** A look at turn `r`, no later than `due`, found goal `m` to hold. */
  ghost predicate MetAt(u: Universe, choices: seq<Choice>, max: nat, r: nat, m: nat, due: Time) {
    && r < |choices| && m < |RegistryAt(u, choices, max, r + 1).goals|
    && choices[r].sample.goals(m) && StateAt(u, choices, max, r + 1).now <= due
  }

  ghost predicate MetBy(u: Universe, choices: seq<Choice>, max: nat, n: nat, m: nat, due: Time) {
    exists r: nat | r < n :: MetAt(u, choices, max, r, m, due)
  }

  lemma {:induction false} ReachedIsMet(u: Universe, choices: seq<Choice>, max: nat, n: nat, m: nat)
    requires n <= |choices| && Reached(StateAt(u, choices, max, n), m)
    ensures m < |RegistryAt(u, choices, max, n).goals|
    ensures MetBy(u, choices, max, n, m, RegistryAt(u, choices, max, n).goals[m].Due())
  {
    RegistryIsExact(u, choices, max, n);
    if n == 0 {
      NothingSeenYet(u, choices, max, m);
    } else {
      RegistryGrows(u, choices, max, n - 1, n);
      var g := RegistryAt(u, choices, max, n).goals[m];
      if Reached(StateAt(u, choices, max, n - 1), m) {
        ReachedIsMet(u, choices, max, n - 1, m);
      } else {
        TurnGoals(u, choices, max, n - 1, m);
        TurnAt(u, choices, max, n - 1);
        RunKeepsInv(u, choices[..n - 1], max);
        TurnReaches(After(u, choices[..n - 1], max).0, choices[n - 1], max);
        assert MetAt(u, choices, max, n - 1, m, g.Due());
      }
    }
  }

  lemma UnreachedIsOpen(u: Universe, choices: seq<Choice>, max: nat, m: nat)
    requires m < |RegistryAt(u, choices, max, |choices|).goals| && !Reached(After(u, choices, max).0, m)
    ensures After(u, choices, max).0.now <= RegistryAt(u, choices, max, |choices|).goals[m].Due()
  {
    assert choices[..|choices|] == choices;
    RegistryIsExact(u, choices, max, |choices|);
    RunKeepsInv(u, choices, max);
    var s := After(u, choices, max).0;
    assert s.monitors.eventually[m] in s.monitors.eventually;
  }

  /** At no boundary since its registration did the goal hold. */
  ghost predicate NeverHeld(u: Universe, choices: seq<Choice>, max: nat, m: nat) {
    forall r: nat | r < |choices| :: !GoalHeldAt(u, choices, max, r, m)
  }

  lemma UnreachedNeverHeld(u: Universe, choices: seq<Choice>, max: nat, m: nat)
    requires !Reached(After(u, choices, max).0, m)
    ensures NeverHeld(u, choices, max, m)
  {
    InTheEnd(u, choices, max);
    GoalsAreExact(u, choices, max, |choices|, m);
  }

  /** Bounded liveness over whole runs: a goal registered at one time with some bound either held at a look
      no later than that bound, or it has held at no boundary since and the bound has not run out. */
  lemma GoalsAreMet(u: Universe, choices: seq<Choice>, max: nat, m: nat)
    requires m < |RegistryAt(u, choices, max, |choices|).goals|
    ensures
      var due := RegistryAt(u, choices, max, |choices|).goals[m].Due();
      || MetBy(u, choices, max, |choices|, m, due)
      || (NeverHeld(u, choices, max, m) && After(u, choices, max).0.now <= due)
  {
    if Reached(After(u, choices, max).0, m) {
      InTheEnd(u, choices, max);
      ReachedIsMet(u, choices, max, |choices|, m);
    } else {
      UnreachedIsOpen(u, choices, max, m);
      UnreachedNeverHeld(u, choices, max, m);
    }
  }

  /** A bound asked for is a bound kept: an `eventually` called at turn `n` is among the goals from then on,
      counted from the instant of the call. */
  lemma EventuallyRegisters(u: Universe, choices: seq<Choice>, max: nat, n: nat, name: string, within: Time)
    returns (m: nat)
    requires n < |choices| && CalledAt(u, choices, max, n)
    requires WatchEventually(name, within) in choices[n].effects && within > 0.0
    ensures m < |RegistryAt(u, choices, max, |choices|).goals|
    ensures RegistryAt(u, choices, max, |choices|).goals[m] == Goal(name, StateAt(u, choices, max, n + 1).now, within)
  {
    m := PlusAllHas(RegistryAt(u, choices, max, n), choices[n].effects, StateAt(u, choices, max, n + 1).now,
                    name, within);
    RegistryGrows(u, choices, max, n + 1, |choices|);
  }

  lemma {:induction false} PlusAllHas(r: Registry, effects: seq<Effect>, at: Time, name: string, within: Time)
    returns (m: nat)
    requires WatchEventually(name, within) in effects && within > 0.0
    ensures m < |r.PlusAll(effects, at).goals| && r.PlusAll(effects, at).goals[m] == Goal(name, at, within)
  {
    var last := |effects| - 1;
    if effects[last] == WatchEventually(name, within) {
      m := |r.PlusAll(effects[..last], at).goals|;
    } else {
      m := PlusAllHas(r, effects[..last], at, name, within);
    }
  }

  /** Bounded response, with the bound that was registered. */
  lemma TriggersAreAnsweredAsRegistered(u: Universe, choices: seq<Choice>, max: nat, n: nat, m: nat)
    requires RanAt(u, choices, max, n) && m < |RegistryAt(u, choices, max, n + 1).bounds|
    requires choices[n].sample.triggers(m)
    ensures
      var within := RegistryAt(u, choices, max, n + 1).bounds[m].within;
      Answered(u, choices, max, n, m, StateAt(u, choices, max, n + 1).now + within)
  {
    RegistryIsExact(u, choices, max, n + 1);
    TriggersAreAnswered(u, choices, max, n, m);
  }

  // ---------------------------------------------------------------------------------------------
  // Liveness violations
  // ---------------------------------------------------------------------------------------------

  /** The violation is goal `m`'s: it held at no boundary, nor when it was due. */
  ghost predicate GoalMissed(u: Universe, choices: seq<Choice>, max: nat, sample: Sample, v: Violation, m: nat) {
    && m < |RegistryAt(u, choices, max, |choices|).goals|
    && v == RegistryAt(u, choices, max, |choices|).goals[m].Missed()
    && NeverHeld(u, choices, max, m) && !sample.goals(m)
  }

  /** The violation is monitor `m`'s: its trigger held at the boundary of turn `n`, and its response at no look
      since, nor when it was due. */
  ghost predicate ResponseMissed(
    u: Universe, choices: seq<Choice>, max: nat, sample: Sample, v: Violation, m: nat, n: nat)
  {
    && m < |RegistryAt(u, choices, max, |choices|).bounds|
    && RanAt(u, choices, max, n) && choices[n].sample.triggers(m)
    && v == RegistryAt(u, choices, max, |choices|).bounds[m].Missed(StateAt(u, choices, max, n + 1).now)
    && (forall r | n <= r < |choices| :: !RespondsAt(u, choices, max, r, m)) && !sample.responses(m)
  }

  /** A look that saw a trigger was had at a boundary, whose sample said so. */
  lemma TriggerHasTurn(u: Universe, choices: seq<Choice>, max: nat, m: nat, k: nat) returns (n: nat)
    requires
      var seen := SeenBy(After(u, choices, max).0, m);
      k < |seen| && seen[k].Boundary? && seen[k].trigger
    ensures RanAt(u, choices, max, n) && choices[n].sample.triggers(m)
    ensures |SeenBy(StateAt(u, choices, max, n), m)| == k
    ensures SeenBy(After(u, choices, max).0, m)[k].time == StateAt(u, choices, max, n + 1).now
  {
    InTheEnd(u, choices, max);
    n := LookHasTurn(u, choices, max, |choices|, m, k);
    TurnObserved(u, choices, max, n);
    MonitorsStay(u, choices, max, n + 1, |choices|);
    var d := StateAt(u, choices, max, n + 1);
    assert m < |d.monitors.leadsTo|;
    assert SeenBy(d, m)[k] == SeenBy(After(u, choices, max).0, m)[k];
  }

  lemma OverdueIsMissed(u: Universe, choices: seq<Choice>, max: nat, sample: Sample, v: Violation, m: nat)
    returns (n: nat)
    requires m < |After(u, choices, max).0.monitors.leadsTo|
    requires
      var l := After(u, choices, max).0.monitors.leadsTo[m];
      Overdue(l, v.t) && v == Violation(l.name, Liveness, v.t) && !sample.responses(m)
    ensures ResponseMissed(u, choices, max, sample, v, m, n)
  {
    InTheEnd(u, choices, max);
    RegistryIsExact(u, choices, max, |choices|);
    var l := After(u, choices, max).0.monitors.leadsTo[m];
    var k: nat :| Owed(l.seen, k) && l.seen[k].time + l.within == v.t;
    n := TriggerHasTurn(u, choices, max, m, k);
    forall r | n <= r < |choices| ensures !RespondsAt(u, choices, max, r, m) {
      NoAnswerNoTurn(u, choices, max, n, m, k, r);
    }
  }

  /** When a turn raises a liveness violation, it is for a registered goal that never held, raised at the
      instant of its registration plus its bound, or for a trigger that was never answered, raised at the
      instant of its boundary plus the registered bound; and that instant is now. */
  lemma LivenessViolationsAreReal(u: Universe, choices: seq<Choice>, choice: Choice, max: nat)
    requires Continues(After(u, choices, max).1)
    requires
      var outcome := After(u, choices, max).0.RunOnce(choice, max).1;
      outcome.Violated? && outcome.violation.kind == Liveness
    ensures
      var (d, outcome) := After(u, choices, max).0.RunOnce(choice, max);
      var v := outcome.violation;
      && v.t == d.now
      && (|| (exists m :: GoalMissed(u, choices, max, choice.sample, v, m))
          || (exists m, n :: ResponseMissed(u, choices, max, choice.sample, v, m, n)))
  {
    RunKeepsInv(u, choices, max);
    var s := After(u, choices, max).0;
    var (d, outcome) := s.RunOnce(choice, max);
    var v := outcome.violation;
    RunOnceInTime(s, choice, max);
    assert RealFailure(s.monitors, d.now, choice.sample, v);
    if i: nat :| i < |s.monitors.eventually| && GoalFails(s.monitors.eventually[i], d.now, choice.sample.goals(i), v) {
      FailedGoal(u, choices, max, choice.sample, v, d.now, i);
    } else {
      var i: nat :| i < |s.monitors.leadsTo| && Overdue(s.monitors.leadsTo[i], d.now)
                    && ResponseFails(s.monitors.leadsTo[i], d.now, choice.sample.responses(i), v);
      var n := OverdueIsMissed(u, choices, max, choice.sample, v, i);
    }
  }

  lemma FailedGoal(u: Universe, choices: seq<Choice>, max: nat, sample: Sample, v: Violation, now: Time, m: nat)
    requires m < |After(u, choices, max).0.monitors.eventually|
    requires GoalFails(After(u, choices, max).0.monitors.eventually[m], now, sample.goals(m), v)
    ensures GoalMissed(u, choices, max, sample, v, m)
  {
    InTheEnd(u, choices, max);
    RegistryIsExact(u, choices, max, |choices|);
    UnreachedNeverHeld(u, choices, max, m);
  }
}
