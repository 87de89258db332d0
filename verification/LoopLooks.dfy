/** What the monitors get to see (src/simloom/_loop.py:382-384, 412-428): every boundary a step reaches, with the
    answers of its own sample, and at their deadlines a recheck; and how a turn ends because of it. */
module LoopLooks {
  import opened Clock
  import opened Monitors
  import opened Loops
  import opened LoopDeadlines

  // ---------------------------------------------------------------------------------------------
  // One turn of the loop
  // ---------------------------------------------------------------------------------------------

  /** The looks a `leads_to` monitor has had; none before it is registered. */
  function SeenBy(s: LoopState, m: nat): seq<Look> {
    if m < |s.monitors.leadsTo| then s.monitors.leadsTo[m].seen else []
  }

  /** Whether a goal counts as reached; not before it is registered. */
  function Reached(s: LoopState, m: nat): bool {
    m < |s.monitors.eventually| && s.monitors.eventually[m].satisfied
  }

  /** Monitors stay what they were registered as. */
  ghost predicate SameMonitors(s: MonitorState, d: MonitorState) {
    && s.always <= d.always && |s.eventually| <= |d.eventually| && |s.leadsTo| <= |d.leadsTo|
    && (forall m | 0 <= m < |s.eventually| ::
          d.eventually[m].name == s.eventually[m].name && d.eventually[m].deadline == s.eventually[m].deadline)
    && (forall m | 0 <= m < |s.leadsTo| ::
          d.leadsTo[m].name == s.leadsTo[m].name && d.leadsTo[m].within == s.leadsTo[m].within)
  }

  /** After a handle ran without a broken invariant, every monitor has looked at the boundary. */
  ghost predicate LookedAtBoundary(s: LoopState, d: LoopState, sample: Sample) {
    && (forall m: nat | m < |d.monitors.leadsTo| ::
          SeenBy(d, m) == SeenBy(s, m) + [Boundary(d.now, sample.triggers(m), sample.responses(m))])
    && (forall m: nat | m < |d.monitors.eventually| :: Reached(d, m) <==> Reached(s, m) || sample.goals(m))
  }

  /** Otherwise at most rechecks were made, of what was due. */
  ghost predicate AtMostRechecked(s: LoopState, d: LoopState, sample: Sample) {
    && (forall m: nat | m < |d.monitors.leadsTo| ::
          || SeenBy(d, m) == SeenBy(s, m)
          || SeenBy(d, m) == SeenBy(s, m) + [Recheck(d.now, sample.responses(m))])
    && (forall m: nat | m < |d.monitors.eventually| ::
          Reached(d, m) == Reached(s, m) || (Reached(d, m) && sample.goals(m)))
  }

  ghost predicate Observed(s: LoopState, d: LoopState, outcome: Outcome, sample: Sample) {
    && SameMonitors(s.monitors, d.monitors)
    && if outcome.Ran? then LookedAtBoundary(s, d, sample) else AtMostRechecked(s, d, sample)
  }

  /** Callbacks only register monitors, which have seen nothing yet. */
  ghost predicate OnlyRegistered(s: LoopState, d: LoopState) {
    && d.now == s.now && SameMonitors(s.monitors, d.monitors)
    && (forall m: nat :: SeenBy(d, m) == SeenBy(s, m))
    && (forall m: nat :: Reached(d, m) == Reached(s, m))
  }

  lemma {:induction false} EffectsRegister(s: LoopState, effects: seq<Effect>)
    ensures OnlyRegistered(s, s.AffectedAll(effects))
  {
    if effects != [] {
      EffectsRegister(s, effects[..|effects| - 1]);
    }
  }

  lemma BoundaryObserved(s: LoopState, d: LoopState, sample: Sample)
    requires s.monitors.AfterStep(s.now, sample).1.None?
    requires d == s.(monitors := s.monitors.AfterStep(s.now, sample).0)
    ensures SameMonitors(s.monitors, d.monitors) && LookedAtBoundary(s, d, sample)
  {
  }

  lemma EnforcedObserved(s: LoopState, sample: Sample)
    ensures
      var (d, outcome) := s.Enforced(sample);
      Observed(s, d, outcome, sample) && d == s.(monitors := d.monitors)
  {
    FireGoalsKeeps(s.monitors.eventually, s.now, sample, 0);
    FireResponsesKeeps(s.monitors.leadsTo, s.now, sample, 0);
  }

  /** What a step adds to the history of steps, and how it ends. */
  ghost predicate EndsExactly(s: LoopState, d: LoopState, outcome: Outcome, sample: Sample) {
    var ran := exists h :: d.ran == s.ran + [Step(h, d.now)];
    var broken := FirstBroken(d.monitors.always, sample, 0);
    && (d.ran == s.ran || ran)
    && (outcome.Ran? <==> ran && broken.None?)
    && (outcome.Violated? && outcome.violation.kind == Safety <==> ran && broken.Some?)
    && (outcome.Violated? && outcome.violation.kind == Safety ==>
          broken.Some? && outcome.violation == Violation(d.monitors.always[broken.value].name, Safety, d.now))
  }

  lemma {:induction false} EffectsRunNothing(s: LoopState, effects: seq<Effect>)
    ensures s.AffectedAll(effects).ran == s.ran
  {
    if effects != [] {
      EffectsRunNothing(s, effects[..|effects| - 1]);
    }
  }

  /** The chosen callback has run; the monitors have not looked yet. */
  ghost function CalledBack(s: LoopState, choice: Choice): LoopState
    requires s.ready != []
  {
    var index := choice.pick % |s.ready|;
    var counted := s.(ready := s.ready[..index] + s.ready[index + 1..]).Counted();
    counted.(ran := s.ran + [Step(s.ready[index], s.now)]).AffectedAll(choice.effects)
  }

  lemma CalledBackRegisters(s: LoopState, choice: Choice)
    requires s.ready != []
    ensures
      var after := CalledBack(s, choice);
      OnlyRegistered(s, after) && after.ran == s.ran + [Step(s.ready[choice.pick % |s.ready|], s.now)]
  {
    var index := choice.pick % |s.ready|;
    var counted := s.(ready := s.ready[..index] + s.ready[index + 1..]).Counted();
    var started := counted.(ran := s.ran + [Step(s.ready[index], s.now)]);
    EffectsRegister(started, choice.effects);
    EffectsRunNothing(started, choice.effects);
    assert forall m: nat :: SeenBy(s, m) == SeenBy(started, m) && Reached(s, m) == Reached(started, m);
  }

  lemma SteppedObserved(s: LoopState, choice: Choice, max: nat)
    requires s.ready != []
    ensures
      var (d, outcome) := s.Stepped(choice, max);
      d.now == s.now && Observed(s, d, outcome, choice.sample)
  {
    var after := CalledBack(s, choice);
    CalledBackRegisters(s, choice);
    var (d, outcome) := s.Stepped(choice, max);
    if outcome.Livelock? {
      assert forall m: nat :: SeenBy(d, m) == SeenBy(s, m) && Reached(d, m) == Reached(s, m);
    } else if outcome.Ran? {
      BoundaryObserved(after, d, choice.sample);
    }
  }

  lemma SteppedEnds(s: LoopState, choice: Choice, max: nat)
    requires s.ready != []
    ensures
      var (d, outcome) := s.Stepped(choice, max);
      EndsExactly(s, d, outcome, choice.sample)
  {
    CalledBackRegisters(s, choice);
    var (d, outcome) := s.Stepped(choice, max);
    assert forall h :: |s.ran + [Step(h, d.now)]| == |s.ran| + 1;
  }

  /** The same calls have been made. */
  ghost predicate SameBooks(s: LoopState, d: LoopState) {
    d.handles == s.handles && d.cancelled == s.cancelled && d.crashed == s.crashed
  }

  lemma {:induction false} SiftingRunsNothing(s: LoopState, hs: seq<HandleId>)
    ensures s.SiftAll(hs).ran == s.ran && s.SiftAll(hs).now == s.now && s.SiftAll(hs).monitors == s.monitors
    ensures SameBooks(s, s.SiftAll(hs))
  {
    if hs != [] {
      SiftingRunsNothing(s, hs[..|hs| - 1]);
    }
  }

  lemma {:induction false} DroppingRunsNothing(s: LoopState)
    ensures s.DropTop().ran == s.ran && s.DropTop().now == s.now && s.DropTop().monitors == s.monitors
    ensures SameBooks(s, s.DropTop())
    decreases |s.scheduled|
  {
    if s.scheduled != [] && s.scheduled[0].handle in s.cancelled {
      DroppingRunsNothing(s.(scheduled := s.scheduled[1..], dropped := s.dropped + [s.scheduled[0].handle]));
    }
  }

  lemma {:induction false} ReleasingRunsNothing(s: LoopState)
    ensures s.Released().ran == s.ran && s.Released().now == s.now && s.Released().monitors == s.monitors
    ensures SameBooks(s, s.Released())
    decreases |s.scheduled|
  {
    if s.scheduled != [] && s.scheduled[0].when <= s.now {
      ReleasingRunsNothing(s.(scheduled := s.scheduled[1..]).Sift(s.scheduled[0].handle));
    }
  }

  /** The two states differ in nothing the monitors or the history of steps are about. */
  ghost predicate Alike(s: LoopState, t: LoopState) {
    t.ran == s.ran && t.monitors == s.monitors
  }

  /** A turn shows every monitor the boundary it reaches, if it reaches one; and it ends as the sample of
      that boundary says. */
  ghost predicate Faithfully(s: LoopState, d: LoopState, outcome: Outcome, sample: Sample) {
    Observed(s, d, outcome, sample) && EndsExactly(s, d, outcome, sample)
  }

  lemma AlikeFaithfully(s: LoopState, t: LoopState, d: LoopState, outcome: Outcome, sample: Sample)
    requires Alike(s, t) && Faithfully(t, d, outcome, sample)
    ensures Faithfully(s, d, outcome, sample)
  {
    assert forall m: nat :: SeenBy(s, m) == SeenBy(t, m) && Reached(s, m) == Reached(t, m);
  }

  lemma NothingFaithfully(s: LoopState, d: LoopState, outcome: Outcome, sample: Sample)
    requires Alike(s, d) && (outcome.Idle? || outcome.Deadlock?)
    ensures Faithfully(s, d, outcome, sample)
  {
    assert forall m: nat :: SeenBy(s, m) == SeenBy(d, m) && Reached(s, m) == Reached(d, m);
    assert forall h :: |s.ran + [Step(h, d.now)]| == |s.ran| + 1;
  }

  lemma DispatchedFaithfully(s: LoopState, choice: Choice, max: nat)
    ensures var (d, outcome) := s.Dispatched(choice, max); Faithfully(s, d, outcome, choice.sample)
  {
    ReleasingRunsNothing(s);
    var r := s.Released();
    var (d, outcome) := s.Dispatched(choice, max);
    if r.ready == [] {
      NothingFaithfully(s, r, Idle, choice.sample);
    } else {
      SteppedObserved(r, choice, max);
      SteppedEnds(r, choice, max);
      AlikeFaithfully(s, r, d, outcome, choice.sample);
    }
  }

  /** Enforcing runs nothing, and reports no broken invariant. */
  lemma EnforcedFaithfully(s: LoopState, sample: Sample)
    ensures var (d, outcome) := s.Enforced(sample); Faithfully(s, d, outcome, sample)
  {
    EnforcedObserved(s, sample);
    FireGoalsKeeps(s.monitors.eventually, s.now, sample, 0);
    FireResponsesKeeps(s.monitors.leadsTo, s.now, sample, 0);
    var (d, outcome) := s.Enforced(sample);
    assert forall h :: |s.ran + [Step(h, d.now)]| == |s.ran| + 1;
  }

  lemma TurnFaithfully(s: LoopState, choice: Choice, max: nat)
    ensures var (d, outcome) := s.RunOnce(choice, max); Faithfully(s, d, outcome, choice.sample)
  {
    DroppingRunsNothing(s);
    SiftingRunsNothing(s.DropTop().(ready := []), s.DropTop().ready);
    var clean := s.DropTop().Compacted();
    var (d, outcome) := s.RunOnce(choice, max);
    if clean.ready != [] {
      DispatchedFaithfully(clean, choice, max);
      AlikeFaithfully(s, clean, d, outcome, choice.sample);
    } else if clean.scheduled == [] {
      NothingFaithfully(s, clean, Deadlock, choice.sample);
    } else {
      var deadline, target := clean.monitors.NextDeadline(), clean.scheduled[0].when;
      var t := if deadline.Some? && deadline.value <= clean.now then clean.now
               else if deadline.Some? && deadline.value < target then deadline.value
               else Later(target, clean.now);
      var moved := clean.(now := t);
      EnforcedFaithfully(moved, choice.sample);
      DispatchedFaithfully(moved, choice, max);
      AlikeFaithfully(s, moved, d, outcome, choice.sample);
    }
  }
}
