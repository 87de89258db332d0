/** Event loop and monitors together (src/simloom/_loop.py:322-352, 386-428): deadlines are met
    exactly, and the loop makes progress. */
module LoopDeadlines {
  import opened Wrappers
  import opened Clock
  import opened Monitors
  import opened Responses
  import opened Loops

  // ---------------------------------------------------------------------------------------------
  // No deadline is ever overrun
  // ---------------------------------------------------------------------------------------------

  /** The slot of a `leads_to` monitor is what its history of looks says, and it is not overdue. */
  ghost predicate Faithful(l: LeadsTo, now: Time) {
    && l.within > 0.0
    && l.armed == ArmedBy(l.within, l.seen)
    && OnTime(l.armed, now)
    && Ordered(l.seen) && Timely(l.within, l.seen)
    && forall look | look in l.seen :: look.time <= now
  }

  /** Every armed deadline lies at or after the clock. */
  ghost predicate InTime(m: MonitorState, now: Time) {
    && (forall e | e in m.eventually :: !e.satisfied ==> now <= e.deadline)
    && (forall l | l in m.leadsTo :: Faithful(l, now))
  }

  lemma LookKeepsOrder(within: Time, seen: seq<Look>, look: Look)
    requires Ordered(seen) && Timely(within, seen)
    requires forall before | before in seen :: before.time <= look.time
    requires OnTime(ArmedBy(within, seen), look.time)
    ensures Ordered(seen + [look]) && Timely(within, seen + [look])
  {
    var all := seen + [look];
    forall n | 0 <= n < |all| ensures OnTime(ArmedBy(within, all[..n]), all[n].time) {
      assert all[..n] == seen[..n];
      if n < |seen| {
        assert OnTime(ArmedBy(within, seen[..n]), seen[n].time);
      } else {
        assert seen[..n] == seen;
      }
    }
    assert forall i | 0 <= i < |seen| :: seen[i] in seen;
  }

  lemma LookFaithful(l: LeadsTo, d: LeadsTo, now: Time, look: Look)
    requires Faithful(l, now) && look.time == now
    requires d.within == l.within && d.seen == l.seen + [look]
    requires d.armed == ArmedBy(l.within, l.seen + [look]) && OnTime(d.armed, now)
    ensures Faithful(d, now)
  {
    LookKeepsOrder(l.within, l.seen, look);
    forall x | x in d.seen ensures x.time <= now {
      assert x in l.seen || x == look;
    }
  }

  lemma BoundaryFaithful(l: LeadsTo, now: Time, trigger: bool, response: bool)
    requires Faithful(l, now)
    ensures Faithful(l.AtBoundary(now, trigger, response), now)
  {
    LookArms(l.within, l.seen, Boundary(now, trigger, response));
    LookFaithful(l, l.AtBoundary(now, trigger, response), now, Boundary(now, trigger, response));
  }

  lemma RecheckFaithful(l: LeadsTo, now: Time, response: bool)
    requires Faithful(l, now)
    ensures Faithful(l.Rechecked(now, response), now)
  {
    LookArms(l.within, l.seen, Recheck(now, response));
    LookFaithful(l, l.Rechecked(now, response), now, Recheck(now, response));
  }

  lemma AfterStepInTime(m: MonitorState, now: Time, sample: Sample)
    requires InTime(m, now)
    ensures InTime(m.AfterStep(now, sample).0, now)
  {
    var d := m.AfterStep(now, sample).0;
    if FirstBroken(m.always, sample, 0).None? {
      forall e | e in d.eventually ensures !e.satisfied ==> now <= e.deadline {
        var i :| 0 <= i < |d.eventually| && d.eventually[i] == e;
        assert m.eventually[i] in m.eventually;
      }
      forall l | l in d.leadsTo ensures Faithful(l, now) {
        var i :| 0 <= i < |d.leadsTo| && d.leadsTo[i] == l;
        assert m.leadsTo[i] in m.leadsTo;
        BoundaryFaithful(m.leadsTo[i], now, sample.triggers(i), sample.responses(i));
      }
    }
  }

  // --- enforcing deadlines ---

  ghost predicate GoalFails(e: Eventually, now: Time, reached: bool, v: Violation) {
    e.Due(now) && !reached && v == Violation(e.name, Liveness, e.deadline)
  }

  ghost predicate ResponseFails(l: LeadsTo, now: Time, response: bool, v: Violation) {
    l.Due(now) && !response && v == Violation(l.name, Liveness, l.armed.value)
  }

  lemma {:induction false} FireGoalsKeeps(eventually: seq<Eventually>, now: Time, sample: Sample, i: nat)
    requires i <= |eventually|
    ensures
      var (d, violation) := FireGoals(eventually, now, sample, i);
      && (forall j: nat | j < |d| ::
            || d[j] == eventually[j]
            || (j >= i && eventually[j].Due(now) && sample.goals(j) && d[j] == eventually[j].(satisfied := true)))
      && (violation.None? ==> forall j: nat | i <= j < |d| :: !d[j].Due(now))
      && (violation.Some? ==> exists j: nat | i <= j < |eventually| ::
            GoalFails(eventually[j], now, sample.goals(j), violation.value))
    decreases |eventually| - i
  {
    if i < |eventually| {
      if !eventually[i].Due(now) {
        FireGoalsKeeps(eventually, now, sample, i + 1);
      } else if sample.goals(i) {
        FireGoalsKeeps(eventually[i := eventually[i].(satisfied := true)], now, sample, i + 1);
      } else {
        assert GoalFails(eventually[i], now, sample.goals(i), FireGoals(eventually, now, sample, i).1.value);
      }
    }
  }

  lemma {:induction false} FireResponsesKeeps(leadsTo: seq<LeadsTo>, now: Time, sample: Sample, i: nat)
    requires i <= |leadsTo|
    ensures
      var (d, violation) := FireResponses(leadsTo, now, sample, i);
      && (forall j: nat | j < |d| ::
            || d[j] == leadsTo[j]
            || (j >= i && leadsTo[j].Due(now) && d[j] == leadsTo[j].Rechecked(now, sample.responses(j))))
      && (violation.None? ==> forall j: nat | i <= j < |d| :: !d[j].Due(now))
      && (violation.Some? ==> exists j: nat | i <= j < |leadsTo| ::
            ResponseFails(leadsTo[j], now, sample.responses(j), violation.value))
    decreases |leadsTo| - i
  {
    if i < |leadsTo| {
      if !leadsTo[i].Due(now) {
        FireResponsesKeeps(leadsTo, now, sample, i + 1);
      } else if sample.responses(i) {
        FireResponsesKeeps(leadsTo[i := leadsTo[i].Rechecked(now, true)], now, sample, i + 1);
      } else {
        assert ResponseFails(leadsTo[i], now, sample.responses(i), FireResponses(leadsTo, now, sample, i).1.value);
      }
    }
  }

  ghost predicate GoalUnmet(eventually: seq<Eventually>, now: Time, sample: Sample, i: nat) {
    i < |eventually| && eventually[i].Due(now) && !sample.goals(i)
  }

  ghost predicate ResponseUnmet(leadsTo: seq<LeadsTo>, now: Time, sample: Sample, i: nat) {
    i < |leadsTo| && leadsTo[i].Due(now) && !sample.responses(i)
  }

  lemma {:induction false} FirstUnmetGoal(eventually: seq<Eventually>, now: Time, sample: Sample, i: nat)
    returns (j: nat)
    requires i <= |eventually|
    ensures i <= j <= |eventually| && forall k: nat | i <= k < j :: !GoalUnmet(eventually, now, sample, k)
    ensures match FireGoals(eventually, now, sample, i).1
            case None => j == |eventually|
            case Some(v) => GoalUnmet(eventually, now, sample, j)
                            && v == Violation(eventually[j].name, Liveness, eventually[j].deadline)
    decreases |eventually| - i
  {
    j := i;
    if i < |eventually| && !GoalUnmet(eventually, now, sample, i) {
      var next := if eventually[i].Due(now) then eventually[i := eventually[i].(satisfied := true)] else eventually;
      j := FirstUnmetGoal(next, now, sample, i + 1);
      forall k: nat | i < k ensures GoalUnmet(eventually, now, sample, k) == GoalUnmet(next, now, sample, k) {
      }
    }
  }

  lemma {:induction false} FirstUnmetResponse(leadsTo: seq<LeadsTo>, now: Time, sample: Sample, i: nat)
    returns (j: nat)
    requires i <= |leadsTo|
    ensures i <= j <= |leadsTo| && forall k: nat | i <= k < j :: !ResponseUnmet(leadsTo, now, sample, k)
    ensures match FireResponses(leadsTo, now, sample, i).1
            case None => j == |leadsTo|
            case Some(v) => ResponseUnmet(leadsTo, now, sample, j)
                            && v == Violation(leadsTo[j].name, Liveness, leadsTo[j].armed.value)
    decreases |leadsTo| - i
  {
    j := i;
    if i < |leadsTo| && !ResponseUnmet(leadsTo, now, sample, i) {
      var next := if leadsTo[i].Due(now) then leadsTo[i := leadsTo[i].Rechecked(now, true)] else leadsTo;
      j := FirstUnmetResponse(next, now, sample, i + 1);
      forall k: nat | i < k ensures ResponseUnmet(leadsTo, now, sample, k) == ResponseUnmet(next, now, sample, k) {
      }
    }
  }

  /** Enforcing reports the first goal that is due and does not hold, or if there is none, the first
      response; nothing exactly if there is neither. */
  lemma FireDueReportsTheFirst(m: MonitorState, now: Time, sample: Sample) returns (i: nat, j: nat)
    ensures forall k: nat | k < i :: !GoalUnmet(m.eventually, now, sample, k)
    ensures forall k: nat | k < j :: !ResponseUnmet(m.leadsTo, now, sample, k)
    ensures
      var violation := m.FireDue(now, sample).1;
      if GoalUnmet(m.eventually, now, sample, i) then
        violation == Some(Violation(m.eventually[i].name, Liveness, m.eventually[i].deadline))
      else
        && i == |m.eventually|
        && if ResponseUnmet(m.leadsTo, now, sample, j) then
             violation == Some(Violation(m.leadsTo[j].name, Liveness, m.leadsTo[j].armed.value))
           else j == |m.leadsTo| && violation.None?
  {
    i := FirstUnmetGoal(m.eventually, now, sample, 0);
    j := FirstUnmetResponse(m.leadsTo, now, sample, 0);
  }

  lemma FireGoalsInTime(m: MonitorState, now: Time, sample: Sample)
    requires InTime(m, now)
    ensures forall e | e in FireGoals(m.eventually, now, sample, 0).0 :: !e.satisfied ==> now <= e.deadline
  {
    var d := FireGoals(m.eventually, now, sample, 0).0;
    FireGoalsKeeps(m.eventually, now, sample, 0);
    forall e | e in d ensures !e.satisfied ==> now <= e.deadline {
      var i :| 0 <= i < |d| && d[i] == e;
      assert m.eventually[i] in m.eventually;
    }
  }

  lemma FireResponsesInTime(m: MonitorState, now: Time, sample: Sample)
    requires InTime(m, now)
    ensures forall l | l in FireResponses(m.leadsTo, now, sample, 0).0 :: Faithful(l, now)
  {
    var d := FireResponses(m.leadsTo, now, sample, 0).0;
    FireResponsesKeeps(m.leadsTo, now, sample, 0);
    forall l | l in d ensures Faithful(l, now) {
      var i: nat :| i < |d| && d[i] == l;
      assert m.leadsTo[i] in m.leadsTo;
      RecheckFaithful(m.leadsTo[i], now, sample.responses(i));
    }
  }

  lemma FireDueInTime(m: MonitorState, now: Time, sample: Sample)
    requires InTime(m, now)
    ensures InTime(m.FireDue(now, sample).0, now)
  {
    FireGoalsInTime(m, now, sample);
    FireResponsesInTime(m, now, sample);
  }

  /** What a liveness violation at `now` means: a goal whose deadline is now and is not reached, or a
      trigger exactly `within` ago that no look since has answered. */
  ghost predicate RealFailure(m: MonitorState, now: Time, sample: Sample, v: Violation) {
    && v.kind == Liveness && v.t == now
    && (|| (exists i: nat | i < |m.eventually| ::
              GoalFails(m.eventually[i], now, sample.goals(i), v) && m.eventually[i].deadline == now)
        || (exists i: nat | i < |m.leadsTo| ::
              ResponseFails(m.leadsTo[i], now, sample.responses(i), v) && Overdue(m.leadsTo[i], now)))
  }

  ghost predicate Overdue(l: LeadsTo, now: Time) {
    exists k: nat :: Owed(l.seen, k) && l.seen[k].time + l.within == now
  }

  lemma FireDueIsReal(m: MonitorState, now: Time, sample: Sample)
    requires InTime(m, now) && m.FireDue(now, sample).1.Some?
    ensures RealFailure(m, now, sample, m.FireDue(now, sample).1.value)
  {
    var v := m.FireDue(now, sample).1.value;
    FireGoalsKeeps(m.eventually, now, sample, 0);
    if FireGoals(m.eventually, now, sample, 0).1.Some? {
      var i: nat :| i < |m.eventually| && GoalFails(m.eventually[i], now, sample.goals(i), v);
      assert m.eventually[i] in m.eventually;
    } else {
      FireResponsesKeeps(m.leadsTo, now, sample, 0);
      var i: nat :| i < |m.leadsTo| && ResponseFails(m.leadsTo[i], now, sample.responses(i), v);
      assert m.leadsTo[i] in m.leadsTo;
      ViolationIsReal(m.leadsTo[i].within, m.leadsTo[i].seen, now);
      assert Overdue(m.leadsTo[i], now);
    }
  }

  /** The clock may move up to the next deadline. */
  lemma AdvanceInTime(m: MonitorState, now: Time, t: Time)
    requires InTime(m, now) && now <= t
    requires m.NextDeadline().Some? ==> t <= m.NextDeadline().value
    ensures InTime(m, t)
  {
    NextDeadlineIsLeast(m);
    forall l | l in m.leadsTo ensures Faithful(l, t) {
      assert Faithful(l, now);
      assert l.armed.Some? ==> Pending(m, l.armed.value);
    }
    forall e | e in m.eventually && !e.satisfied ensures t <= e.deadline {
      assert Pending(m, e.deadline);
    }
  }

  lemma {:induction false} AffectedInTime(s: LoopState, effects: seq<Effect>)
    requires InTime(s.monitors, s.now)
    ensures InTime(s.AffectedAll(effects).monitors, s.now) && s.AffectedAll(effects).now == s.now
  {
    if effects == [] {
    } else {
      var last := |effects| - 1;
      AffectedInTime(s, effects[..last]);
    }
  }

  lemma {:induction false} SiftAllMonitors(s: LoopState, hs: seq<HandleId>)
    ensures s.SiftAll(hs).monitors == s.monitors && s.SiftAll(hs).now == s.now
    ensures s.SiftAll(hs).scheduled == s.scheduled
  {
    if hs != [] {
      SiftAllMonitors(s, hs[..|hs| - 1]);
    }
  }

  lemma {:induction false} DropTopMonitors(s: LoopState)
    ensures s.DropTop().monitors == s.monitors && s.DropTop().now == s.now
    ensures |s.DropTop().scheduled| <= |s.scheduled|
    decreases |s.scheduled|
  {
    if s.scheduled != [] && s.scheduled[0].handle in s.cancelled {
      DropTopMonitors(s.(scheduled := s.scheduled[1..], dropped := s.dropped + [s.scheduled[0].handle]));
    }
  }

  lemma {:induction false} ReleasedMonitors(s: LoopState)
    ensures s.Released().monitors == s.monitors && s.Released().now == s.now
    ensures |s.Released().scheduled| <= |s.scheduled|
    ensures s.scheduled != [] && s.scheduled[0].when <= s.now ==> |s.Released().scheduled| < |s.scheduled|
    decreases |s.scheduled|
  {
    if s.scheduled != [] && s.scheduled[0].when <= s.now {
      ReleasedMonitors(s.(scheduled := s.scheduled[1..]).Sift(s.scheduled[0].handle));
    }
  }

  lemma SteppedInTime(s: LoopState, choice: Choice, max: nat)
    requires InTime(s.monitors, s.now) && s.ready != []
    ensures
      var (d, outcome) := s.Stepped(choice, max);
      && InTime(d.monitors, d.now) && !outcome.Idle?
      && (outcome.Violated? ==> outcome.violation.kind == Safety)
  {
    var index := choice.pick % |s.ready|;
    var h := s.ready[index];
    var counted := s.(ready := s.ready[..index] + s.ready[index + 1..]).Counted();
    if counted.instantSteps <= max {
      var stepped := counted.(ran := s.ran + [Step(h, s.now)]);
      AffectedInTime(stepped, choice.effects);
      AfterStepInTime(stepped.AffectedAll(choice.effects).monitors, s.now, choice.sample);
    }
  }

  // ---------------------------------------------------------------------------------------------
  // Progress
  // ---------------------------------------------------------------------------------------------

  function OpenGoals(eventually: seq<Eventually>): nat {
    if eventually == [] then 0 else OpenGoals(eventually[1..]) + if eventually[0].satisfied then 0 else 1
  }

  function ArmedSlots(leadsTo: seq<LeadsTo>): nat {
    if leadsTo == [] then 0 else ArmedSlots(leadsTo[1..]) + if leadsTo[0].armed.Some? then 1 else 0
  }

  /** How many deadlines are pending. */
  function Armed(m: MonitorState): nat {
    OpenGoals(m.eventually) + ArmedSlots(m.leadsTo)
  }

  lemma {:induction false} GoalsOnlyClose(before: seq<Eventually>, after: seq<Eventually>)
    requires |after| == |before|
    requires forall j | 0 <= j < |before| :: after[j] == before[j] || after[j] == before[j].(satisfied := true)
    ensures OpenGoals(after) <= OpenGoals(before)
    ensures
      (exists j | 0 <= j < |before| :: !before[j].satisfied && after[j].satisfied)
      ==> OpenGoals(after) < OpenGoals(before)
  {
    if before != [] {
      GoalsOnlyClose(before[1..], after[1..]);
      if j :| 0 < j < |before| && !before[j].satisfied && after[j].satisfied {
        assert !before[1..][j - 1].satisfied && after[1..][j - 1].satisfied;
      }
    }
  }

  lemma {:induction false} SlotsOnlyClear(before: seq<LeadsTo>, after: seq<LeadsTo>)
    requires |after| == |before|
    requires forall j | 0 <= j < |before| :: after[j].armed == before[j].armed || after[j].armed.None?
    ensures ArmedSlots(after) <= ArmedSlots(before)
    ensures
      (exists j | 0 <= j < |before| :: before[j].armed.Some? && after[j].armed.None?)
      ==> ArmedSlots(after) < ArmedSlots(before)
  {
    if before != [] {
      SlotsOnlyClear(before[1..], after[1..]);
      if j :| 0 < j < |before| && before[j].armed.Some? && after[j].armed.None? {
        assert before[1..][j - 1].armed.Some? && after[1..][j - 1].armed.None?;
      }
    }
  }

  /** Enforcing a deadline that has been reached either reports it or clears it. */
  lemma FireDueProgress(m: MonitorState, now: Time, sample: Sample)
    requires m.NextDeadline().Some? && m.NextDeadline().value <= now
    requires m.FireDue(now, sample).1.None?
    ensures Armed(m.FireDue(now, sample).0) < Armed(m)
  {
    var d := m.FireDue(now, sample).0;
    FireGoalsKeeps(m.eventually, now, sample, 0);
    FireResponsesKeeps(m.leadsTo, now, sample, 0);
    forall j | 0 <= j < |m.leadsTo| ensures d.leadsTo[j].armed == m.leadsTo[j].armed || d.leadsTo[j].armed.None? {
      var k: nat := j;
      assert d.leadsTo[k] == m.leadsTo[k] || d.leadsTo[k] == m.leadsTo[k].Rechecked(now, sample.responses(k));
    }
    GoalsOnlyClose(m.eventually, d.eventually);
    SlotsOnlyClear(m.leadsTo, d.leadsTo);
    NextDeadlineIsLeast(m);
    var t := m.NextDeadline().value;
    if e :| e in m.eventually && !e.satisfied && e.deadline == t {
      var i :| 0 <= i < |m.eventually| && m.eventually[i] == e;
      assert !d.eventually[i].Due(now);
    } else {
      var l :| l in m.leadsTo && l.armed == Some(t);
      var i: nat :| i < |m.leadsTo| && m.leadsTo[i] == l;
      assert !d.leadsTo[i].Due(now);
    }
  }

  ghost function Work(s: LoopState): nat {
    |s.scheduled| + Armed(s.monitors)
  }

  lemma DispatchedInTime(s: LoopState, choice: Choice, max: nat)
    requires InTime(s.monitors, s.now)
    ensures
      var (d, outcome) := s.Dispatched(choice, max);
      && InTime(d.monitors, d.now)
      && (outcome.Violated? ==> outcome.violation.kind == Safety)
      && (outcome.Idle? && s.scheduled != [] && s.scheduled[0].when <= s.now ==> Work(d) < Work(s))
      && (outcome.Idle? ==> s.Released().ready == [])
  {
    ReleasedMonitors(s);
    if s.Released().ready != [] {
      SteppedInTime(s.Released(), choice, max);
    }
  }

  lemma EnforcedInTime(s: LoopState, sample: Sample)
    requires InTime(s.monitors, s.now) && s.ready == []
    requires s.monitors.NextDeadline().Some? && s.monitors.NextDeadline().value <= s.now
    ensures
      var (d, outcome) := s.Enforced(sample);
      && InTime(d.monitors, d.now)
      && (outcome.Violated? ==> RealFailure(s.monitors, s.now, sample, outcome.violation))
      && (outcome.Idle? ==> Work(d) < Work(s))
  {
    FireDueInTime(s.monitors, s.now, sample);
    if s.monitors.FireDue(s.now, sample).1.Some? {
      FireDueIsReal(s.monitors, s.now, sample);
    } else {
      FireDueProgress(s.monitors, s.now, sample);
    }
  }

  /** How a liveness violation is raised: with nothing ready, and the clock exactly on the deadline. */
  ghost predicate RaisedInTime(s: LoopState, d: LoopState, sample: Sample, outcome: Outcome) {
    outcome.Violated? && outcome.violation.kind == Liveness ==>
      d.ready == [] && s.scheduled != [] && RealFailure(s.monitors, d.now, sample, outcome.violation)
  }

  lemma WaitedInTime(s: LoopState, choice: Choice, max: nat)
    requires InTime(s.monitors, s.now) && s.ready == []
    ensures
      var (d, outcome) := s.Waited(choice, max);
      && InTime(d.monitors, d.now)
      && RaisedInTime(s, d, choice.sample, outcome)
      && (outcome.Idle? ==> Work(d) < Work(s))
      && (outcome.Deadlock? <==> s.scheduled == [])
  {
    if s.scheduled != [] {
      var deadline := s.monitors.NextDeadline();
      var target := s.scheduled[0].when;
      if deadline.Some? && deadline.value <= s.now {
        EnforcedInTime(s, choice.sample);
      } else if deadline.Some? && deadline.value < target {
        AdvanceInTime(s.monitors, s.now, deadline.value);
        EnforcedInTime(s.(now := deadline.value), choice.sample);
      } else {
        AdvanceInTime(s.monitors, s.now, Later(target, s.now));
        DispatchedInTime(s.(now := Later(target, s.now)), choice, max);
        NoDeadlock(s.(now := Later(target, s.now)), choice, max);
      }
    }
  }

  lemma NoDeadlock(s: LoopState, choice: Choice, max: nat)
    ensures !s.Dispatched(choice, max).1.Deadlock?
  {
  }

  lemma {:induction false} ReadyStays(s: LoopState)
    ensures s.ready <= s.Released().ready
    decreases |s.scheduled|
  {
    if s.scheduled != [] && s.scheduled[0].when <= s.now {
      ReadyStays(s.(scheduled := s.scheduled[1..]).Sift(s.scheduled[0].handle));
    }
  }

  /** Every pending deadline stays at or after the clock, so none is skipped; a liveness violation is
      raised with the clock on its deadline, nothing ready and a real failure behind it; quiescence is
      a deadlock whatever deadlines are pending; and a step that runs nothing and raises nothing uses
      up a timer or a deadline. */
  lemma RunOnceInTime(s: LoopState, choice: Choice, max: nat)
    requires InTime(s.monitors, s.now)
    ensures
      var clean := s.DropTop().Compacted();
      var (d, outcome) := s.RunOnce(choice, max);
      && InTime(d.monitors, d.now)
      && RaisedInTime(clean, d, choice.sample, outcome) && clean.monitors == s.monitors
      && (outcome.Deadlock? <==> clean.ready == [] && clean.scheduled == [])
      && (outcome.Idle? ==> Work(d) < Work(s))
  {
    DropTopMonitors(s);
    SiftAllMonitors(s.DropTop().(ready := []), s.DropTop().ready);
    var clean := s.DropTop().Compacted();
    if clean.ready == [] {
      WaitedInTime(clean, choice, max);
    } else {
      DispatchedInTime(clean, choice, max);
      NoDeadlock(clean, choice, max);
      ReadyStays(clean);
    }
  }

  /** A liveness violation is raised while a timer of that same instant still waits in the heap exactly
      when nothing is ready, the earliest timer and the next deadline have both been reached, and the
      recheck fails: then the deadline is enforced and the timer does not run. */
  lemma DueTimerIsPassedOver(s: LoopState, choice: Choice, max: nat)
    requires InTime(s.monitors, s.now)
    ensures
      var clean := s.DropTop().Compacted();
      var (d, outcome) := s.RunOnce(choice, max);
      (&& outcome.Violated? && outcome.violation.kind == Liveness
       && clean.scheduled != [] && clean.scheduled[0].when <= d.now)
      <==>
      (&& clean.ready == [] && clean.scheduled != [] && clean.scheduled[0].when <= s.now
       && s.monitors.NextDeadline().Some? && s.monitors.NextDeadline().value <= s.now
       && s.monitors.FireDue(s.now, choice.sample).1.Some?)
  {
    var clean := s.DropTop().Compacted();
    DropTopMonitors(s);
    SiftAllMonitors(s.DropTop().(ready := []), s.DropTop().ready);
    if clean.ready == [] && clean.scheduled != [] {
      var target := clean.scheduled[0].when;
      DispatchedInTime(clean.(now := s.now), choice, max);
      var deadline := s.monitors.NextDeadline();
      if deadline.Some? && deadline.value <= s.now {
        if s.monitors.FireDue(s.now, choice.sample).1.Some? {
          FireDueIsReal(s.monitors, s.now, choice.sample);
        }
      } else if !(deadline.Some? && deadline.value < target) {
        var later := Later(target, s.now);
        AdvanceInTime(s.monitors, s.now, later);
        DispatchedInTime(clean.(now := later), choice, max);
      }
    } else {
      DispatchedInTime(clean, choice, max);
    }
  }
}
