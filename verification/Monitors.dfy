/** Property monitors (src/simloom/_monitors.py): safety, liveness and bounded response, evaluated
    between scheduler steps. The user's predicates are parameters, asked once at each evaluation; a `leads_to`
    monitor also keeps the history of what it saw, so that its single slot can be judged against it. */
module Monitors {
  import opened Wrappers
  import opened Clock

  /** What the user's predicates answer when they are asked: one answer per registered monitor. */
  datatype Sample = Sample(
    invariants: nat -> bool,
    goals: nat -> bool,
    triggers: nat -> bool,
    responses: nat -> bool)

  datatype Kind = Safety | Liveness

  datatype Violation = Violation(name: string, kind: Kind, t: Time)

  datatype Always = Always(name: string)

  datatype Eventually = Eventually(name: string, deadline: Time, satisfied: bool)
  {
    predicate Due(now: Time) {
      !satisfied && deadline <= now
    }
  }

  /** One look at a `leads_to` monitor: at a step boundary, or when its deadline is enforced. */
  datatype Look =
    | Boundary(time: Time, trigger: bool, response: bool)
    | Recheck(time: Time, response: bool)

  /** `seen` is the history of looks; it is kept for the specification only. */
  datatype LeadsTo = LeadsTo(name: string, within: Time, armed: Option<Time>, seen: seq<Look>)
  {
    predicate Due(now: Time) {
      armed.Some? && armed.value <= now
    }

    function AtBoundary(now: Time, trigger: bool, response: bool): LeadsTo {
      LeadsTo(name, within,
              if armed.Some? then (if response then None else armed)
              else if trigger && !response then Some(now + within)
              else None,
              seen + [Boundary(now, trigger, response)])
    }

    function Rechecked(now: Time, response: bool): LeadsTo {
      this.(armed := if response then None else armed, seen := seen + [Recheck(now, response)])
    }
  }

  datatype MonitorState = MonitorState(always: seq<Always>, eventually: seq<Eventually>, leadsTo: seq<LeadsTo>)
  {
    /** A step boundary. A broken invariant ends the evaluation before anything else is updated. */
    function AfterStep(now: Time, sample: Sample): (MonitorState, Option<Violation>) {
      match FirstBroken(always, sample, 0)
      case Some(i) => (this, Some(Violation(always[i].name, Safety, now)))
      case None =>
        (MonitorState(always, GoalsChecked(eventually, sample), ResponsesChecked(leadsTo, now, sample)), None)
    }

    function NextDeadline(): Option<Time> {
      ArmedDeadline(GoalDeadline(eventually), leadsTo)
    }

    function FireDue(now: Time, sample: Sample): (MonitorState, Option<Violation>) {
      var (goals, failed) := FireGoals(eventually, now, sample, 0);
      if failed.Some? then (this.(eventually := goals), failed) else
      var (obligations, failed) := FireResponses(leadsTo, now, sample, 0);
      (MonitorState(always, goals, obligations), failed)
    }
  }

  // --- after_step ---

  function FirstBroken(always: seq<Always>, sample: Sample, i: nat): (r: Option<nat>)
    requires i <= |always|
    ensures r.Some? ==> i <= r.value < |always| && !sample.invariants(r.value)
    ensures r.Some? ==> forall j: nat | i <= j < r.value :: sample.invariants(j)
    ensures r.None? ==> forall j: nat | i <= j < |always| :: sample.invariants(j)
    decreases |always| - i
  {
    if i == |always| then None
    else if !sample.invariants(i) then Some(i)
    else FirstBroken(always, sample, i + 1)
  }

  function GoalsChecked(eventually: seq<Eventually>, sample: Sample): (r: seq<Eventually>)
    ensures |r| == |eventually|
    ensures forall i | 0 <= i < |r| ::
      r[i] == eventually[i].(satisfied := eventually[i].satisfied || sample.goals(i))
  {
    seq(|eventually|, i requires 0 <= i < |eventually| =>
          eventually[i].(satisfied := eventually[i].satisfied || sample.goals(i)))
  }

  function ResponsesChecked(leadsTo: seq<LeadsTo>, now: Time, sample: Sample): (r: seq<LeadsTo>)
    ensures |r| == |leadsTo|
    ensures forall i | 0 <= i < |r| :: r[i] == leadsTo[i].AtBoundary(now, sample.triggers(i), sample.responses(i))
  {
    seq(|leadsTo|, i requires 0 <= i < |leadsTo| =>
          leadsTo[i].AtBoundary(now, sample.triggers(i), sample.responses(i)))
  }

  // --- next_deadline ---

  function Earlier(a: Option<Time>, b: Option<Time>): Option<Time> {
    if a.None? then b
    else if b.None? || a.value <= b.value then a
    else b
  }

  function GoalDeadline(eventually: seq<Eventually>): Option<Time> {
    if eventually == [] then None else
    var last := eventually[|eventually| - 1];
    Earlier(GoalDeadline(eventually[..|eventually| - 1]), if last.satisfied then None else Some(last.deadline))
  }

  function ArmedDeadline(best: Option<Time>, leadsTo: seq<LeadsTo>): Option<Time> {
    if leadsTo == [] then best else
    Earlier(ArmedDeadline(best, leadsTo[..|leadsTo| - 1]), leadsTo[|leadsTo| - 1].armed)
  }

  /** Some deadline is pending at `t`. */
  ghost predicate Pending(m: MonitorState, t: Time) {
    || (exists e | e in m.eventually :: !e.satisfied && e.deadline == t)
    || (exists l | l in m.leadsTo :: l.armed == Some(t))
  }

  ghost predicate NoneBefore(m: MonitorState, t: Time) {
    && (forall e | e in m.eventually && !e.satisfied :: t <= e.deadline)
    && (forall l | l in m.leadsTo && l.armed.Some? :: t <= l.armed.value)
  }

  lemma {:induction false} GoalDeadlineIsLeast(eventually: seq<Eventually>)
    ensures match GoalDeadline(eventually)
            case None => forall e | e in eventually :: e.satisfied
            case Some(t) => (exists e | e in eventually :: !e.satisfied && e.deadline == t)
                            && forall e | e in eventually && !e.satisfied :: t <= e.deadline
  {
    if eventually == [] {
    } else {
      var last := |eventually| - 1;
      GoalDeadlineIsLeast(eventually[..last]);
      assert forall e :: e in eventually <==> e in eventually[..last] || e == eventually[last];
    }
  }

  lemma {:induction false} ArmedDeadlineIsLeast(best: Option<Time>, leadsTo: seq<LeadsTo>)
    ensures
      var d := ArmedDeadline(best, leadsTo);
      && (d.None? <==> best.None? && forall l | l in leadsTo :: l.armed.None?)
      && (d.Some? ==> d == best || exists l | l in leadsTo :: l.armed == d)
      && (d.Some? ==> (best.Some? ==> d.value <= best.value)
                      && forall l | l in leadsTo && l.armed.Some? :: d.value <= l.armed.value)
  {
    if leadsTo == [] {
    } else {
      var last := |leadsTo| - 1;
      ArmedDeadlineIsLeast(best, leadsTo[..last]);
      assert forall l :: l in leadsTo <==> l in leadsTo[..last] || l == leadsTo[last];
      assert leadsTo[last] in leadsTo;
    }
  }

  /** `next_deadline` is the least pending deadline; None means nothing is pending. */
  lemma NextDeadlineIsLeast(m: MonitorState)
    ensures match m.NextDeadline()
            case None => forall t :: !Pending(m, t)
            case Some(t) => Pending(m, t) && NoneBefore(m, t)
  {
    GoalDeadlineIsLeast(m.eventually);
    ArmedDeadlineIsLeast(GoalDeadline(m.eventually), m.leadsTo);
  }

  // --- fire_due ---

  /** Goals enforced in order, up to the first one that fails. */
  function FireGoals(eventually: seq<Eventually>, now: Time, sample: Sample, i: nat)
    : (r: (seq<Eventually>, Option<Violation>))
    requires i <= |eventually|
    ensures |r.0| == |eventually|
    decreases |eventually| - i
  {
    if i == |eventually| then (eventually, None)
    else if !eventually[i].Due(now) then FireGoals(eventually, now, sample, i + 1)
    else if sample.goals(i) then
      FireGoals(eventually[i := eventually[i].(satisfied := true)], now, sample, i + 1)
    else (eventually, Some(Violation(eventually[i].name, Liveness, eventually[i].deadline)))
  }

  function FireResponses(leadsTo: seq<LeadsTo>, now: Time, sample: Sample, i: nat)
    : (r: (seq<LeadsTo>, Option<Violation>))
    requires i <= |leadsTo|
    ensures |r.0| == |leadsTo|
    decreases |leadsTo| - i
  {
    if i == |leadsTo| then (leadsTo, None)
    else if !leadsTo[i].Due(now) then FireResponses(leadsTo, now, sample, i + 1)
    else
      var checked := leadsTo[i := leadsTo[i].Rechecked(now, sample.responses(i))];
      if sample.responses(i) then FireResponses(checked, now, sample, i + 1)
      else (checked, Some(Violation(leadsTo[i].name, Liveness, leadsTo[i].armed.value)))
  }

  // --- finalize ---

  /** At the end of a run, a goal never reached or a response still owed is a violation. */
  ghost predicate Owes(m: MonitorState, sample: Sample) {
    (exists i: nat :: GoalOpen(m, sample, i)) || (exists i: nat :: ResponseOpen(m, sample, i))
  }

  ghost predicate GoalOpen(m: MonitorState, sample: Sample, i: nat) {
    i < |m.eventually| && !m.eventually[i].satisfied && !sample.goals(i)
  }

  ghost predicate ResponseOpen(m: MonitorState, sample: Sample, i: nat) {
    i < |m.leadsTo| && m.leadsTo[i].armed.Some? && !sample.responses(i)
  }

  /** The first monitor that owes something, goals before responses. */
  ghost predicate FirstOwing(m: MonitorState, sample: Sample, name: string) {
    || (exists i: nat :: GoalOpen(m, sample, i) && name == m.eventually[i].name
                         && forall j: nat | j < i :: !GoalOpen(m, sample, j))
    || (exists i: nat :: ResponseOpen(m, sample, i) && name == m.leadsTo[i].name
                         && (forall j: nat | j < i :: !ResponseOpen(m, sample, j))
                         && forall j: nat :: !GoalOpen(m, sample, j))
  }

  class MonitorSet {
    var always: seq<Always>
    var eventually: seq<Eventually>
    var leadsTo: seq<LeadsTo>

    function State(): MonitorState
      reads this
    {
      MonitorState(always, eventually, leadsTo)
    }

    constructor ()
      ensures State() == MonitorState([], [], [])
    {
      always, eventually, leadsTo := [], [], [];
    }

    method AddAlways(name: string)
      modifies this`always
      ensures always == old(always) + [Always(name)]
    {
      always := always + [Always(name)];
    }

    method AddEventually(name: string, deadline: Time)
      modifies this`eventually
      ensures eventually == old(eventually) + [Eventually(name, deadline, false)]
    {
      eventually := eventually + [Eventually(name, deadline, false)];
    }

    method AddLeadsTo(name: string, within: Time) returns (r: Result<(), string>)
      modifies this`leadsTo
      ensures r.Err? <==> within <= 0.0
      ensures leadsTo == if r.Err? then old(leadsTo) else old(leadsTo) + [LeadsTo(name, within, None, [])]
    {
      if within <= 0.0 {
        return Err("leads_to 'within' must be > 0");
      }
      leadsTo := leadsTo + [LeadsTo(name, within, None, [])];
      return Ok(());
    }

    /** The first loop of `after_step`: the first invariant that does not hold. */
    method BrokenInvariant(sample: Sample) returns (broken: Option<nat>)
      ensures broken == FirstBroken(always, sample, 0)
    {
      var i := 0;
      while i < |always|
        invariant i <= |always| && FirstBroken(always, sample, 0) == FirstBroken(always, sample, i)
      {
        if !sample.invariants(i) {
          return Some(i);
        }
        i := i + 1;
      }
      return None;
    }

    method CheckGoals(sample: Sample)
      modifies this`eventually
      ensures eventually == GoalsChecked(old(eventually), sample)
    {
      ghost var checked := GoalsChecked(eventually, sample);
      var i := 0;
      while i < |eventually|
        invariant i <= |eventually| == |checked| == |old(eventually)|
        invariant forall j | 0 <= j < i :: eventually[j] == checked[j]
        invariant forall j | i <= j < |eventually| :: eventually[j] == old(eventually)[j]
      {
        if !eventually[i].satisfied && sample.goals(i) {
          eventually := eventually[i := eventually[i].(satisfied := true)];
        }
        i := i + 1;
      }
    }

    method CheckResponses(now: Time, sample: Sample)
      modifies this`leadsTo
      ensures leadsTo == ResponsesChecked(old(leadsTo), now, sample)
    {
      ghost var checked := ResponsesChecked(leadsTo, now, sample);
      var i := 0;
      while i < |leadsTo|
        invariant i <= |leadsTo| == |checked| == |old(leadsTo)|
        invariant forall j | 0 <= j < i :: leadsTo[j] == checked[j]
        invariant forall j | i <= j < |leadsTo| :: leadsTo[j] == old(leadsTo)[j]
      {
        var l := leadsTo[i];
        var armed := l.armed;
        if armed.Some? {
          if sample.responses(i) {
            armed := None;
          }
        } else if sample.triggers(i) && !sample.responses(i) {
          armed := Some(now + l.within);
        }
        var look := Boundary(now, sample.triggers(i), sample.responses(i));
        leadsTo := leadsTo[i := LeadsTo(l.name, l.within, armed, l.seen + [look])];
        i := i + 1;
      }
    }

    method AfterStep(now: Time, sample: Sample) returns (violation: Option<Violation>)
      modifies this
      ensures (State(), violation) == old(State()).AfterStep(now, sample)
    {
      var broken := BrokenInvariant(sample);
      if broken.Some? {
        return Some(Violation(always[broken.value].name, Safety, now));
      }
      CheckGoals(sample);
      CheckResponses(now, sample);
      return None;
    }

    method NextDeadline() returns (best: Option<Time>)
      ensures best == State().NextDeadline()
    {
      best := None;
      var i := 0;
      while i < |eventually|
        invariant i <= |eventually| && best == GoalDeadline(eventually[..i])
      {
        assert eventually[..i + 1][..i] == eventually[..i];
        var e := eventually[i];
        if !e.satisfied && (best.None? || e.deadline < best.value) {
          best := Some(e.deadline);
        }
        i := i + 1;
      }
      assert eventually[..i] == eventually;
      i := 0;
      while i < |leadsTo|
        invariant i <= |leadsTo| && best == ArmedDeadline(GoalDeadline(eventually), leadsTo[..i])
      {
        assert leadsTo[..i + 1][..i] == leadsTo[..i];
        var l := leadsTo[i];
        if l.armed.Some? && (best.None? || l.armed.value < best.value) {
          best := l.armed;
        }
        i := i + 1;
      }
      assert leadsTo[..i] == leadsTo;
    }

    method FireDue(now: Time, sample: Sample) returns (violation: Option<Violation>)
      modifies this
      ensures (State(), violation) == old(State()).FireDue(now, sample)
    {
      var i := 0;
      while i < |eventually|
        invariant i <= |eventually| && always == old(always) && leadsTo == old(leadsTo)
        invariant FireGoals(old(eventually), now, sample, 0) == FireGoals(eventually, now, sample, i)
      {
        if eventually[i].Due(now) {
          if sample.goals(i) {
            eventually := eventually[i := eventually[i].(satisfied := true)];
          } else {
            return Some(Violation(eventually[i].name, Liveness, eventually[i].deadline));
          }
        }
        i := i + 1;
      }
      i := 0;
      while i < |leadsTo|
        invariant i <= |leadsTo| && always == old(always)
        invariant FireGoals(old(eventually), now, sample, 0) == (eventually, None)
        invariant FireResponses(old(leadsTo), now, sample, 0) == FireResponses(leadsTo, now, sample, i)
      {
        var l := leadsTo[i];
        if l.Due(now) {
          var response := sample.responses(i);
          var armed := if response then None else l.armed;
          leadsTo := leadsTo[i := l.(armed := armed, seen := l.seen + [Recheck(now, response)])];
          if !response {
            return Some(Violation(l.name, Liveness, l.armed.value));
          }
        }
        i := i + 1;
      }
      return None;
    }

    method FinalizeRun(now: Time, sample: Sample) returns (violation: Option<Violation>)
      modifies this`eventually
      ensures violation.Some? <==> old(Owes(State(), sample))
      ensures violation.Some? ==>
        && violation.value.kind == Liveness && violation.value.t == now
        && old(FirstOwing(State(), sample, violation.value.name))
    {
      ghost var start := State();
      var i := 0;
      while i < |eventually|
        invariant i <= |eventually| == |old(eventually)|
        invariant forall j: nat | j < i :: !GoalOpen(start, sample, j)
        invariant forall j | i <= j < |eventually| :: eventually[j] == old(eventually)[j]
      {
        if !eventually[i].satisfied {
          if sample.goals(i) {
            eventually := eventually[i := eventually[i].(satisfied := true)];
          } else {
            assert GoalOpen(start, sample, i);
            return Some(Violation(eventually[i].name, Liveness, now));
          }
        }
        i := i + 1;
      }
      i := 0;
      while i < |leadsTo|
        invariant i <= |leadsTo|
        invariant forall j: nat | j < i :: !ResponseOpen(start, sample, j)
      {
        if leadsTo[i].armed.Some? && !sample.responses(i) {
          assert ResponseOpen(start, sample, i);
          return Some(Violation(leadsTo[i].name, Liveness, now));
        }
        i := i + 1;
      }
      return None;
    }
  }
}
