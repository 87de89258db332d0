/** The event loop (src/simloom/_loop.py:293-433, 484-503, 539-576): ready list, timer heap, virtual
    clock, crash parking and the oracles for deadlock, livelock and monitor deadlines. */
module Loops {
  import opened Wrappers
  import opened Clock
  import opened Monitors

  type Task = nat
  type HandleId = nat

  /** A scheduled callback: the task it steps, if any, and the instant it is due. A `call_soon` handle
      is due when it is queued; a timer at its time, or when it is created if that is later. */
  datatype Handle = Handle(owner: Option<Task>, due: Time)

  datatype Timer = Timer(when: Time, handle: HandleId)

  /** One entry of the history of steps. */
  datatype Step = Step(handle: HandleId, time: Time)

  /** What a callback may do to the loop while it runs. */
  datatype Effect =
    | CallSoon(owner: Option<Task>)
    | CallAt(when: Time, owner: Option<Task>)
    | Cancel(handle: HandleId)
    | CrashTasks(tasks: set<Task>)
    | WatchAlways(name: string)
    | WatchEventually(name: string, within: Time)
    | WatchLeadsTo(name: string, within: Time)

  /** Everything the loop does not decide itself: the scheduler's pick among the ready handles, what
      the chosen callback does, and what the monitors' predicates answer. */
  datatype Choice = Choice(pick: nat, effects: seq<Effect>, sample: Sample)

  datatype Outcome =
    | Ran(handle: HandleId)
    | Idle
    | Deadlock
    | Livelock
    | Violated(violation: Violation)

  /** The heap as a list sorted by time, equal times in order of creation. */
  function Insert(heap: seq<Timer>, timer: Timer): seq<Timer> {
    if heap == [] || timer.when < heap[0].when then [timer] + heap
    else [heap[0]] + Insert(heap[1..], timer)
  }

  /** `ran` and `dropped` are histories, kept for the specification. */
  datatype LoopState = LoopState(
    now: Time,
    ready: seq<HandleId>,
    scheduled: seq<Timer>,
    parked: seq<HandleId>,
    handles: seq<Handle>,
    cancelled: set<HandleId>,
    crashed: set<Task>,
    monitors: MonitorState,
    instantTime: Time,
    instantSteps: nat,
    ran: seq<Step>,
    dropped: seq<HandleId>)
  {
    predicate CrashedOwned(h: HandleId) {
      h < |handles| && handles[h].owner.Some? && handles[h].owner.value in crashed
    }

    /** Cancelled timers at the top of the heap are dropped. */
    function DropTop(): LoopState
      decreases |scheduled|
    {
      if scheduled != [] && scheduled[0].handle in cancelled then
        this.(scheduled := scheduled[1..], dropped := dropped + [scheduled[0].handle]).DropTop()
      else this
    }

    /** One entry of the ready list, during compaction. */
    function Sift(h: HandleId): LoopState {
      if h in cancelled then this.(dropped := dropped + [h])
      else if CrashedOwned(h) then this.(parked := parked + [h])
      else this.(ready := ready + [h])
    }

    function SiftAll(hs: seq<HandleId>): LoopState {
      if hs == [] then this else SiftAll(hs[..|hs| - 1]).Sift(hs[|hs| - 1])
    }

    /** Cancelled work is dropped and work of crashed tasks is parked. */
    function Compacted(): LoopState {
      this.(ready := []).SiftAll(ready)
    }

    /** Timers that are due move to the ready list. */
    function Released(): LoopState
      decreases |scheduled|
    {
      if scheduled != [] && scheduled[0].when <= now then
        this.(scheduled := scheduled[1..]).Sift(scheduled[0].handle).Released()
      else this
    }

    function Counted(): LoopState {
      if now == instantTime then this.(instantSteps := instantSteps + 1)
      else this.(instantTime := now, instantSteps := 1)
    }

    function Affected(effect: Effect): LoopState {
      match effect
      case CallSoon(owner) =>
        this.(ready := ready + [|handles|], handles := handles + [Handle(owner, now)])
      case CallAt(when, owner) =>
        this.(scheduled := Insert(scheduled, Timer(when, |handles|)),
              handles := handles + [Handle(owner, Later(when, now))])
      case Cancel(h) => this.(cancelled := cancelled + {h})
      case CrashTasks(tasks) => this.(crashed := crashed + tasks)
      case WatchAlways(name) => this.(monitors := monitors.(always := monitors.always + [Always(name)]))
      case WatchEventually(name, within) =>
        if within <= 0.0 then this else
        this.(monitors := monitors.(eventually := monitors.eventually + [Eventually(name, now + within, false)]))
      case WatchLeadsTo(name, within) =>
        if within <= 0.0 then this else
        this.(monitors := monitors.(leadsTo := monitors.leadsTo + [LeadsTo(name, within, None, [])]))
    }

    function AffectedAll(effects: seq<Effect>): LoopState {
      if effects == [] then this else AffectedAll(effects[..|effects| - 1]).Affected(effects[|effects| - 1])
    }

    /** Deadlines that have been reached are enforced; no callback runs. */
    function Enforced(sample: Sample): (LoopState, Outcome) {
      var (checked, violation) := monitors.FireDue(now, sample);
      (this.(monitors := checked), if violation.Some? then Violated(violation.value) else Idle)
    }

    /** One callback runs, and the monitors look at the new boundary. A handle that trips the livelock
        bound has left the ready list but does not run. */
    function Stepped(choice: Choice, max: nat): (LoopState, Outcome)
      requires ready != []
    {
      var index := choice.pick % |ready|;
      var h := ready[index];
      var counted := this.(ready := ready[..index] + ready[index + 1..]).Counted();
      if counted.instantSteps > max then (counted, Livelock) else
      var after := counted.(ran := ran + [Step(h, now)]).AffectedAll(choice.effects);
      var (checked, violation) := after.monitors.AfterStep(after.now, choice.sample);
      (after.(monitors := checked), if violation.Some? then Violated(violation.value) else Ran(h))
    }

    function Dispatched(choice: Choice, max: nat): (LoopState, Outcome) {
      var released := Released();
      if released.ready == [] then (released, Idle) else released.Stepped(choice, max)
    }

    /** With nothing ready: deadlock, the next deadline, or the next timer, whichever comes first. */
    function Waited(choice: Choice, max: nat): (LoopState, Outcome) {
      if scheduled == [] then (this, Deadlock) else
      var deadline := monitors.NextDeadline();
      var target := scheduled[0].when;
      if deadline.Some? && deadline.value <= now then Enforced(choice.sample)
      else if deadline.Some? && deadline.value < target then this.(now := deadline.value).Enforced(choice.sample)
      else this.(now := Later(target, now)).Dispatched(choice, max)
    }

    function RunOnce(choice: Choice, max: nat): (LoopState, Outcome) {
      var clean := DropTop().Compacted();
      if clean.ready == [] then clean.Waited(choice, max) else clean.Dispatched(choice, max)
    }

    /** The end of the universe: crashed tasks get their parked handles back. */
    function Revived(): LoopState {
      this.(crashed := {}, ready := ready + parked, parked := [])
    }
  }

  function Fresh(epoch: Time): LoopState {
    LoopState(epoch, [], [], [], [], {}, {}, MonitorState([], [], []), epoch, 0, [], [])
  }

  // ---------------------------------------------------------------------------------------------
  // The loop object
  // ---------------------------------------------------------------------------------------------

  class SimLoop {
    const maxStepsPerInstant: nat
    const monitors: MonitorSet
    var now: Time
    var ready: seq<HandleId>
    var scheduled: seq<Timer>
    var parked: seq<HandleId>
    var handles: seq<Handle>
    var cancelled: set<HandleId>
    var crashed: set<Task>
    var instantTime: Time
    var instantSteps: nat
    ghost var ran: seq<Step>
    ghost var dropped: seq<HandleId>

    ghost function State(): LoopState
      reads this, monitors
    {
      LoopState(now, ready, scheduled, parked, handles, cancelled, crashed, monitors.State(),
                instantTime, instantSteps, ran, dropped)
    }

    constructor (epoch: Time, maxStepsPerInstant: nat)
      ensures State() == Fresh(epoch) && fresh(monitors) && this.maxStepsPerInstant == maxStepsPerInstant
    {
      this.maxStepsPerInstant := maxStepsPerInstant;
      now, ready, scheduled, parked, handles := epoch, [], [], [], [];
      cancelled, crashed := {}, {};
      instantTime, instantSteps := epoch, 0;
      ran, dropped := [], [];
      monitors := new MonitorSet();
    }

    method DropTop()
      modifies this
      ensures State() == old(State()).DropTop()
    {
      while scheduled != [] && scheduled[0].handle in cancelled
        invariant State().DropTop() == old(State()).DropTop()
        decreases |scheduled|
      {
        dropped := dropped + [scheduled[0].handle];
        scheduled := scheduled[1..];
      }
    }

    method Sift(h: HandleId)
      modifies this
      ensures State() == old(State()).Sift(h)
    {
      if h in cancelled {
        dropped := dropped + [h];
      } else if h < |handles| && handles[h].owner.Some? && handles[h].owner.value in crashed {
        parked := parked + [h];
      } else {
        ready := ready + [h];
      }
    }

    method Compact()
      modifies this
      ensures State() == old(State()).Compacted()
    {
      var all := ready;
      ready := [];
      ghost var empty := State();
      var i := 0;
      while i < |all|
        invariant i <= |all| && State() == empty.SiftAll(all[..i])
      {
        assert all[..i + 1][..i] == all[..i];
        Sift(all[i]);
        i := i + 1;
      }
      assert all[..i] == all;
    }

    method Release()
      modifies this
      ensures State() == old(State()).Released()
    {
      while scheduled != [] && scheduled[0].when <= now
        invariant State().Released() == old(State()).Released()
        decreases |scheduled|
      {
        var timer := scheduled[0];
        scheduled := scheduled[1..];
        Sift(timer.handle);
      }
    }

    method DetectLivelock() returns (raised: bool)
      modifies this
      ensures State() == old(State()).Counted()
      ensures raised <==> instantSteps > maxStepsPerInstant
    {
      if now == instantTime {
        instantSteps := instantSteps + 1;
      } else {
        instantTime := now;
        instantSteps := 1;
      }
      return instantSteps > maxStepsPerInstant;
    }

    method Affect(effect: Effect)
      modifies this, monitors
      ensures State() == old(State()).Affected(effect)
    {
      match effect {
        case CallSoon(owner) =>
          ready := ready + [|handles|];
          handles := handles + [Handle(owner, now)];
        case CallAt(when, owner) =>
          scheduled := Insert(scheduled, Timer(when, |handles|));
          handles := handles + [Handle(owner, Later(when, now))];
        case Cancel(h) =>
          cancelled := cancelled + {h};
        case CrashTasks(tasks) =>
          crashed := crashed + tasks;
        case WatchAlways(name) =>
          monitors.AddAlways(name);
        case WatchEventually(name, within) =>
          if within > 0.0 {
            monitors.AddEventually(name, now + within);
          }
        case WatchLeadsTo(name, within) =>
          var _ := monitors.AddLeadsTo(name, within);
      }
    }

    method RunCallback(effects: seq<Effect>)
      modifies this, monitors
      ensures State() == old(State()).AffectedAll(effects)
    {
      var i := 0;
      while i < |effects|
        invariant i <= |effects| && State() == old(State()).AffectedAll(effects[..i])
      {
        assert effects[..i + 1][..i] == effects[..i];
        Affect(effects[i]);
        i := i + 1;
      }
      assert effects[..i] == effects;
    }

    method CheckDue(sample: Sample) returns (outcome: Outcome)
      modifies this, monitors
      ensures (State(), outcome) == old(State()).Enforced(sample)
    {
      var violation := monitors.FireDue(now, sample);
      return if violation.Some? then Violated(violation.value) else Idle;
    }

    method StepOne(choice: Choice) returns (outcome: Outcome)
      requires ready != []
      modifies this, monitors
      ensures (State(), outcome) == old(State()).Stepped(choice, maxStepsPerInstant)
    {
      var index := choice.pick % |ready|;
      var h := ready[index];
      ready := ready[..index] + ready[index + 1..];
      var raised := DetectLivelock();
      if raised {
        return Livelock;
      }
      ran := ran + [Step(h, now)];
      RunCallback(choice.effects);
      var violation := monitors.AfterStep(now, choice.sample);
      return if violation.Some? then Violated(violation.value) else Ran(h);
    }

    method RunOnce(choice: Choice) returns (outcome: Outcome)
      modifies this, monitors
      ensures (State(), outcome) == old(State()).RunOnce(choice, maxStepsPerInstant)
    {
      DropTop();
      Compact();
      if ready == [] {
        if scheduled == [] {
          return Deadlock;
        }
        var deadline := monitors.NextDeadline();
        var target := scheduled[0].when;
        if deadline.Some? && deadline.value <= now {
          outcome := CheckDue(choice.sample);
          return;
        }
        if deadline.Some? && deadline.value < target {
          now := deadline.value;
          outcome := CheckDue(choice.sample);
          return;
        }
        if target > now {
          now := target;
        }
      }
      Release();
      if ready == [] {
        return Idle;
      }
      outcome := StepOne(choice);
    }

    /** Crashed tasks get their parked handles back, for cancellation after the universe has ended. */
    method ReviveCrashed()
      modifies this
      ensures State() == old(State()).Revived()
    {
      crashed := {};
      ready := ready + parked;
      parked := [];
    }
  }
}
