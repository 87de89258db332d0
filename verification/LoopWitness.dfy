/** Runs of the event loop in which something happens (src/simloom/_loop.py:314-384), so that the theorems about
    all runs are not about nothing: a handle runs, a task crashes with its work parked, a trigger is seen and never
    answered in time, and a timer that is due is passed over by a deadline. Each turn is worked out in full. */
module LoopWitness {
  import opened Wrappers
  import opened Clock
  import opened Monitors
  import opened Responses
  import opened Loops
  import opened LoopRuns

  const QUIET := Sample(_ => true, _ => false, _ => false, _ => false)
  const TRIGGERED := QUIET.(triggers := _ => true)

  const WORLD := Universe(0.0, [CallSoon(None), CallSoon(Some(7)), WatchLeadsTo("answer", 1.0)])
  const CRASH := Choice(0, [CrashTasks({7}), CallAt(0.5, None), CallAt(5.0, None)], TRIGGERED)
  const NOTHING := Choice(0, [], QUIET)

  const HANDLES := [Handle(None, 0.0), Handle(Some(7), 0.0)]
  const TIMED := HANDLES + [Handle(None, 0.5), Handle(None, 5.0)]

  function Answer(armed: Option<Time>, seen: seq<Look>): MonitorState {
    MonitorState([], [], [LeadsTo("answer", 1.0, armed, seen)])
  }

  const STARTED := LoopState(0.0, [0, 1], [], [], HANDLES, {}, {}, Answer(None, []), 0.0, 0, [], [])

  const CRASHED := LoopState(0.0, [1], [Timer(0.5, 2), Timer(5.0, 3)], [], TIMED, {}, {7},
    Answer(Some(1.0), [Boundary(0.0, true, false)]), 0.0, 1, [Step(0, 0.0)], [])

  const PARKED := LoopState(0.5, [], [Timer(5.0, 3)], [1], TIMED, {}, {7},
    Answer(Some(1.0), [Boundary(0.0, true, false), Boundary(0.5, false, false)]), 0.5, 1,
    [Step(0, 0.0), Step(2, 0.5)], [])

  lemma AffectedThree(s: LoopState, a: Effect, b: Effect, c: Effect)
    ensures s.AffectedAll([a, b, c]) == s.Affected(a).Affected(b).Affected(c)
  {
    assert [a, b, c][..2] == [a, b] && [a, b][..1] == [a] && [a][..0] == [];
    assert s.AffectedAll([a]) == s.AffectedAll([]).Affected(a);
    assert s.AffectedAll([a, b]) == s.AffectedAll([a]).Affected(b);
  }

  lemma SiftedOne(s: LoopState, h: HandleId)
    ensures s.SiftAll([h]) == s.Sift(h)
  {
    assert [h][..0] == [] && s.SiftAll([]) == s;
  }

  lemma Starts()
    ensures WORLD.Start() == STARTED
  {
    AffectedThree(Fresh(0.0), CallSoon(None), CallSoon(Some(7)), WatchLeadsTo("answer", 1.0));
  }

  lemma Looks(armed: Option<Time>, seen: seq<Look>, now: Time, sample: Sample)
    ensures
      var look := Boundary(now, sample.triggers(0), sample.responses(0));
      Answer(armed, seen).AfterStep(now, sample) == (Answer(Slot(1.0, armed, look), seen + [look]), None)
  {
    var m := Answer(armed, seen);
    var look := Boundary(now, sample.triggers(0), sample.responses(0));
    assert GoalsChecked([], sample) == [];
    assert ResponsesChecked(m.leadsTo, now, sample)
        == [LeadsTo("answer", 1.0, Slot(1.0, armed, look), seen + [look])];
  }

  /** What the first callback does, before the monitors look. */
  lemma FirstEffects()
    ensures
      var picked := STARTED.(ready := [1]).Counted().(ran := [Step(0, 0.0)]);
      picked.AffectedAll(CRASH.effects) == CRASHED.(monitors := STARTED.monitors)
  {
    var picked := STARTED.(ready := [1]).Counted().(ran := [Step(0, 0.0)]);
    AffectedThree(picked, CrashTasks({7}), CallAt(0.5, None), CallAt(5.0, None));
    assert Insert([], Timer(0.5, 2)) == [Timer(0.5, 2)];
    assert Insert([Timer(0.5, 2)], Timer(5.0, 3)) == [Timer(0.5, 2)] + Insert([], Timer(5.0, 3));
    assert Insert([], Timer(5.0, 3)) == [Timer(5.0, 3)];
  }

  lemma FirstStep()
    ensures STARTED.Stepped(CRASH, 9) == (CRASHED, Ran(0))
  {
    var s := STARTED;
    assert s.ready[..0] + s.ready[1..] == [1] && s.ran + [Step(0, 0.0)] == [Step(0, 0.0)];
    FirstEffects();
    Looks(None, [], 0.0, TRIGGERED);
    var look := Boundary(0.0, true, false);
    assert [] + [look] == [look] && Slot(1.0, None, look) == Some(1.0);
    assert Answer(None, []).AfterStep(0.0, TRIGGERED) == (CRASHED.monitors, None);
  }

  lemma FirstTurn()
    ensures STARTED.RunOnce(CRASH, 9) == (CRASHED, Ran(0))
  {
    var s := STARTED;
    var empty := s.(ready := []);
    assert [0, 1][..1] == [0];
    SiftedOne(empty, 0);
    assert empty.SiftAll([0, 1]) == empty.SiftAll([0]).Sift(1);
    assert s.DropTop() == s && s.Compacted() == s && s.Released() == s;
    FirstStep();
  }

  lemma SecondTurn()
    ensures CRASHED.RunOnce(NOTHING, 9) == (PARKED, Ran(2))
  {
    var s := CRASHED;
    var seen := s.monitors.leadsTo[0].seen;
    SiftedOne(s.(ready := []), 1);
    var clean := s.(ready := [], parked := [1]);
    assert s.DropTop() == s && s.Compacted() == clean;
    NextIs(Some(1.0), seen);
    var later := clean.(now := 0.5);
    TimerFires(later);
    SecondStep(later.Released());
  }

  lemma SecondStep(s: LoopState)
    requires s == CRASHED.(now := 0.5, ready := [2], scheduled := [Timer(5.0, 3)], parked := [1])
    ensures s.Stepped(NOTHING, 9) == (PARKED, Ran(2))
  {
    var seen := CRASHED.monitors.leadsTo[0].seen;
    assert s.ready[..0] + s.ready[1..] == [] && s.ran + [Step(2, 0.5)] == PARKED.ran;
    var picked := s.(ready := []).Counted().(ran := PARKED.ran);
    assert picked.AffectedAll([]) == picked;
    Looks(Some(1.0), seen, 0.5, QUIET);
    var look := Boundary(0.5, false, false);
    assert seen + [look] == PARKED.monitors.leadsTo[0].seen && Slot(1.0, Some(1.0), look) == Some(1.0);
    assert s.monitors.AfterStep(0.5, QUIET) == (PARKED.monitors, None);
  }

  lemma TimerFires(s: LoopState)
    requires s.scheduled == [Timer(0.5, 2), Timer(5.0, 3)] && s.now == 0.5 && s.handles == TIMED && s.cancelled == {}
    ensures s.Released() == s.(scheduled := [Timer(5.0, 3)], ready := s.ready + [2])
  {
    assert s.scheduled[1..] == [Timer(5.0, 3)];
    var due := s.(scheduled := [Timer(5.0, 3)]).Sift(2);
    assert due.Released() == due;
  }

  lemma NextIs(armed: Option<Time>, seen: seq<Look>)
    ensures Answer(armed, seen).NextDeadline() == armed
  {
    var l := LeadsTo("answer", 1.0, armed, seen);
    assert [l][..0] == [];
    assert ArmedDeadline(None, [l][..0]) == None;
  }

  lemma ThirdTurn()
    ensures PARKED.RunOnce(NOTHING, 9).1 == Violated(Violation("answer", Liveness, 1.0))
    ensures PARKED.RunOnce(NOTHING, 9).0.now == 1.0
  {
    var s := PARKED;
    assert s.(ready := []).SiftAll([]) == s;
    assert s.DropTop() == s && s.Compacted() == s;
    NextIs(Some(1.0), s.monitors.leadsTo[0].seen);
    var l := s.monitors.leadsTo[0];
    assert FireGoals([], 1.0, QUIET, 0) == ([], None);
    assert l.Due(1.0);
    assert FireResponses([l], 1.0, QUIET, 0).1 == Some(Violation("answer", Liveness, 1.0));
  }

  lemma RunsOn(u: Universe, choices: seq<Choice>, choice: Choice, max: nat)
    requires Continues(After(u, choices, max).1)
    ensures After(u, choices + [choice], max) == After(u, choices, max).0.RunOnce(choice, max)
  {
    assert (choices + [choice])[..|choices|] == choices;
  }

  lemma TurnsOn(u: Universe, a: Choice, b: Choice, c: Choice, max: nat, s: LoopState, t: LoopState)
    requires u.Start().RunOnce(a, max).0 == s && Continues(u.Start().RunOnce(a, max).1)
    requires s.RunOnce(b, max).0 == t && Continues(s.RunOnce(b, max).1)
    ensures After(u, [a, b], max) == s.RunOnce(b, max)
    ensures After(u, [a, b, c], max) == t.RunOnce(c, max)
  {
    assert [] + [a] == [a] && [a] + [b] == [a, b] && [a, b] + [c] == [a, b, c];
    RunsOn(u, [], a, max);
    RunsOn(u, [a], b, max);
    RunsOn(u, [a, b], c, max);
  }

  /** Runs of the model are not idle: here one handle runs and crashes a task, whose own handle is then
      parked for good; a timer runs when it is due; a trigger has been seen; and when nobody has answered it in
      time, the run ends in a violation with the clock on the deadline. */
  lemma SomethingHappens()
    ensures After(WORLD, [CRASH, NOTHING], 9) == (PARKED, Ran(2))
    ensures PARKED.CrashedOwned(1) && Triggered(PARKED.monitors.leadsTo[0].seen, 0)
    ensures After(WORLD, [CRASH, NOTHING, NOTHING], 9).1 == Violated(Violation("answer", Liveness, 1.0))
  {
    Starts();
    FirstTurn();
    SecondTurn();
    ThirdTurn();
    TurnsOn(WORLD, CRASH, NOTHING, NOTHING, 9, CRASHED, PARKED);
  }

  // --- a timer passed over at its own instant ---

  const RACE := Universe(0.0, [CallSoon(None), WatchLeadsTo("answer", 1.0)])
  const ASK := Choice(0, [CallAt(1.0, None)], TRIGGERED)
  const RETRY := Choice(0, [CallAt(1.0, None)], QUIET)

  const RACE_STARTED := LoopState(0.0, [0], [], [], [Handle(None, 0.0)], {}, {}, Answer(None, []), 0.0, 0, [], [])

  const ASKED := LoopState(0.0, [], [Timer(1.0, 1)], [], [Handle(None, 0.0), Handle(None, 1.0)], {}, {},
    Answer(Some(1.0), [Boundary(0.0, true, false)]), 0.0, 1, [Step(0, 0.0)], [])

  const RETRIED := LoopState(1.0, [], [Timer(1.0, 2)], [],
    [Handle(None, 0.0), Handle(None, 1.0), Handle(None, 1.0)], {}, {},
    Answer(Some(1.0), [Boundary(0.0, true, false), Boundary(1.0, false, false)]), 1.0, 1,
    [Step(0, 0.0), Step(1, 1.0)], [])

  lemma AffectedOne(s: LoopState, a: Effect)
    ensures s.AffectedAll([a]) == s.Affected(a)
  {
    assert [a][..0] == [] && s.AffectedAll([]) == s;
  }

  lemma RaceStarts()
    ensures RACE.Start() == RACE_STARTED
  {
    AffectedOne(Fresh(0.0), CallSoon(None));
    assert RACE.setup[..1] == [CallSoon(None)];
  }

  lemma Asks()
    ensures RACE_STARTED.RunOnce(ASK, 9) == (ASKED, Ran(0))
  {
    var s := RACE_STARTED;
    SiftedOne(s.(ready := []), 0);
    assert s.DropTop() == s && s.Compacted() == s && s.Released() == s;
    assert s.ready[..0] + s.ready[1..] == [] && s.ran + [Step(0, 0.0)] == ASKED.ran;
    var picked := s.(ready := []).Counted().(ran := ASKED.ran);
    AffectedOne(picked, CallAt(1.0, None));
    assert picked.AffectedAll(ASK.effects) == ASKED.(monitors := s.monitors);
    Looks(None, [], 0.0, TRIGGERED);
    var look := Boundary(0.0, true, false);
    assert [] + [look] == [look] && Slot(1.0, None, look) == Some(1.0);
    assert s.monitors.AfterStep(0.0, TRIGGERED) == (ASKED.monitors, None);
  }

  lemma Retries()
    ensures ASKED.RunOnce(RETRY, 9) == (RETRIED, Ran(1))
  {
    var s := ASKED;
    assert s.(ready := []).SiftAll([]) == s;
    assert s.DropTop() == s && s.Compacted() == s;
    var seen := s.monitors.leadsTo[0].seen;
    NextIs(Some(1.0), seen);
    var due := s.(now := 1.0, scheduled := [], ready := [1]);
    assert s.scheduled[1..] == [] && due.Released() == due && s.(now := 1.0).Released() == due;
    RetrySteps(due);
  }

  lemma RetrySteps(s: LoopState)
    requires s == ASKED.(now := 1.0, scheduled := [], ready := [1])
    ensures s.Stepped(RETRY, 9) == (RETRIED, Ran(1))
  {
    var seen := s.monitors.leadsTo[0].seen;
    assert s.ready[..0] + s.ready[1..] == [] && s.ran + [Step(1, 1.0)] == RETRIED.ran;
    var picked := s.(ready := []).Counted().(ran := RETRIED.ran);
    AffectedOne(picked, CallAt(1.0, None));
    assert Insert([], Timer(1.0, 2)) == [Timer(1.0, 2)] && s.handles + [Handle(None, 1.0)] == RETRIED.handles;
    assert picked.AffectedAll(RETRY.effects) == RETRIED.(monitors := s.monitors);
    Looks(Some(1.0), seen, 1.0, QUIET);
    var look := Boundary(1.0, false, false);
    assert seen + [look] == RETRIED.monitors.leadsTo[0].seen && Slot(1.0, Some(1.0), look) == Some(1.0);
    assert s.monitors.AfterStep(1.0, QUIET) == (RETRIED.monitors, None);
  }

  /** The callback that runs at the deadline schedules another one with no delay. It is due at that very
      instant, live and at the top of the heap, and yet the deadline is enforced first. */
  lemma DueTimerIsPassedOverHere()
    ensures After(RACE, [ASK, RETRY], 9) == (RETRIED, Ran(1))
    ensures RETRIED.scheduled[0].when == RETRIED.now && RETRIED.scheduled[0].handle !in RETRIED.cancelled
    ensures After(RACE, [ASK, RETRY, NOTHING], 9).1 == Violated(Violation("answer", Liveness, RETRIED.now))
  {
    RaceStarts();
    Asks();
    Retries();
    TurnsOn(RACE, ASK, RETRY, NOTHING, 9, ASKED, RETRIED);
    Overruns();
  }

  lemma Overruns()
    ensures RETRIED.RunOnce(NOTHING, 9).1 == Violated(Violation("answer", Liveness, 1.0))
  {
    var s := RETRIED;
    assert s.(ready := []).SiftAll([]) == s;
    assert s.DropTop() == s && s.Compacted() == s;
    NextIs(Some(1.0), s.monitors.leadsTo[0].seen);
    var l := s.monitors.leadsTo[0];
    assert FireGoals([], 1.0, QUIET, 0) == ([], None) && l.Due(1.0);
    assert FireResponses([l], 1.0, QUIET, 0).1 == Some(Violation("answer", Liveness, 1.0));
  }
}
