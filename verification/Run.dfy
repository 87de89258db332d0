/** Running a program against a tape (src/simloom/_run.py), and what replay promises. */
module Runs {
  import opened Wrappers
  import opened Tapes

  const MISALIGNED := Raised("TapeMisalignmentError")

  datatype RunResult = RunResult(outcome: Outcome, tape: seq<Draw>)

  /** The tape a run leaves behind, and how the program itself ended. */
  datatype Run = Run(end: TapeState, outcome: Outcome)
  {
    /** Finishing without consuming the whole recording is a divergence too. */
    function Result(): RunResult {
      if outcome.Returned? && end.recorded.Some? && end.policy.Strict? && !end.ReplayExact() then
        RunResult(MISALIGNED, end.draws)
      else
        RunResult(outcome, end.draws)
    }
  }

  function Execution(p: Program, t: TapeState): Run {
    if p.Ended() then Run(t, p.Ending()) else
    match t.Drawn(p.site, |p.branches|)
    case Err(_) => Run(t.ForcedFallback(), MISALIGNED)
    case Ok((t', value)) => Execution(p.branches[value], t')
  }

  function Replayed(p: Program, recorded: seq<Draw>, policy: Policy, rng: Rng): Run {
    Execution(p, Replaying(recorded, policy, rng))
  }

  method Execute(p: Program, tape: Tape) returns (result: RunResult)
    modifies tape
    ensures Execution(p, old(tape.State())).end == tape.State()
    ensures Execution(p, old(tape.State())).Result() == result
  {
    ghost var run := Execution(p, tape.State());
    var cur := p;
    while !cur.Ended()
      invariant Execution(cur, tape.State()) == run
      decreases cur
    {
      var drawn := tape.Draw(cur.site, |cur.branches|);
      if drawn.Err? {
        tape.ForceFallback();
        return RunResult(MISALIGNED, tape.draws);
      }
      cur := cur.branches[drawn.value];
    }
    var outcome := cur.Ending();
    if outcome.Returned? && tape.recorded.Some? && tape.policy.Strict? && !tape.ReplayExact() {
      outcome := MISALIGNED;
    }
    return RunResult(outcome, tape.draws);
  }

  // ---------------------------------------------------------------------------------------------
  // Strict replay
  // ---------------------------------------------------------------------------------------------

  lemma {:induction false} StrictFrom(p: Program, t: TapeState)
    requires t.Valid() && t.policy.Strict? && t.recorded.Some? && t.misalignedAt.None?
    requires t.position <= |t.recorded.value|
    ensures
      var rest := t.recorded.value[t.position..];
      var run := Execution(p, t);
      && (run.end.ReplayExact() <==> IsPath(p, rest))
      && (IsPath(p, rest) ==> run.end.draws == t.draws + rest && run.outcome == Leaf(p, rest))
    decreases p
  {
    var rest := t.recorded.value[t.position..];
    if !p.Ended() && t.Aligned(p.site, |p.branches|) {
      var (t', value) := t.Drawn(p.site, |p.branches|).value;
      assert t'.recorded.value[t'.position..] == rest[1..];
      assert t'.draws + rest[1..] == t.draws + rest;
      StrictFrom(p.branches[value], t');
    }
  }

  /** Strict replay consumes its recording exactly if and only if the recording is a complete path
      of the program's choice tree; then it re-records the same tape and ends the same way, and on
      any other recording the run is reported as an error. */
  lemma StrictReplayIsExact(p: Program, recorded: seq<Draw>, rng: Rng)
    ensures
      var run := Replayed(p, recorded, Strict, rng);
      && (run.end.ReplayExact() <==> IsPath(p, recorded))
      && (IsPath(p, recorded) ==> run.Result() == RunResult(Leaf(p, recorded), recorded))
      && (!IsPath(p, recorded) ==> run.Result().outcome.Raised?)
  {
    StrictFrom(p, Replaying(recorded, Strict, rng));
    PolicyKept(p, Replaying(recorded, Strict, rng));
    assert recorded[0..] == recorded;
  }

  // ---------------------------------------------------------------------------------------------
  // Fallback replay and generation
  // ---------------------------------------------------------------------------------------------

  /** The tape can always answer: it generates, or it improvises after a divergence. */
  ghost predicate NeverRaises(t: TapeState) {
    t.Valid() && (t.recorded.None? || t.policy.Fallback?)
  }

  /** The draws a run adds to its tape. */
  ghost function Added(p: Program, t: TapeState): seq<Draw>
    requires |t.draws| <= |Execution(p, t).end.draws|
  {
    Execution(p, t).end.draws[|t.draws|..]
  }

  lemma {:induction false} ReRecordsAPath(p: Program, t: TapeState)
    requires NeverRaises(t)
    ensures t.draws <= Execution(p, t).end.draws
    ensures IsPath(p, Added(p, t)) && Execution(p, t).outcome == Leaf(p, Added(p, t))
    decreases p
  {
    if !p.Ended() {
      var (t', value) := t.Drawn(p.site, |p.branches|).value;
      ReRecordsAPath(p.branches[value], t');
      var draw := Choice(p.site, value, |p.branches|);
      assert Added(p, t) == [draw] + Added(p.branches[value], t');
      assert ([draw] + Added(p.branches[value], t'))[1..] == Added(p.branches[value], t');
    }
  }

  /** Where a divergence was noticed: the recording was used up, or asked for something else. */
  ghost predicate DivergesAt(recorded: seq<Draw>, draws: seq<Draw>, m: nat) {
    && m < |draws|
    && draws[..m] <= recorded
    && (m == |recorded|
        || recorded[m].site != draws[m].site
        || recorded[m].bound != draws[m].bound)
  }

  lemma {:induction false} StaysMisaligned(p: Program, t: TapeState)
    requires NeverRaises(t) && t.misalignedAt.Some?
    ensures Execution(p, t).end.misalignedAt == t.misalignedAt
    decreases p
  {
    if !p.Ended() {
      var (t', value) := t.Drawn(p.site, |p.branches|).value;
      StaysMisaligned(p.branches[value], t');
    }
  }

  lemma {:induction false} FallbackFollows(p: Program, t: TapeState)
    requires NeverRaises(t) && t.recorded.Some? && t.misalignedAt.None?
    requires t.draws <= t.recorded.value
    ensures
      var end := Execution(p, t).end;
      match end.misalignedAt
      case None => end.draws <= t.recorded.value
      case Some(m) => DivergesAt(t.recorded.value, end.draws, m)
    decreases p
  {
    if !p.Ended() {
      var (t', value) := t.Drawn(p.site, |p.branches|).value;
      if t.Aligned(p.site, |p.branches|) {
        FallbackFollows(p.branches[value], t');
      } else {
        ReRecordsAPath(p.branches[value], t');
        StaysMisaligned(p.branches[value], t');
        var end := Execution(p, t).end;
        assert end.draws[..t.position] == t.draws;
        assert end.draws[t.position] == t'.draws[t.position];
      }
    }
  }

  /** Fallback replay of any recording, edited or not, agrees with it up to `misaligned_at`, and the
      draws it re-records replay strictly and exactly to the same outcome. */
  lemma FallbackReplayRefines(p: Program, recorded: seq<Draw>, rng: Rng, strictRng: Rng)
    ensures
      var run := Replayed(p, recorded, Fallback, rng);
      var again := Replayed(p, run.end.draws, Strict, strictRng);
      && (run.end.misalignedAt == None ==> run.end.draws <= recorded)
      && (run.end.misalignedAt.Some? ==> DivergesAt(recorded, run.end.draws, run.end.misalignedAt.value))
      && again.end.ReplayExact()
      && again.Result() == run.Result()
  {
    var t := Replaying(recorded, Fallback, rng);
    var run := Execution(p, t);
    ReRecordsAPath(p, t);
    assert Added(p, t) == run.end.draws;
    FallbackFollows(p, t);
    PolicyKept(p, t);
    StrictReplayIsExact(p, run.end.draws, strictRng);
  }

  lemma {:induction false} PolicyKept(p: Program, t: TapeState)
    ensures Execution(p, t).end.policy == t.policy
    ensures Execution(p, t).end.recorded == t.recorded
    decreases p
  {
    if !p.Ended() && t.Drawn(p.site, |p.branches|).Ok? {
      PolicyKept(p.branches[t.Drawn(p.site, |p.branches|).value.1], t.Drawn(p.site, |p.branches|).value.0);
    }
  }

  /** A universe generated from any seed is a complete path too, so its tape replays strictly. */
  lemma GeneratedReplays(p: Program, rng: Rng, strictRng: Rng)
    ensures
      var run := Execution(p, Generating(rng));
      Replayed(p, run.end.draws, Strict, strictRng).Result() == run.Result()
  {
    var t := Generating(rng);
    ReRecordsAPath(p, t);
    assert Added(p, t) == Execution(p, t).end.draws;
    PolicyKept(p, t);
    StrictReplayIsExact(p, Execution(p, t).end.draws, strictRng);
  }

  // --- the generator behind a tape ---

  function Bounds(draws: seq<Draw>): (bounds: seq<nat>)
    ensures |bounds| == |draws|
  {
    seq(|draws|, i requires 0 <= i < |draws| => draws[i].bound)
  }

  /** Where the generator took over: at once without a recording, else at the divergence if there was one. */
  function TakenOverAt(t: TapeState): nat {
    if t.recorded.None? then 0 else if t.misalignedAt.Some? then t.misalignedAt.value else |t.draws|
  }

  /** From there on every draw is the generator's next answer, given all the bounds it was asked for. */
  ghost predicate AnsweredInTurn(t: TapeState) {
    var from := TakenOverAt(t);
    && t.Valid() && from <= |t.draws|
    && t.asked == Bounds(t.draws[from..])
    && forall i | from <= i < |t.draws| :: AnsweredAt(t, from, i)
  }

  ghost predicate AnsweredAt(t: TapeState, from: nat, i: nat)
    requires from <= i < |t.draws|
  {
    t.draws[i].value == t.rng.RandRange(Bounds(t.draws[from..i]), t.draws[i].bound)
  }

  lemma DrawnInTurn(t: TapeState, site: string, bound: nat)
    requires AnsweredInTurn(t) && t.Drawn(site, bound).Ok?
    ensures AnsweredInTurn(t.Drawn(site, bound).value.0)
  {
    var t' := t.Drawn(site, bound).value.0;
    var from := TakenOverAt(t');
    assert t'.draws[..|t.draws|] == t.draws;
    if from < |t'.draws| {
      assert Bounds(t'.draws[from..]) == Bounds(t.draws[from..]) + [bound];
      forall i | from <= i < |t'.draws| ensures AnsweredAt(t', from, i) {
        assert t'.draws[from..i] == t.draws[from..i];
        if i < |t.draws| {
          assert AnsweredAt(t, from, i);
        }
      }
    } else {
      assert t'.draws[from..] == [] && t.draws[TakenOverAt(t)..] == [];
    }
  }

  /** So the generator behind a tape is asked once for each draw the recording did not answer, in order,
      and for nothing else; and its answers are the draws. */
  lemma {:induction false} GeneratorAnswersInTurn(p: Program, t: TapeState)
    requires AnsweredInTurn(t)
    ensures AnsweredInTurn(Execution(p, t).end) && Execution(p, t).end.rng == t.rng
    ensures AnsweredInTurn(Generating(t.rng))
    ensures forall recorded, policy :: AnsweredInTurn(Replaying(recorded, policy, t.rng))
    decreases p
  {
    if !p.Ended() && t.Drawn(p.site, |p.branches|).Ok? {
      var (t', value) := t.Drawn(p.site, |p.branches|).value;
      DrawnInTurn(t, p.site, |p.branches|);
      GeneratorAnswersInTurn(p.branches[value], t');
    } else {
      assert t.draws[|t.draws|..] == [];
    }
  }

  // ---------------------------------------------------------------------------------------------
  // Fallback replay that fills with zeros: what the search and the shrinker run
  // ---------------------------------------------------------------------------------------------

  /** The path `plan` is completed to: follow it while it fits, then answer zero for ever. */
  function Realize(p: Program, plan: seq<Draw>): (draws: seq<Draw>)
    ensures IsPath(p, draws)
    decreases p
  {
    if p.Ended() then []
    else if plan != [] && plan[0].site == p.site && plan[0].bound == |p.branches| then
      [plan[0]] + Realize(p.branches[plan[0].value], plan[1..])
    else
      [Choice(p.site, 0, |p.branches|)] + Realize(p.branches[0], [])
  }

  /** What is left of the recording; nothing once it has been given up. */
  ghost function Remaining(t: TapeState): seq<Draw>
    requires t.recorded.Some?
  {
    if t.misalignedAt.Some? || t.position > |t.recorded.value| then []
    else t.recorded.value[t.position..]
  }

  lemma {:induction false} ZeroFillFrom(p: Program, t: TapeState)
    requires NeverRaises(t) && t.recorded.Some? && t.rng.Zero?
    ensures Execution(p, t).end.draws == t.draws + Realize(p, Remaining(t))
    decreases p
  {
    if !p.Ended() {
      var (t', value) := t.Drawn(p.site, |p.branches|).value;
      ZeroFillFrom(p.branches[value], t');
      var draw := Choice(p.site, value, |p.branches|);
      assert t.draws + ([draw] + Realize(p.branches[value], Remaining(t')))
          == t'.draws + Realize(p.branches[value], Remaining(t'));
    }
  }

  function ZeroFilled(p: Program, plan: seq<Draw>): RunResult {
    RunResult(Leaf(p, Realize(p, plan)), Realize(p, plan))
  }

  /** Zero-fallback replay is `Realize`: its tape is the completed plan and its outcome that leaf. */
  lemma ZeroFallbackRealizes(p: Program, plan: seq<Draw>)
    ensures Replayed(p, plan, Fallback, Zero).Result() == ZeroFilled(p, plan)
  {
    var t := Replaying(plan, Fallback, Zero);
    ZeroFillFrom(p, t);
    ReRecordsAPath(p, t);
    assert Remaining(t) == plan;
    assert Added(p, t) == Realize(p, plan);
    PolicyKept(p, t);
  }

  /** A plan that already is a complete path realizes as itself. */
  lemma {:induction false} RealizeComplete(p: Program, path: seq<Draw>)
    requires IsPath(p, path)
    ensures Realize(p, path) == path
    decreases p
  {
    if !p.Ended() {
      RealizeComplete(p.branches[path[0].value], path[1..]);
    }
  }

  /** `replay(main, tape=plan, policy=FALLBACK, fallback="zero")`. */
  method ReplayZero(p: Program, plan: seq<Draw>) returns (result: RunResult)
    ensures result == ZeroFilled(p, plan)
    ensures IsPath(p, result.tape) && result.outcome == Leaf(p, result.tape)
  {
    var tape := new Tape.Replay(plan, Fallback, Zero);
    result := Execute(p, tape);
    ZeroFallbackRealizes(p, plan);
  }
}
