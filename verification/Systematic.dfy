/** Systematic exploration (src/simloom/_systematic.py): an odometer over the choice tape. */
module Systematic {
  import opened Wrappers
  import opened Tapes
  import opened Runs

  /** `_delays`: how often a run departs from the default order. */
  function Delays(draws: seq<Draw>): nat {
    if draws == [] then 0 else (if draws[0].value != 0 then 1 else 0) + Delays(draws[1..])
  }

  // ---------------------------------------------------------------------------------------------
  // The space a search promises to cover
  // ---------------------------------------------------------------------------------------------

  /** The complete paths within `maxDelays` delays whose wide draws keep their default. */
  ghost predicate InSpace(p: Program, path: seq<Draw>, maxDelays: int, maxBound: nat) {
    && IsPath(p, path)
    && Delays(path) <= maxDelays
    && forall i | 0 <= i < |path| :: path[i].bound > maxBound ==> path[i].value == 0
  }

  /** Both sequences are paths of one tree; they branch at some draw, where `a` goes lower. */
  ghost predicate LexLess(a: seq<Draw>, b: seq<Draw>) {
    exists k: nat :: BranchesAt(a, b, k)
  }

  ghost predicate BranchesAt(a: seq<Draw>, b: seq<Draw>, k: nat) {
    && k < |a| && k < |b|
    && a[..k] == b[..k]
    && a[k].value < b[k].value
  }

  function Spend(budget: int, value: nat): int {
    if value != 0 then budget - 1 else budget
  }

  /** The same space, enumerated by recursion on the tree, branch by branch. */
  function Space(p: Program, budget: nat, maxBound: nat): (space: seq<seq<Draw>>)
    ensures space != []
    decreases p, p.Width() + 1
  {
    if p.Ended() then [[]] else SpaceFrom(p, 0, budget, maxBound)
  }

  predicate Enumerable(p: Program, v: nat, budget: nat, maxBound: nat) {
    p.Request? && v < |p.branches| && (v == 0 || (budget > 0 && |p.branches| <= maxBound))
  }

  function SpaceFrom(p: Program, v: nat, budget: nat, maxBound: nat): (space: seq<seq<Draw>>)
    requires Enumerable(p, v, budget, maxBound)
    ensures space != []
    decreases p, p.Width() - v
  {
    Block(p, v, budget, maxBound)
    + (if Enumerable(p, v + 1, budget, maxBound) then SpaceFrom(p, v + 1, budget, maxBound) else [])
  }

  function Block(p: Program, v: nat, budget: nat, maxBound: nat): (block: seq<seq<Draw>>)
    requires Enumerable(p, v, budget, maxBound)
    ensures block != []
    decreases p, 0
  {
    Prefixed(Choice(p.site, v, |p.branches|), Space(p.branches[v], Spend(budget, v), maxBound))
  }

  function Prefixed(draw: Draw, leaves: seq<seq<Draw>>): (r: seq<seq<Draw>>)
    ensures |r| == |leaves|
    ensures forall i | 0 <= i < |leaves| :: r[i] == [draw] + leaves[i]
  {
    seq(|leaves|, i requires 0 <= i < |leaves| => [draw] + leaves[i])
  }

  // --- the enumeration lists exactly the space ---

  lemma {:induction false} ConsInSpace(p: Program, path: seq<Draw>, budget: int, maxBound: nat)
    requires !p.Ended()
    ensures InSpace(p, path, budget, maxBound) <==>
      && path != [] && path[0].site == p.site && path[0].bound == |p.branches|
      && (path[0].bound > maxBound ==> path[0].value == 0)
      && InSpace(p.branches[path[0].value], path[1..], Spend(budget, path[0].value), maxBound)
  {
    if path != [] && path[0].bound == |p.branches| && (path[0].bound > maxBound ==> path[0].value == 0) {
      var rest := path[1..];
      if forall i | 0 <= i < |rest| :: rest[i].bound > maxBound ==> rest[i].value == 0 {
        forall i | 0 <= i < |path| ensures path[i].bound > maxBound ==> path[i].value == 0 {
          if i > 0 {
            assert path[i] == rest[i - 1];
          }
        }
      }
    }
  }

  lemma {:induction false} SpaceIsExact(p: Program, path: seq<Draw>, budget: nat, maxBound: nat)
    ensures path in Space(p, budget, maxBound) <==> InSpace(p, path, budget, maxBound)
    decreases p, p.Width() + 1
  {
    if p.Ended() {
    } else {
      SpaceFromIsExact(p, 0, path, budget, maxBound);
      ConsInSpace(p, path, budget, maxBound);
    }
  }

  lemma {:induction false} SpaceFromIsExact(p: Program, v: nat, path: seq<Draw>, budget: nat, maxBound: nat)
    requires Enumerable(p, v, budget, maxBound)
    ensures path in SpaceFrom(p, v, budget, maxBound) <==>
      InSpace(p, path, budget, maxBound) && path[0].value >= v
    decreases p, p.Width() - v
  {
    BlockIsExact(p, v, path, budget, maxBound);
    ConsInSpace(p, path, budget, maxBound);
    if Enumerable(p, v + 1, budget, maxBound) {
      SpaceFromIsExact(p, v + 1, path, budget, maxBound);
    }
  }

  lemma {:induction false} BlockIsExact(p: Program, v: nat, path: seq<Draw>, budget: nat, maxBound: nat)
    requires Enumerable(p, v, budget, maxBound)
    ensures path in Block(p, v, budget, maxBound) <==>
      InSpace(p, path, budget, maxBound) && path[0].value == v
    decreases p, 0
  {
    ConsInSpace(p, path, budget, maxBound);
    var inner := Space(p.branches[v], Spend(budget, v), maxBound);
    var block := Block(p, v, budget, maxBound);
    if path in block {
      var i :| 0 <= i < |block| && block[i] == path;
      assert path[1..] == inner[i];
      SpaceIsExact(p.branches[v], path[1..], Spend(budget, v), maxBound);
    }
    if InSpace(p, path, budget, maxBound) && path[0].value == v {
      SpaceIsExact(p.branches[v], path[1..], Spend(budget, v), maxBound);
      var i :| 0 <= i < |inner| && inner[i] == path[1..];
      assert block[i] == [path[0]] + path[1..] == path;
    }
  }

  // --- in strictly increasing lexicographic order, hence without repetition ---

  ghost predicate Increasing(space: seq<seq<Draw>>) {
    forall i, j | 0 <= i < j < |space| :: LexLess(space[i], space[j])
  }

  lemma {:induction false} SpaceIncreasing(p: Program, budget: nat, maxBound: nat)
    ensures Increasing(Space(p, budget, maxBound))
    decreases p, p.Width() + 1
  {
    if !p.Ended() {
      SpaceFromIncreasing(p, 0, budget, maxBound);
    }
  }

  lemma {:induction false} SpaceFromIncreasing(p: Program, v: nat, budget: nat, maxBound: nat)
    requires Enumerable(p, v, budget, maxBound)
    ensures Increasing(SpaceFrom(p, v, budget, maxBound))
    decreases p, p.Width() - v
  {
    var block := Block(p, v, budget, maxBound);
    BlockIncreasing(p, v, budget, maxBound);
    if Enumerable(p, v + 1, budget, maxBound) {
      var rest := SpaceFrom(p, v + 1, budget, maxBound);
      SpaceFromIncreasing(p, v + 1, budget, maxBound);
      forall i, j | 0 <= i < |block| && 0 <= j < |rest| ensures LexLess(block[i], rest[j]) {
        SpaceFromIsExact(p, v + 1, rest[j], budget, maxBound);
        BlockIsExact(p, v, block[i], budget, maxBound);
        assert BranchesAt(block[i], rest[j], 0);
      }
    }
  }

  lemma {:induction false} BlockIncreasing(p: Program, v: nat, budget: nat, maxBound: nat)
    requires Enumerable(p, v, budget, maxBound)
    ensures Increasing(Block(p, v, budget, maxBound))
    decreases p, 0
  {
    var inner := Space(p.branches[v], Spend(budget, v), maxBound);
    var block := Block(p, v, budget, maxBound);
    var draw := Choice(p.site, v, |p.branches|);
    SpaceIncreasing(p.branches[v], Spend(budget, v), maxBound);
    forall i, j | 0 <= i < j < |block| ensures LexLess(block[i], block[j]) {
      var k: nat :| BranchesAt(inner[i], inner[j], k);
      assert block[i] == [draw] + inner[i] && block[j] == [draw] + inner[j];
      assert block[i][..k + 1] == [block[i][0]] + inner[i][..k];
      assert block[j][..k + 1] == [block[j][0]] + inner[j][..k];
      assert BranchesAt(block[i], block[j], k + 1);
    }
  }

  // ---------------------------------------------------------------------------------------------
  // The odometer step
  // ---------------------------------------------------------------------------------------------

  /** The draw at `i` has an untried alternative and its prefix still has delay budget. */
  predicate Bumpable(draws: seq<Draw>, i: nat, budget: int, maxBound: nat)
    requires i < |draws|
  {
    && draws[i].value < draws[i].bound - 1
    && draws[i].bound <= maxBound
    && Delays(draws[..i]) < budget
  }

  /** The rightmost such draw, or -1. */
  function LastBumpable(draws: seq<Draw>, budget: int, maxBound: nat): (i: int)
    ensures -1 <= i < |draws|
  {
    if draws == [] then -1 else
    var rest := LastBumpable(draws[1..], Spend(budget, draws[0].value), maxBound);
    if rest >= 0 then rest + 1
    else if draws[0].value < draws[0].bound - 1 && draws[0].bound <= maxBound && 0 < budget then 0
    else -1
  }

  lemma {:induction false} ConsDelays(draws: seq<Draw>, i: nat)
    requires 0 < i <= |draws|
    ensures Delays(draws[..i]) == Delays(draws[1..][..i - 1]) + (if draws[0].value != 0 then 1 else 0)
  {
    assert draws[..i][1..] == draws[1..][..i - 1];
  }

  lemma {:induction false} LastBumpableIsRightmost(draws: seq<Draw>, budget: int, maxBound: nat)
    ensures var last := LastBumpable(draws, budget, maxBound);
      && (last >= 0 ==> Bumpable(draws, last, budget, maxBound))
      && forall i | last < i < |draws| :: !Bumpable(draws, i, budget, maxBound)
  {
    if draws == [] {
    } else {
      var rest := draws[1..];
      var budget' := Spend(budget, draws[0].value);
      LastBumpableIsRightmost(rest, budget', maxBound);
      forall i | 0 < i < |draws|
        ensures Bumpable(draws, i, budget, maxBound) <==> Bumpable(rest, i - 1, budget', maxBound)
      {
        ConsDelays(draws, i);
      }
    }
  }

  function Bumped(draws: seq<Draw>, i: nat): (plan: seq<Draw>)
    requires i < |draws| && draws[i].value < draws[i].bound - 1
  {
    draws[..i] + [Choice(draws[i].site, draws[i].value + 1, draws[i].bound)]
  }

  /** The plan the odometer runs next, or None when it rolls over. */
  function NextPlan(draws: seq<Draw>, budget: int, maxBound: nat): Option<seq<Draw>> {
    LastBumpableIsRightmost(draws, budget, maxBound);
    var last := LastBumpable(draws, budget, maxBound);
    if last < 0 then None else Some(Bumped(draws, last))
  }

  /** The odometer steps from the `i`-th path to the next one, and rolls over after the last. */
  ghost predicate StepsFrom(p: Program, space: seq<seq<Draw>>, i: nat, budget: int, maxBound: nat)
    requires i < |space|
  {
    match NextPlan(space[i], budget, maxBound)
    case None => i + 1 == |space|
    case Some(plan) => i + 1 < |space| && Realize(p, plan) == space[i + 1]
  }

  lemma {:induction false} OdometerSteps(p: Program, i: nat, budget: nat, maxBound: nat)
    requires i < |Space(p, budget, maxBound)|
    ensures StepsFrom(p, Space(p, budget, maxBound), i, budget, maxBound)
    decreases p, p.Width() + 1
  {
    if !p.Ended() {
      OdometerStepsFrom(p, 0, i, budget, maxBound);
    }
  }

  /** Paths in front change nothing about a step, and neither do paths behind unless it is the last. */
  lemma ShiftedStep(p: Program, before: seq<seq<Draw>>, space: seq<seq<Draw>>, i: nat, budget: int, maxBound: nat)
    requires i < |space| && StepsFrom(p, space, i, budget, maxBound)
    ensures StepsFrom(p, before + space, |before| + i, budget, maxBound)
  {
  }

  lemma EarlierStep(p: Program, space: seq<seq<Draw>>, behind: seq<seq<Draw>>, i: nat, budget: int, maxBound: nat)
    requires i + 1 < |space| && StepsFrom(p, space, i, budget, maxBound)
    ensures StepsFrom(p, space + behind, i, budget, maxBound)
  {
  }

  lemma {:induction false} OdometerStepsFrom(p: Program, v: nat, i: nat, budget: nat, maxBound: nat)
    requires Enumerable(p, v, budget, maxBound)
    requires i < |SpaceFrom(p, v, budget, maxBound)|
    ensures StepsFrom(p, SpaceFrom(p, v, budget, maxBound), i, budget, maxBound)
    decreases p, p.Width() - v
  {
    var block := Block(p, v, budget, maxBound);
    var rest := if Enumerable(p, v + 1, budget, maxBound) then SpaceFrom(p, v + 1, budget, maxBound) else [];
    assert SpaceFrom(p, v, budget, maxBound) == block + rest;
    if i >= |block| {
      OdometerStepsFrom(p, v + 1, i - |block|, budget, maxBound);
      ShiftedStep(p, block, rest, i - |block|, budget, maxBound);
    } else if i + 1 < |block| {
      StepInsideBlock(p, v, i, budget, maxBound);
      EarlierStep(p, block, rest, i, budget, maxBound);
    } else {
      StepToNextBlock(p, v, budget, maxBound);
    }
  }

  lemma {:induction false} StepInsideBlock(p: Program, v: nat, i: nat, budget: nat, maxBound: nat)
    requires Enumerable(p, v, budget, maxBound)
    requires i + 1 < |Block(p, v, budget, maxBound)|
    ensures StepsFrom(p, Block(p, v, budget, maxBound), i, budget, maxBound)
    decreases p, 0
  {
    var inner := Space(p.branches[v], Spend(budget, v), maxBound);
    OdometerSteps(p.branches[v], i, Spend(budget, v), maxBound);
    var path := Block(p, v, budget, maxBound)[i];
    assert path[1..] == inner[i];
    var plan := NextPlan(inner[i], Spend(budget, v), maxBound).value;
    var last := LastBumpable(inner[i], Spend(budget, v), maxBound);
    LastBumpableIsRightmost(path, budget, maxBound);
    assert Bumped(path, last + 1) == [path[0]] + plan;
    assert ([path[0]] + plan)[1..] == plan;
  }

  /** After the last path of a block the first draw is bumped, if it may be. */
  lemma {:induction false} NextAfterBlock(p: Program, v: nat, budget: nat, maxBound: nat)
    requires Enumerable(p, v, budget, maxBound)
    ensures
      var block := Block(p, v, budget, maxBound);
      NextPlan(block[|block| - 1], budget, maxBound) ==
        if Enumerable(p, v + 1, budget, maxBound) then Some([Choice(p.site, v + 1, |p.branches|)]) else None
    decreases p, 0, 0
  {
    var inner := Space(p.branches[v], Spend(budget, v), maxBound);
    var block := Block(p, v, budget, maxBound);
    var path := block[|block| - 1];
    OdometerSteps(p.branches[v], |inner| - 1, Spend(budget, v), maxBound);
    assert path[1..] == inner[|inner| - 1];
    if Enumerable(p, v + 1, budget, maxBound) {
      assert Bumped(path, 0) == [Choice(p.site, v + 1, |p.branches|)];
    }
  }

  /** The plan of one draw realizes as the first path of that draw's block. */
  lemma {:induction false} FirstOfBlock(p: Program, v: nat, budget: nat, maxBound: nat)
    requires Enumerable(p, v, budget, maxBound)
    ensures Realize(p, [Choice(p.site, v, |p.branches|)]) == SpaceFrom(p, v, budget, maxBound)[0]
    decreases p, 0
  {
    FirstIsDefault(p.branches[v], Spend(budget, v), maxBound);
    assert [Choice(p.site, v, |p.branches|)][1..] == [];
    assert SpaceFrom(p, v, budget, maxBound)[0] == Block(p, v, budget, maxBound)[0];
  }

  /** From the last path of one block to the first path behind it. */
  lemma CrossingStep(p: Program, block: seq<seq<Draw>>, behind: seq<seq<Draw>>, budget: int, maxBound: nat)
    requires block != []
    requires match NextPlan(block[|block| - 1], budget, maxBound)
             case None => behind == []
             case Some(plan) => behind != [] && Realize(p, plan) == behind[0]
    ensures StepsFrom(p, block + behind, |block| - 1, budget, maxBound)
  {
  }

  lemma {:induction false} StepToNextBlock(p: Program, v: nat, budget: nat, maxBound: nat)
    requires Enumerable(p, v, budget, maxBound)
    ensures StepsFrom(p, SpaceFrom(p, v, budget, maxBound), |Block(p, v, budget, maxBound)| - 1, budget, maxBound)
    decreases p, 0, 1
  {
    var block := Block(p, v, budget, maxBound);
    var rest := if Enumerable(p, v + 1, budget, maxBound) then SpaceFrom(p, v + 1, budget, maxBound) else [];
    assert SpaceFrom(p, v, budget, maxBound) == block + rest;
    NextAfterBlock(p, v, budget, maxBound);
    if Enumerable(p, v + 1, budget, maxBound) {
      FirstOfBlock(p, v + 1, budget, maxBound);
    }
    CrossingStep(p, block, rest, budget, maxBound);
  }

  /** The first path of a space is the default run. */
  lemma {:induction false} FirstIsDefault(p: Program, budget: nat, maxBound: nat)
    ensures Space(p, budget, maxBound)[0] == Realize(p, [])
    decreases p
  {
    if !p.Ended() {
      FirstIsDefault(p.branches[0], budget, maxBound);
      assert Space(p, budget, maxBound)[0] == Block(p, 0, budget, maxBound)[0];
    }
  }

  /** Looks for the draw to bump, right to left, and truncates the tape after it. */
  method Advance(draws: seq<Draw>, maxDelays: nat, maxBound: nat) returns (plan: Option<seq<Draw>>)
    ensures plan == NextPlan(draws, maxDelays, maxBound)
  {
    LastBumpableIsRightmost(draws, maxDelays, maxBound);
    var index := |draws| - 1;
    while index >= 0
      invariant LastBumpable(draws, maxDelays, maxBound) <= index < |draws|
    {
      if Bumpable(draws, index, maxDelays, maxBound) {
        return Some(Bumped(draws, index));
      }
      index := index - 1;
    }
    return None;
  }

  // ---------------------------------------------------------------------------------------------
  // The campaign
  // ---------------------------------------------------------------------------------------------

  datatype Failure = Failure(schedule: nat, error: string)

  datatype SystematicResult = SystematicResult(
    schedules: nat,
    failures: seq<Failure>,
    maxDelays: nat,
    exhaustive: bool,
    firstFailureAt: Option<nat>,
    firstFailureDelays: Option<nat>,
    first: Option<RunResult>)
  {
    predicate Failed() {
      failures != []
    }

    predicate ProvenCorrect() {
      exhaustive && !Failed()
    }

    /** Counts one more run; the first failing one is kept as the witness. */
    function Record(run: RunResult): SystematicResult {
      var n := schedules + 1;
      if run.outcome.Returned? then this.(schedules := n) else
      var failing := this.(schedules := n, failures := failures + [Failure(n, run.outcome.error)]);
      if first.Some? then failing
      else failing.(first := Some(run), firstFailureAt := Some(n), firstFailureDelays := Some(Delays(run.tape)))
    }
  }

  predicate Fails(p: Program, path: seq<Draw>) {
    IsPath(p, path) && Leaf(p, path).Raised?
  }

  /** What the campaign reports about the paths it has run so far. */
  function FailuresIn(p: Program, visited: seq<seq<Draw>>): seq<Failure>
    requires forall path | path in visited :: IsPath(p, path)
  {
    if visited == [] then [] else
    var n := |visited|;
    FailuresIn(p, visited[..n - 1])
    + (if Fails(p, visited[n - 1]) then [Failure(n, Leaf(p, visited[n - 1]).error)] else [])
  }

  /** The first failing path among those run so far is what the result reports as its witness. */
  ghost predicate ReportsFirst(p: Program, visited: seq<seq<Draw>>, r: SystematicResult) {
    match r.first
    case None =>
      && r.firstFailureAt == None && r.firstFailureDelays == None
      && forall i | 0 <= i < |visited| :: !Fails(p, visited[i])
    case Some(run) =>
      && r.firstFailureAt.Some? && 1 <= r.firstFailureAt.value <= |visited|
      && visited[r.firstFailureAt.value - 1] == run.tape
      && r.firstFailureDelays == Some(Delays(run.tape))
      && Fails(p, run.tape) && run.outcome == Leaf(p, run.tape)
      && forall i | 0 <= i < r.firstFailureAt.value - 1 :: !Fails(p, visited[i])
  }

  ghost predicate Underway(p: Program, space: seq<seq<Draw>>, visited: seq<seq<Draw>>, report: SystematicResult) {
    && visited <= space && |visited| == report.schedules
    && (forall path | path in visited :: IsPath(p, path))
    && report.failures == FailuresIn(p, visited)
    && ReportsFirst(p, visited, report)
    && (report.Failed() <==> report.first.Some?)
  }

  lemma FailuresGrow(p: Program, visited: seq<seq<Draw>>, path: seq<Draw>)
    requires IsPath(p, path) && forall other | other in visited :: IsPath(p, other)
    ensures forall other | other in visited + [path] :: IsPath(p, other)
    ensures FailuresIn(p, visited + [path]) == FailuresIn(p, visited)
      + if Fails(p, path) then [Failure(|visited| + 1, Leaf(p, path).error)] else []
  {
    assert (visited + [path])[..|visited|] == visited;
  }

  lemma FirstStays(p: Program, visited: seq<seq<Draw>>, path: seq<Draw>, report: SystematicResult)
    requires IsPath(p, path) && ReportsFirst(p, visited, report) && report.schedules == |visited|
    ensures ReportsFirst(p, visited + [path], report.Record(RunResult(Leaf(p, path), path)))
  {
    var visited' := visited + [path];
    assert visited'[|visited|] == path;
    assert forall i | 0 <= i < |visited| :: visited'[i] == visited[i];
  }

  lemma RecordKeepsReport(p: Program, space: seq<seq<Draw>>, visited: seq<seq<Draw>>, report: SystematicResult)
    requires Underway(p, space, visited, report)
    requires |visited| < |space| && IsPath(p, space[|visited|])
    ensures
      var path := space[|visited|];
      Underway(p, space, visited + [path], report.Record(RunResult(Leaf(p, path), path)))
  {
    var path := space[|visited|];
    FailuresGrow(p, visited, path);
    FirstStays(p, visited, path, report);
    assert visited + [path] == space[..|visited| + 1];
  }

  /** The contract of a campaign: it runs the first paths of the space, in order, and stops early
      only on a failure it was told to stop on, or when the budget of schedules is used up. */
  ghost predicate Explored(p: Program, maxDelays: nat, maxSchedules: nat, maxBound: nat, stopOnFailure: bool,
                           visited: seq<seq<Draw>>, result: SystematicResult)
  {
    var space := Space(p, maxDelays, maxBound);
    var stopped := stopOnFailure && result.Failed();
    && Underway(p, space, visited, result) && result.schedules <= maxSchedules
    && (result.exhaustive ==> visited == space && !stopped)
    && (!result.exhaustive ==> stopped || (result.schedules == maxSchedules && result.schedules < |space|))
    && (stopped ==> result.firstFailureAt == Some(result.schedules))
  }

  /** The odometer rolled over: the campaign ends exhaustive. */
  lemma RolledOver(p: Program, maxDelays: nat, maxSchedules: nat, maxBound: nat, stopOnFailure: bool,
                   visited: seq<seq<Draw>>, report: SystematicResult)
    requires Underway(p, Space(p, maxDelays, maxBound), visited, report) && report.schedules <= maxSchedules
    requires |visited| == |Space(p, maxDelays, maxBound)| && !(stopOnFailure && report.Failed())
    ensures Explored(p, maxDelays, maxSchedules, maxBound, stopOnFailure, visited, report.(exhaustive := true))
  {
    assert visited == Space(p, maxDelays, maxBound);
  }

  /** Runs one plan and counts the run. */
  method RunPlan(p: Program, plan: seq<Draw>, ghost space: seq<seq<Draw>>, ghost visited: seq<seq<Draw>>,
                 before: SystematicResult)
    returns (run: RunResult, after: SystematicResult)
    requires Underway(p, space, visited, before)
    requires |visited| < |space| && Realize(p, plan) == space[|visited|]
    ensures run.tape == space[|visited|]
    ensures after == before.Record(run) && after.maxDelays == before.maxDelays
    ensures Underway(p, space, visited + [run.tape], after)
  {
    run := ReplayZero(p, plan);
    after := before.Record(run);
    RecordKeepsReport(p, space, visited, before);
  }

  /** The loop of `explore_systematic`, once its arguments are checked. */
  method Campaign(p: Program, maxDelays: nat, maxSchedules: nat, maxBound: nat, stopOnFailure: bool)
    returns (report: SystematicResult, ghost visited: seq<seq<Draw>>)
    requires maxSchedules >= 1
    ensures Explored(p, maxDelays, maxSchedules, maxBound, stopOnFailure, visited, report)
    ensures report.maxDelays == maxDelays && report.schedules <= maxSchedules
  {
    visited := [];
    ghost var space := Space(p, maxDelays, maxBound);
    var plan: seq<Draw> := [];
    report := SystematicResult(0, [], maxDelays, false, None, None, None);

    FirstIsDefault(p, maxDelays, maxBound);

    while report.schedules < maxSchedules
      invariant Underway(p, space, visited, report)
      invariant report.schedules <= maxSchedules
      invariant |visited| < |space| && Realize(p, plan) == space[|visited|]
      invariant stopOnFailure ==> !report.Failed()
      invariant !report.exhaustive && report.maxDelays == maxDelays
    {
      var run;
      run, report := RunPlan(p, plan, space, visited, report);
      visited := visited + [run.tape];
      if run.outcome.Raised? && stopOnFailure {
        return;
      }
      var next := Advance(run.tape, maxDelays, maxBound);
      OdometerSteps(p, |visited| - 1, maxDelays, maxBound);
      if next.None? {
        RolledOver(p, maxDelays, maxSchedules, maxBound, stopOnFailure, visited, report);
        report := report.(exhaustive := true);
        return;
      }
      plan := next.value;
    }
  }

  /** `explore_systematic`; `visited` lists the tapes of its runs. */
  method ExploreSystematic(p: Program, maxDelays: int, maxSchedules: int, maxBound: int, stopOnFailure: bool)
    returns (r: Result<SystematicResult, string>, ghost visited: seq<seq<Draw>>)
    ensures r.Err? <==> maxDelays < 0 || maxSchedules < 1 || maxBound < 2
    ensures r.Ok? ==>
      && Explored(p, maxDelays, maxSchedules, maxBound, stopOnFailure, visited, r.value)
      && r.value.maxDelays == maxDelays
      && (r.value.ProvenCorrect() <==>
            && |Space(p, maxDelays, maxBound)| <= maxSchedules
            && forall path | InSpace(p, path, maxDelays, maxBound) :: Leaf(p, path).Returned?)
  {
    visited := [];
    if maxDelays < 0 {
      return Err("max_delays must be >= 0"), visited;
    }
    if maxSchedules < 1 {
      return Err("max_schedules must be >= 1"), visited;
    }
    if maxBound < 2 {
      return Err("max_bound must be >= 2"), visited;
    }

    var report;
    report, visited := Campaign(p, maxDelays, maxSchedules, maxBound, stopOnFailure);
    ProvenCorrectMeansNoFailure(p, maxDelays, maxSchedules, maxBound, stopOnFailure, visited, report);
    r := Ok(report);
  }

  // ---------------------------------------------------------------------------------------------
  // What a campaign proves
  // ---------------------------------------------------------------------------------------------

  lemma {:induction false} NoFailuresReported(p: Program, visited: seq<seq<Draw>>)
    requires forall path | path in visited :: IsPath(p, path)
    ensures FailuresIn(p, visited) == [] <==> forall path | path in visited :: !Fails(p, path)
  {
    if visited == [] {
    } else {
      var n := |visited| - 1;
      NoFailuresReported(p, visited[..n]);
      assert forall path :: path in visited <==> path in visited[..n] || path == visited[n];
    }
  }

  /** With no failure stop and no budget cut, the campaign visits every path of the bounded space,
      nothing else, each once and in lexicographic order. */
  lemma ExhaustiveCoversTheSpace(p: Program, maxDelays: nat, maxSchedules: nat, maxBound: nat, stopOnFailure: bool,
                                 visited: seq<seq<Draw>>, r: SystematicResult)
    requires Explored(p, maxDelays, maxSchedules, maxBound, stopOnFailure, visited, r)
    ensures Increasing(visited)
    ensures forall path | path in visited :: InSpace(p, path, maxDelays, maxBound)
    ensures r.exhaustive <==>
      !(stopOnFailure && r.Failed()) && forall path | InSpace(p, path, maxDelays, maxBound) :: path in visited
  {
    var space := Space(p, maxDelays, maxBound);
    SpaceIncreasing(p, maxDelays, maxBound);
    assert forall i | 0 <= i < |visited| :: visited[i] == space[i];
    forall path ensures path in space <==> InSpace(p, path, maxDelays, maxBound) {
      SpaceIsExact(p, path, maxDelays, maxBound);
    }
    forall path | path in visited ensures InSpace(p, path, maxDelays, maxBound) {
      assert path in space;
    }
    if !r.exhaustive && !(stopOnFailure && r.Failed()) {
      var next := space[|visited|];
      assert next in space && next !in visited;
    }
  }

  /** `proven_correct` holds exactly when the budget covers the space and no path in it fails. */
  lemma ProvenCorrectMeansNoFailure(p: Program, maxDelays: nat, maxSchedules: nat, maxBound: nat, stopOnFailure: bool,
                                    visited: seq<seq<Draw>>, r: SystematicResult)
    requires Explored(p, maxDelays, maxSchedules, maxBound, stopOnFailure, visited, r)
    ensures r.ProvenCorrect() <==>
      && |Space(p, maxDelays, maxBound)| <= maxSchedules
      && forall path | InSpace(p, path, maxDelays, maxBound) :: Leaf(p, path).Returned?
  {
    var space := Space(p, maxDelays, maxBound);
    NoFailuresReported(p, visited);
    forall path ensures path in space <==> InSpace(p, path, maxDelays, maxBound) {
      SpaceIsExact(p, path, maxDelays, maxBound);
    }
    if r.ProvenCorrect() {
      forall path | InSpace(p, path, maxDelays, maxBound) ensures Leaf(p, path).Returned? {
        assert path in visited;
      }
    }
    if forall path | InSpace(p, path, maxDelays, maxBound) :: Leaf(p, path).Returned? {
      forall path | path in visited ensures !Fails(p, path) {
        assert path in space;
      }
    }
  }

  /** The first failure a campaign finds is the lexicographically least failing path of the space. */
  lemma FirstFailureIsLeast(p: Program, maxDelays: nat, maxSchedules: nat, maxBound: nat, stopOnFailure: bool,
                            visited: seq<seq<Draw>>, r: SystematicResult, path: seq<Draw>)
    requires Explored(p, maxDelays, maxSchedules, maxBound, stopOnFailure, visited, r)
    requires r.first.Some? && InSpace(p, path, maxDelays, maxBound) && Fails(p, path)
    ensures path == r.first.value.tape || LexLess(r.first.value.tape, path)
    ensures InSpace(p, r.first.value.tape, maxDelays, maxBound) && Fails(p, r.first.value.tape)
  {
    var space := Space(p, maxDelays, maxBound);
    var at := r.firstFailureAt.value - 1;
    assert visited[at] == space[at] == r.first.value.tape;
    SpaceIsExact(p, path, maxDelays, maxBound);
    SpaceIsExact(p, space[at], maxDelays, maxBound);
    SpaceIncreasing(p, maxDelays, maxBound);
    forall i | 0 <= i < at ensures space[i] != path {
      assert visited[i] == space[i];
    }
    var i :| at <= i < |space| && space[i] == path;
  }

  // --- raising the delay bound only adds schedules ---

  ghost function Elements(space: seq<seq<Draw>>): set<seq<Draw>> {
    set path | path in space
  }

  lemma {:induction false} IncreasingHasNoRepeats(space: seq<seq<Draw>>)
    requires Increasing(space)
    ensures |Elements(space)| == |space|
  {
    if space == [] {
    } else {
      var n := |space| - 1;
      IncreasingHasNoRepeats(space[..n]);
      assert space[n] !in space[..n];
      assert Elements(space) == Elements(space[..n]) + {space[n]};
    }
  }

  lemma {:induction false} SubsetIsSmaller(a: set<seq<Draw>>, b: set<seq<Draw>>)
    requires a <= b
    ensures |a| <= |b|
  {
    if a == {} {
    } else {
      var x :| x in a;
      SubsetIsSmaller(a - {x}, b - {x});
    }
  }

  /** The explored set of an exhaustive search grows with the delay bound, and so does its count. */
  lemma MoreDelaysExploreMore(p: Program, fewer: nat, more: nat, maxBound: nat)
    requires fewer <= more
    ensures forall path | path in Space(p, fewer, maxBound) :: path in Space(p, more, maxBound)
    ensures |Space(p, fewer, maxBound)| <= |Space(p, more, maxBound)|
  {
    var a, b := Space(p, fewer, maxBound), Space(p, more, maxBound);
    forall path | path in a ensures path in b {
      SpaceIsExact(p, path, fewer, maxBound);
      SpaceIsExact(p, path, more, maxBound);
    }
    SpaceIncreasing(p, fewer, maxBound);
    SpaceIncreasing(p, more, maxBound);
    IncreasingHasNoRepeats(a);
    IncreasingHasNoRepeats(b);
    SubsetIsSmaller(Elements(a), Elements(b));
  }

  /** Every path of the tree is within reach of some delay bound, wide draws apart. */
  lemma {:induction false} UnboundedSearchIsComplete(p: Program, path: seq<Draw>, maxBound: nat)
    requires IsPath(p, path)
    requires forall i | 0 <= i < |path| :: path[i].bound <= maxBound
    ensures path in Space(p, Delays(path), maxBound)
  {
    SpaceIsExact(p, path, Delays(path), maxBound);
  }
}
