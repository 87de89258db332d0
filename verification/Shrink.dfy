/** The shrinker (src/simloom/_shrink.py): greedy minimization of a failing tape. Accepted candidates are
    re-recorded. */
module Shrinking {
  import opened Wrappers
  import opened Tapes
  import opened Runs
  import opened Systematic

  // ---------------------------------------------------------------------------------------------
  // The minimization order
  // ---------------------------------------------------------------------------------------------

  function Values(draws: seq<Draw>): (values: seq<nat>)
    ensures |values| == |draws|
    ensures forall i | 0 <= i < |draws| :: values[i] == draws[i].value
  {
    seq(|draws|, i requires 0 <= i < |draws| => draws[i].value)
  }

  /** Lexicographic order on value lists, a proper prefix coming first. */
  predicate ValuesLess(a: seq<nat>, b: seq<nat>) {
    b != [] && (a == [] || a[0] < b[0] || (a[0] == b[0] && ValuesLess(a[1..], b[1..])))
  }

  /** `_key(a) < _key(b)`: fewer deviations, then fewer draws, then smaller values. */
  predicate KeyLess(a: seq<Draw>, b: seq<Draw>) {
    || Delays(a) < Delays(b)
    || (Delays(a) == Delays(b) && |a| < |b|)
    || (Delays(a) == Delays(b) && |a| == |b| && ValuesLess(Values(a), Values(b)))
  }

  // --- the order is transitive ---

  lemma {:induction false} ValuesLessTransitive(a: seq<nat>, b: seq<nat>, c: seq<nat>)
    requires ValuesLess(a, b) && ValuesLess(b, c)
    ensures ValuesLess(a, c)
  {
    if a != [] && a[0] == b[0] == c[0] {
      ValuesLessTransitive(a[1..], b[1..], c[1..]);
    }
  }

  lemma KeyLessTransitive(a: seq<Draw>, b: seq<Draw>, c: seq<Draw>)
    requires KeyLess(a, b) && KeyLess(b, c)
    ensures KeyLess(a, c)
  {
    if Delays(a) == Delays(b) == Delays(c) && |a| == |b| == |c| {
      ValuesLessTransitive(Values(a), Values(b), Values(c));
    }
  }

  // --- and well founded: no tape can be improved for ever ---

  /** Value lists below which there is no endless descent among lists of the same length. */
  least predicate ValuesEnd(values: seq<nat>) {
    forall less: seq<nat> | |less| == |values| && ValuesLess(less, values) :: ValuesEnd(less)
  }

  lemma {:induction false} ConsEnds(head: nat, tail: seq<nat>, k: ORDINAL)
    requires ValuesEnd#[k](tail) && forall other: seq<nat> | |other| == |tail| :: ValuesEnd(other)
    ensures ValuesEnd([head] + tail)
    decreases head, k
  {
    var values := [head] + tail;
    forall less: seq<nat> | |less| == |values| && ValuesLess(less, values) ensures ValuesEnd(less) {
      assert less == [less[0]] + less[1..] && values[1..] == tail;
      if less[0] < head {
        var j: ORDINAL :| ValuesEnd#[j](less[1..]);
        ConsEnds(less[0], less[1..], j);
      } else {
        var j := Below(k, tail, less[1..]);
        ConsEnds(head, less[1..], j);
      }
    }
  }

  lemma {:induction false} Below(k: ORDINAL, values: seq<nat>, less: seq<nat>) returns (j: ORDINAL)
    requires ValuesEnd#[k](values) && |less| == |values| && ValuesLess(less, values)
    ensures j < k && ValuesEnd#[j](less)
  {
    if k.IsLimit {
      var i: ORDINAL :| i < k && ValuesEnd#[i](values);
      j := Below(i, values, less);
    } else {
      j := k - 1;
    }
  }

  lemma {:induction false} AllValuesEnd(values: seq<nat>)
    ensures ValuesEnd(values)
    decreases |values|
  {
    if values != [] {
      forall other: seq<nat> | |other| == |values| - 1 ensures ValuesEnd(other) {
        AllValuesEnd(other);
      }
      assert ValuesEnd(values[1..]);
      var k: ORDINAL :| ValuesEnd#[k](values[1..]);
      ConsEnds(values[0], values[1..], k);
      assert values == [values[0]] + values[1..];
    }
  }

  /** Tapes that cannot be improved for ever. */
  least predicate Ends(tape: seq<Draw>) {
    forall less | KeyLess(less, tape) :: Ends(less)
  }

  lemma {:induction false} TapeEnds(tape: seq<Draw>, k: ORDINAL)
    requires ValuesEnd#[k](Values(tape))
    ensures Ends(tape)
    decreases Delays(tape), |tape|, k
  {
    forall less | KeyLess(less, tape) ensures Ends(less) {
      if Delays(less) < Delays(tape) || |less| < |tape| {
        AllValuesEnd(Values(less));
        var j: ORDINAL :| ValuesEnd#[j](Values(less));
        TapeEnds(less, j);
      } else {
        var j := Below(k, Values(tape), Values(less));
        TapeEnds(less, j);
      }
    }
  }

  lemma {:induction false} LeastRank(tape: seq<Draw>, k: ORDINAL) returns (rank: ORDINAL)
    requires Ends#[k](tape)
    ensures IsRank(tape, rank)
    decreases k
  {
    if j: ORDINAL :| j < k && Ends#[j](tape) {
      rank := LeastRank(tape, j);
    } else {
      rank := k;
    }
  }

  ghost predicate IsRank(tape: seq<Draw>, rank: ORDINAL) {
    Ends#[rank](tape) && forall j: ORDINAL | j < rank :: !Ends#[j](tape)
  }

  lemma EveryTapeEnds(tape: seq<Draw>)
    ensures exists rank :: IsRank(tape, rank)
  {
    AllValuesEnd(Values(tape));
    var k: ORDINAL :| ValuesEnd#[k](Values(tape));
    TapeEnds(tape, k);
    var j: ORDINAL :| Ends#[j](tape);
    var rank := LeastRank(tape, j);
  }

  /** How far a tape is from the bottom of the order. */
  ghost function Rank(tape: seq<Draw>): (rank: ORDINAL)
    ensures IsRank(tape, rank)
  {
    EveryTapeEnds(tape);
    var rank :| IsRank(tape, rank);
    rank
  }

  lemma {:induction false} StepsBelow(tape: seq<Draw>, less: seq<Draw>, k: ORDINAL) returns (j: ORDINAL)
    requires Ends#[k](tape) && KeyLess(less, tape)
    ensures j < k && Ends#[j](less)
  {
    if k.IsLimit {
      var i: ORDINAL :| i < k && Ends#[i](tape);
      j := StepsBelow(tape, less, i);
    } else {
      j := k - 1;
    }
  }

  /** The key order is well founded: a smaller key has a smaller rank, and ranks cannot fall for ever. */
  lemma SmallerKeyFalls(less: seq<Draw>, tape: seq<Draw>)
    requires KeyLess(less, tape)
    ensures Rank(less) < Rank(tape)
  {
    var j := StepsBelow(tape, less, Rank(tape));
    assert !(j < Rank(less));
  }

  lemma {:induction false} NoEndlessFrom(tapes: nat -> seq<Draw>, from: nat)
    ensures exists n: nat :: !KeyLess(tapes(n + 1), tapes(n))
    decreases Rank(tapes(from))
  {
    if KeyLess(tapes(from + 1), tapes(from)) {
      SmallerKeyFalls(tapes(from + 1), tapes(from));
      NoEndlessFrom(tapes, from + 1);
    }
  }

  /** Hence every infinite sequence of tapes has a step that does not descend. */
  lemma NoEndlessShrinking(tapes: nat -> seq<Draw>)
    ensures exists n: nat :: !KeyLess(tapes(n + 1), tapes(n))
  {
    NoEndlessFrom(tapes, 0);
  }

  // --- a smaller tape may be a longer one ---

  /** Only at the price of deviations: a tape of smaller key that is longer has fewer of them. */
  lemma LongerHasFewerDeviations(a: seq<Draw>, b: seq<Draw>)
    ensures KeyLess(a, b) && |a| > |b| <==> Delays(a) < Delays(b) && |a| > |b|
  {
  }

  const OOPS := Finished(Raised("oops"))

  /** After the answer 0 this program asks once more. */
  const LONGER_AT_ZERO := Request("a", [Request("b", [OOPS]), OOPS])

  /** The run of one draw, 1, is improved by lowering it to 0: the accepted tape has two draws. */
  lemma AcceptedMayBeLonger()
    ensures
      var tape: seq<Draw> := [Choice("a", 1, 2)];
      var run := ZeroFilled(LONGER_AT_ZERO, WithValue(tape, 0, 0));
      && IsPath(LONGER_AT_ZERO, tape) && Leaf(LONGER_AT_ZERO, tape).Raised?
      && run == RunResult(Raised("oops"), [Choice("a", 0, 2), Choice("b", 0, 1)])
      && KeyLess(run.tape, tape) && |run.tape| > |tape|
  {
    var tape: seq<Draw> := [Choice("a", 1, 2)];
    var plan := WithValue(tape, 0, 0);
    assert plan == [Choice("a", 0, 2)] && plan[1..] == [] && tape[1..] == [];
    var asked := Request("b", [OOPS]);
    assert Realize(OOPS, []) == [];
    assert Realize(asked, []) == [Choice("b", 0, 1)] + [] == [Choice("b", 0, 1)];
    var longer := Realize(LONGER_AT_ZERO, plan);
    assert longer == [Choice("a", 0, 2)] + Realize(asked, []);
    assert longer[1..] == [Choice("b", 0, 1)] && longer[1..][1..] == [];
    assert Delays(longer) == Delays(longer[1..]) == Delays(longer[1..][1..]) == 0;
    assert Delays(tape) == 1 + Delays(tape[1..]);
    assert Leaf(LONGER_AT_ZERO, longer) == Leaf(asked, longer[1..]) == Leaf(OOPS, longer[1..][1..]) == Raised("oops");
    assert IsPath(OOPS, tape[1..]) && Leaf(LONGER_AT_ZERO, tape) == Leaf(OOPS, tape[1..]);
  }

  // ---------------------------------------------------------------------------------------------
  // Candidates
  // ---------------------------------------------------------------------------------------------

  /** `_descend`: what a value may be lowered to, zero being tried before anything else. */
  function Descend(value: nat): (candidates: seq<nat>)
    requires value > 0
    ensures forall c | c in candidates :: c < value
    ensures 0 in candidates && value / 2 in candidates && value - 1 in candidates
  {
    var half := value / 2;
    var candidates := [0] + (if half != 0 && half != value then [half] else []);
    assert half in candidates;
    candidates + (if value - 1 !in candidates then [value - 1] else [])
  }

  function Without(draws: seq<Draw>, from: nat, chunk: nat): seq<Draw>
    requires from <= |draws|
  {
    draws[..from] + (if from + chunk <= |draws| then draws[from + chunk..] else [])
  }

  function Zeroed(draws: seq<Draw>): (zeroed: seq<Draw>)
    ensures |zeroed| == |draws|
  {
    seq(|draws|, i requires 0 <= i < |draws| => Choice(draws[i].site, 0, draws[i].bound))
  }

  function WithZeroedBlock(draws: seq<Draw>, from: nat, chunk: nat): seq<Draw>
    requires from <= |draws|
  {
    if from + chunk <= |draws| then draws[..from] + Zeroed(draws[from..from + chunk]) + draws[from + chunk..]
    else draws[..from] + Zeroed(draws[from..])
  }

  /** The chunk of a sweep that starts at `from`; the last one may be short. */
  function BlockAt(draws: seq<Draw>, from: nat, chunk: nat): seq<Draw>
    requires from <= |draws|
  {
    draws[from..if from + chunk <= |draws| then from + chunk else |draws|]
  }

  predicate HasNonzero(block: seq<Draw>) {
    exists d | d in block :: d.value != 0
  }

  /** The first chunk size of a pass over `length` draws. */
  function Coarsest(length: nat): (chunk: nat)
    ensures chunk >= 1
  {
    if length / 2 > 1 then length / 2 else 1
  }

  /** `chunk` is one of the sizes `size`, `size` / 2, `size` / 4, ..., 1. */
  predicate Halving(size: nat, chunk: nat)
    ensures Halving(size, chunk) ==> 1 <= chunk <= size
  {
    size >= 1 && (chunk == size || Halving(size / 2, chunk))
  }

  /** Each size is followed by its half, down to the sweep over single draws. */
  lemma {:induction false} SizesHalve(size: nat, chunk: nat)
    requires Halving(size, chunk)
    ensures Halving(size, size) && Halving(size, 1)
    ensures chunk > 1 ==> Halving(size, chunk / 2)
  {
    if size > 1 {
      SizesHalve(size / 2, if chunk == size then size / 2 else chunk);
    }
  }

  /** `index` is 0, `chunk`, twice `chunk`, ...: where the chunks of a sweep start. */
  predicate ChunkStart(index: nat, chunk: nat)
    requires chunk >= 1
  {
    index == 0 || (index >= chunk && ChunkStart(index - chunk, chunk))
  }

  lemma {:induction false} SinglesStartAnywhere(index: nat)
    ensures ChunkStart(index, 1)
  {
    if index != 0 {
      SinglesStartAnywhere(index - 1);
    }
  }

  /** Between two such places lies no other. */
  lemma {:induction false} NoStartBetween(from: nat, index: nat, chunk: nat)
    requires chunk >= 1 && ChunkStart(from, chunk) && from < index < from + chunk
    ensures !ChunkStart(index, chunk)
  {
    if from != 0 {
      NoStartBetween(from - chunk, index - chunk, chunk);
    }
  }

  function WithValue(draws: seq<Draw>, i: nat, value: nat): seq<Draw>
    requires i < |draws| && value < draws[i].bound
  {
    draws[..i] + [Choice(draws[i].site, value, draws[i].bound)] + draws[i + 1..]
  }

  // ---------------------------------------------------------------------------------------------
  // What the shrinker promises
  // ---------------------------------------------------------------------------------------------

  /** The failing run shrinking starts from, the program it came from, and what keeps it failing. */
  datatype Goal = Goal(program: Program, interesting: RunResult -> bool)
  {
    /** Running `candidate` is not interesting, or its re-recorded tape is no improvement. */
    ghost predicate Rejects(candidate: seq<Draw>, current: seq<Draw>) {
      var run := ZeroFilled(program, candidate);
      !interesting(run) || !KeyLess(run.tape, current)
    }

    /** `run` is an interesting run of the program, recorded exactly. */
    ghost predicate Witness(run: RunResult) {
      && IsPath(program, run.tape)
      && run.outcome == Leaf(program, run.tape)
      && interesting(run)
    }

    /** Either still the run shrinking started from, or a smaller witness. */
    ghost predicate Descends(start: RunResult, run: RunResult) {
      run == start || (Witness(run) && KeyLess(run.tape, start.tape))
    }

    /** Deleting the chunk at `index` does not help; a tape is never emptied. */
    ghost predicate NoDeletionAt(current: seq<Draw>, chunk: nat, index: nat)
      requires index <= |current|
    {
      Without(current, index, chunk) != [] ==> Rejects(Without(current, index, chunk), current)
    }

    /** Nor does zeroing the block at `index`, if there is anything to zero in it. */
    ghost predicate NoZeroingAt(current: seq<Draw>, chunk: nat, index: nat)
      requires index <= |current|
    {
      HasNonzero(BlockAt(current, index, chunk)) ==> Rejects(WithZeroedBlock(current, index, chunk), current)
    }

    ghost predicate NoDeletionBelow(current: seq<Draw>, chunk: nat, n: nat)
      requires chunk >= 1
    {
      forall index: nat | index < n && index < |current| && ChunkStart(index, chunk) ::
        NoDeletionAt(current, chunk, index)
    }

    ghost predicate NoZeroingBelow(current: seq<Draw>, chunk: nat, n: nat)
      requires chunk >= 1
    {
      forall index: nat | index < n && index < |current| && ChunkStart(index, chunk) ::
        NoZeroingAt(current, chunk, index)
    }

    lemma DeletionNext(current: seq<Draw>, chunk: nat, n: nat)
      requires chunk >= 1 && ChunkStart(n, chunk) && NoDeletionBelow(current, chunk, n)
      requires n < |current| ==> NoDeletionAt(current, chunk, n)
      ensures NoDeletionBelow(current, chunk, n + chunk) && ChunkStart(n + chunk, chunk)
    {
      forall index: nat | index < n + chunk && index < |current| && ChunkStart(index, chunk)
        ensures NoDeletionAt(current, chunk, index)
      {
        if index > n {
          NoStartBetween(n, index, chunk);
        }
      }
    }

    lemma ZeroingNext(current: seq<Draw>, chunk: nat, n: nat)
      requires chunk >= 1 && ChunkStart(n, chunk) && NoZeroingBelow(current, chunk, n)
      requires n < |current| ==> NoZeroingAt(current, chunk, n)
      ensures NoZeroingBelow(current, chunk, n + chunk) && ChunkStart(n + chunk, chunk)
    {
      forall index: nat | index < n + chunk && index < |current| && ChunkStart(index, chunk)
        ensures NoZeroingAt(current, chunk, index)
      {
        if index > n {
          NoStartBetween(n, index, chunk);
        }
      }
    }

    /** No sweep of the pass that starts at `coarsest`, the sizes of `yet` and below being open. */
    ghost predicate NoDeletionDownTo(current: seq<Draw>, coarsest: nat, yet: nat) {
      forall chunk: nat | Halving(coarsest, chunk) && !Halving(yet, chunk) ::
        NoDeletionBelow(current, chunk, |current|)
    }

    ghost predicate NoZeroingDownTo(current: seq<Draw>, coarsest: nat, yet: nat) {
      forall chunk: nat | Halving(coarsest, chunk) && !Halving(yet, chunk) ::
        NoZeroingBelow(current, chunk, |current|)
    }

    ghost predicate NoSmallerValueAt(current: seq<Draw>, i: nat)
      requires i < |current|
    {
      current[i].value > 0 ==>
        forall v | v in Descend(current[i].value) :: Rejects(WithValue(current, i, v), current)
    }

    ghost predicate NoSmallerValueBelow(current: seq<Draw>, n: nat)
      requires n <= |current|
    {
      forall i: nat {:trigger NoSmallerValueAt(current, i)} | i < n :: NoSmallerValueAt(current, i)
    }

    lemma BelowNext(current: seq<Draw>, n: nat)
      requires n < |current| && NoSmallerValueBelow(current, n) && NoSmallerValueAt(current, n)
      ensures NoSmallerValueBelow(current, n + 1)
    {
    }

    /** Nothing the shrinker knows helps: deleting or zeroing any block of any of its sizes, or lowering
        any one value. */
    ghost predicate Minimal(tape: seq<Draw>) {
      && NoDeletionDownTo(tape, Coarsest(|tape|), 0)
      && NoZeroingDownTo(tape, Coarsest(|tape|), 0)
      && NoSmallerValueBelow(tape, |tape|)
    }
  }

  /** A re-recorded accepted tape is again an exact path, whose strict replay is the same run. */
  lemma WitnessReplaysStrictly(goal: Goal, run: RunResult, rng: Rng)
    requires goal.Witness(run)
    ensures Replayed(goal.program, run.tape, Strict, rng).Result() == run
    ensures ZeroFilled(goal.program, run.tape) == run
  {
    StrictReplayIsExact(goal.program, run.tape, rng);
    RealizeComplete(goal.program, run.tape);
  }

  /** What minimality says about each draw of the tape. */
  lemma MinimalMeans(goal: Goal, tape: seq<Draw>, i: nat)
    requires goal.Minimal(tape) && i < |tape|
    ensures |tape| > 1 ==> goal.Rejects(tape[..i] + tape[i + 1..], tape)
    ensures
      var v := tape[i].value;
      v > 0 ==>
        && goal.Rejects(WithValue(tape, i, 0), tape)
        && goal.Rejects(WithValue(tape, i, v / 2), tape)
        && goal.Rejects(WithValue(tape, i, v - 1), tape)
  {
    SizesHalve(Coarsest(|tape|), Coarsest(|tape|));
    SinglesStartAnywhere(i);
    assert goal.NoDeletionBelow(tape, 1, |tape|);
    assert goal.NoDeletionAt(tape, 1, i);
    assert Without(tape, i, 1) == tape[..i] + tape[i + 1..];
    assert goal.NoSmallerValueAt(tape, i);
  }

  /** And about its blocks: cut into pieces of any of the sizes of a pass, no piece can be deleted, and
      none of those that are not all zero can be zeroed as a whole. */
  lemma MinimalBlocks(goal: Goal, tape: seq<Draw>, chunk: nat, index: nat)
    requires goal.Minimal(tape) && Halving(Coarsest(|tape|), chunk)
    requires index < |tape| && ChunkStart(index, chunk)
    ensures goal.NoDeletionAt(tape, chunk, index) && goal.NoZeroingAt(tape, chunk, index)
  {
    assert goal.NoDeletionBelow(tape, chunk, |tape|) && goal.NoZeroingBelow(tape, chunk, |tape|);
  }

  /** In terms of the draws; the last piece may be short. */
  lemma BlockMeans(goal: Goal, tape: seq<Draw>, chunk: nat, index: nat)
    requires index + chunk <= |tape|
    requires goal.NoDeletionAt(tape, chunk, index) && goal.NoZeroingAt(tape, chunk, index)
    ensures tape[..index] + tape[index + chunk..] != [] ==> goal.Rejects(tape[..index] + tape[index + chunk..], tape)
    ensures HasNonzero(tape[index..index + chunk]) ==>
      goal.Rejects(tape[..index] + Zeroed(tape[index..index + chunk]) + tape[index + chunk..], tape)
  {
  }

  /** The coarsest pieces are the two halves of the tape. */
  lemma MinimalHalves(goal: Goal, tape: seq<Draw>)
    requires goal.Minimal(tape) && |tape| >= 2
    ensures
      var half := |tape| / 2;
      && goal.NoDeletionAt(tape, half, 0) && goal.NoZeroingAt(tape, half, 0)
      && goal.NoDeletionAt(tape, half, half) && goal.NoZeroingAt(tape, half, half)
  {
    var half: nat := |tape| / 2;
    SizesHalve(half, half);
    assert ChunkStart(half, half);
    MinimalBlocks(goal, tape, half, 0);
    MinimalBlocks(goal, tape, half, half);
  }

  /** What shrinking has done to the run: nothing, or it has a smaller key. */
  ghost predicate Progress(before: RunResult, now: RunResult, improved: bool) {
    if improved then KeyLess(now.tape, before.tape) && Rank(now.tape) < Rank(before.tape) else now == before
  }

  lemma ProgressOnce(before: RunResult, now: RunResult)
    requires KeyLess(now.tape, before.tape)
    ensures Progress(before, now, true)
  {
    SmallerKeyFalls(now.tape, before.tape);
  }

  lemma ProgressGoesOn(a: RunResult, b: RunResult, c: RunResult, first: bool, second: bool)
    requires Progress(a, b, first) && Progress(b, c, second)
    ensures Progress(a, c, first || second)
  {
    if first && second {
      KeyLessTransitive(c.tape, b.tape, a.tape);
    }
  }

  /** A result longer than the tape shrinking started from paid for its length with fewer deviations. */
  lemma LongerResultDeviatesLess(goal: Goal, start: RunResult, run: RunResult)
    requires goal.Descends(start, run) && |run.tape| > |start.tape|
    ensures Delays(run.tape) < Delays(start.tape) && goal.Witness(run)
  {
    LongerHasFewerDeviations(run.tape, start.tape);
  }

  class Shrinker {
    const goal: Goal
    const maxRuns: Option<int>
    ghost const start: RunResult
    var current: seq<Draw>
    var currentResult: RunResult
    var runsUsed: nat

    ghost predicate Valid()
      reads this
    {
      && current == currentResult.tape
      && goal.Descends(start, currentResult)
      && (maxRuns.Some? ==> runsUsed <= maxRuns.value || runsUsed == 0)
    }

    /** No budget is left; without one there always is. */
    predicate Spent()
      reads this
    {
      maxRuns.Some? && runsUsed >= maxRuns.value
    }

    constructor (goal: Goal, failure: RunResult, maxRuns: Option<int>)
      ensures Valid() && runsUsed == 0 && currentResult == failure
      ensures this.goal == goal && this.maxRuns == maxRuns && start == failure
    {
      this.goal, this.maxRuns, start := goal, maxRuns, failure;
      current, currentResult, runsUsed := failure.tape, failure, 0;
    }

    /** `try_accept`. A candidate is accepted only for a strictly smaller key. */
    method TryAccept(candidate: seq<Draw>) returns (accepted: bool)
      requires Valid()
      modifies this
      ensures Valid() && Progress(old(currentResult), currentResult, accepted)
      ensures runsUsed == old(runsUsed) + if old(Spent()) then 0 else 1
      ensures accepted ==> !old(Spent()) && currentResult == ZeroFilled(goal.program, candidate)
      ensures !accepted && !old(Spent()) ==> goal.Rejects(candidate, current)
    {
      if Spent() {
        return false;
      }
      runsUsed := runsUsed + 1;
      var outcome := ReplayZero(goal.program, candidate);
      if !goal.interesting(outcome) {
        return false;
      }
      if KeyLess(outcome.tape, current) {
        if currentResult != start {
          KeyLessTransitive(outcome.tape, current, start.tape);
        }
        ProgressOnce(currentResult, outcome);
        current, currentResult := outcome.tape, outcome;
        return true;
      }
      return false;
    }

    /** One sweep of pass 1 with a fixed chunk size. */
    method DeleteChunks(chunk: nat) returns (improved: bool)
      requires Valid() && chunk >= 1
      modifies this
      ensures Valid() && Progress(old(currentResult), currentResult, improved)
      ensures runsUsed >= old(runsUsed) + if improved then 1 else 0
      ensures !improved && !Spent() ==> goal.NoDeletionBelow(current, chunk, |current|)
    {
      improved := false;
      var index := 0;
      while index < |current| && !Spent()
        invariant Valid() && Progress(old(currentResult), currentResult, improved)
        invariant runsUsed >= old(runsUsed) + if improved then 1 else 0
        invariant !improved ==> ChunkStart(index, chunk) && goal.NoDeletionBelow(current, chunk, index)
        decreases Rank(current), |current| - index
      {
        var candidate := Without(current, index, chunk);
        var accepted := false;
        ghost var before := currentResult;
        if candidate != [] {
          accepted := TryAccept(candidate);
        }
        ProgressGoesOn(old(currentResult), before, currentResult, improved, accepted);
        if accepted {
          improved := true;
        } else {
          if !improved {
            goal.DeletionNext(current, chunk, index);
          }
          index := index + chunk;
        }
      }
    }

    /** Pass 1: chunked deletion, coarse to fine; the last sweep deletes single draws. */
    method DeletionPass() returns (improved: bool)
      requires Valid()
      modifies this
      ensures Valid() && Progress(old(currentResult), currentResult, improved)
      ensures runsUsed >= old(runsUsed) + if improved then 1 else 0
      ensures !improved && !Spent() ==> goal.NoDeletionDownTo(current, Coarsest(|current|), 0)
    {
      improved := false;
      var chunk := Coarsest(|current|);
      while chunk >= 1 && !Spent()
        invariant Valid() && Progress(old(currentResult), currentResult, improved)
        invariant runsUsed >= old(runsUsed) + if improved then 1 else 0
        invariant !improved && !Spent() ==> goal.NoDeletionDownTo(current, Coarsest(|current|), chunk)
        decreases chunk
      {
        ghost var before := currentResult;
        var better := DeleteChunks(chunk);
        ProgressGoesOn(old(currentResult), before, currentResult, improved, better);
        improved := improved || better;
        chunk := chunk / 2;
      }
    }

    /** One sweep of the block-zeroing pass. */
    method ZeroChunks(chunk: nat) returns (improved: bool)
      requires Valid() && chunk >= 1
      modifies this
      ensures Valid() && Progress(old(currentResult), currentResult, improved)
      ensures runsUsed >= old(runsUsed) + if improved then 1 else 0
      ensures !improved && !Spent() ==> goal.NoZeroingBelow(current, chunk, |current|)
    {
      improved := false;
      var index := 0;
      while index < |current| && !Spent()
        invariant Valid() && Progress(old(currentResult), currentResult, improved)
        invariant runsUsed >= old(runsUsed) + if improved then 1 else 0
        invariant !improved ==> ChunkStart(index, chunk) && goal.NoZeroingBelow(current, chunk, index)
        decreases Rank(current), |current| - index
      {
        if HasNonzero(BlockAt(current, index, chunk)) {
          ghost var before := currentResult;
          var accepted := TryAccept(WithZeroedBlock(current, index, chunk));
          ProgressGoesOn(old(currentResult), before, currentResult, improved, accepted);
          improved := improved || accepted;
        }
        if !improved {
          goal.ZeroingNext(current, chunk, index);
        }
        index := index + chunk;
      }
    }

    /** Pass 1.5: block zeroing, coarse to fine. */
    method ZeroingPass() returns (improved: bool)
      requires Valid()
      modifies this
      ensures Valid() && Progress(old(currentResult), currentResult, improved)
      ensures runsUsed >= old(runsUsed) + if improved then 1 else 0
      ensures !improved && !Spent() ==> goal.NoZeroingDownTo(current, Coarsest(|current|), 0)
    {
      improved := false;
      var chunk := Coarsest(|current|);
      while chunk >= 1 && !Spent()
        invariant Valid() && Progress(old(currentResult), currentResult, improved)
        invariant runsUsed >= old(runsUsed) + if improved then 1 else 0
        invariant !improved && !Spent() ==> goal.NoZeroingDownTo(current, Coarsest(|current|), chunk)
        decreases chunk
      {
        ghost var before := currentResult;
        var better := ZeroChunks(chunk);
        ProgressGoesOn(old(currentResult), before, currentResult, improved, better);
        improved := improved || better;
        chunk := chunk / 2;
      }
    }

    /** Tries the smaller values of one draw, most aggressive first, until one is accepted. */
    method Lower(index: nat) returns (improved: bool)
      requires Valid() && index < |current| && current[index].value > 0
      modifies this
      ensures Valid() && Progress(old(currentResult), currentResult, improved)
      ensures runsUsed >= old(runsUsed) + if improved then 1 else 0
      ensures !improved && !Spent() ==> goal.NoSmallerValueAt(current, index)
    {
      improved := false;
      var values := Descend(current[index].value);
      var n := 0;
      while n < |values|
        invariant n <= |values|
        invariant Valid() && currentResult == old(currentResult) && runsUsed >= old(runsUsed)
        invariant !Spent() ==>
          forall k | 0 <= k < n :: goal.Rejects(WithValue(current, index, values[k]), current)
      {
        improved := TryAccept(WithValue(current, index, values[n]));
        if improved {
          return;
        }
        n := n + 1;
      }
      if !Spent() {
        forall v | v in values ensures goal.Rejects(WithValue(current, index, v), current) {
          var k :| 0 <= k < |values| && values[k] == v;
        }
      }
    }

    /** One draw of pass 2; draws at zero are left alone. */
    method LowerAt(index: nat) returns (improved: bool)
      requires Valid() && index < |current|
      modifies this
      ensures Valid() && Progress(old(currentResult), currentResult, improved)
      ensures runsUsed >= old(runsUsed) + if improved then 1 else 0
      ensures !improved && !Spent() ==> goal.NoSmallerValueAt(current, index)
    {
      improved := false;
      if current[index].value != 0 {
        improved := Lower(index);
      }
    }

    /** Pass 2: value minimization, walking the live tape. */
    method ValuePass() returns (improved: bool)
      requires Valid()
      modifies this
      ensures Valid() && Progress(old(currentResult), currentResult, improved)
      ensures runsUsed >= old(runsUsed) + if improved then 1 else 0
      ensures !improved && !Spent() ==> goal.NoSmallerValueBelow(current, |current|)
    {
      improved := false;
      var index := 0;
      while index < |current| && !Spent()
        invariant Valid() && Progress(old(currentResult), currentResult, improved)
        invariant runsUsed >= old(runsUsed) + if improved then 1 else 0
        invariant !improved && !Spent() ==> index <= |current| && goal.NoSmallerValueBelow(current, index)
        decreases Rank(current), |current| - index
      {
        ghost var before := currentResult;
        var better := LowerAt(index);
        ProgressGoesOn(old(currentResult), before, currentResult, improved, better);
        improved := improved || better;
        if !improved && !Spent() {
          goal.BelowNext(current, index);
        }
        index := index + 1;
      }
    }

    /** Rounds of the three passes until a whole round improves nothing. */
    method Minimize()
      requires Valid()
      modifies this
      ensures Valid()
      ensures !Spent() ==> goal.Minimal(current)
    {
      var improved := true;
      while improved && !Spent()
        invariant Valid()
        invariant !improved && !Spent() ==> goal.Minimal(current)
        decreases Rank(current), improved
      {
        var deleted := DeletionPass();
        var zeroed := ZeroingPass();
        var lowered := ValuePass();
        improved := deleted || zeroed || lowered;
      }
    }
  }

  datatype ShrinkResult = ShrinkResult(
    result: RunResult,
    runsUsed: nat,
    initialLength: nat,
    initialDeviations: nat)

  /** `shrink`. The result is still a failure of the same kind and no larger than the original; with
      budget left over no candidate of any pass helps any more. `maxRuns` None is no budget at all:
      shrinking ends just the same. */
  method Shrink(program: Program, failure: RunResult, interesting: RunResult -> bool, maxRuns: Option<int>)
    returns (r: Result<ShrinkResult, string>)
    ensures r.Err? <==> failure.outcome.Returned?
    ensures r.Ok? ==>
      var goal := Goal(program, interesting);
      && goal.Descends(failure, r.value.result)
      && (maxRuns.Some? ==> r.value.runsUsed <= maxRuns.value || r.value.runsUsed == 0)
      && (maxRuns.None? || r.value.runsUsed < maxRuns.value ==> goal.Minimal(r.value.result.tape))
      && r.value.initialLength == |failure.tape| && r.value.initialDeviations == Delays(failure.tape)
  {
    if failure.outcome.Returned? {
      return Err("shrink() needs a failing RunResult");
    }
    var shrinker := new Shrinker(Goal(program, interesting), failure, maxRuns);
    shrinker.Minimize();
    r := Ok(ShrinkResult(shrinker.currentResult, shrinker.runsUsed, |failure.tape|, Delays(failure.tape)));
  }
}
