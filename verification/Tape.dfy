/** The choice tape (src/simloom/_tape.py) and a program under test seen as a tree of draws.

    A deterministic program either ends or asks for one bounded draw; the answer decides how it
    goes on. `Request(site, branches)` asks for a draw below `|branches|`; branch `v` is what the
    program does after the answer `v`. */
module Tapes {
  import opened Wrappers

  /** An answered draw: where it was asked for, how it was answered, and below what. */
  datatype Choice = Choice(site: string, value: nat, bound: nat)
  type Draw = c: Choice | c.value < c.bound witness Choice("", 0, 1)

  datatype Outcome = Returned(value: int) | Raised(error: string)

  datatype Program =
    | Finished(outcome: Outcome)
    | Request(site: string, branches: seq<Program>)
  {
    /** A draw with a bound below one raises ValueError, which ends the program. */
    predicate Ended() {
      Finished? || branches == []
    }

    /** The bound of the draw asked for next. */
    function Width(): nat {
      if Request? then |branches| else 0
    }

    function Ending(): Outcome
      requires Ended()
    {
      if Finished? then outcome else Raised("ValueError")
    }
  }

  /** `draws` is a complete path of the choice tree: the exact draws of one run. */
  predicate IsPath(p: Program, draws: seq<Draw>) {
    if p.Ended() then
      draws == []
    else
      && draws != []
      && draws[0].site == p.site
      && draws[0].bound == |p.branches|
      && IsPath(p.branches[draws[0].value], draws[1..])
  }

  /** How the run with exactly these draws ends. */
  function Leaf(p: Program, draws: seq<Draw>): Outcome
    requires IsPath(p, draws)
  {
    if p.Ended() then p.Ending() else Leaf(p.branches[draws[0].value], draws[1..])
  }

  datatype Policy = Strict | Fallback

  /** The generator behind a tape. `Seeded` is any deterministic generator: its answer may depend
      on every bound it was asked for so far. */
  datatype Rng = Zero | Seeded(answers: seq<nat> -> nat)
  {
    function RandRange(asked: seq<nat>, bound: nat): (r: nat)
      requires bound >= 1
      ensures r < bound
    {
      match this
      case Zero => 0
      case Seeded(answers) => answers(asked + [bound]) % bound
    }
  }

  datatype DrawError = ValueError | TapeMisalignment

  /** The value of a tape: every field the class below updates in place. */
  datatype TapeState = TapeState(
    recorded: Option<seq<Draw>>,
    policy: Policy,
    rng: Rng,
    asked: seq<nat>,
    position: nat,
    misalignedAt: Option<nat>,
    draws: seq<Draw>)
  {
    ghost predicate Valid() {
      position == |draws|
    }

    function Improvise(bound: nat): (r: (TapeState, nat))
      requires bound >= 1
      ensures r.1 < bound
    {
      (this.(asked := asked + [bound]), rng.RandRange(asked, bound))
    }

    /** The recording still answers, and its next draw is the one asked for. */
    predicate Aligned(site: string, bound: nat) {
      && recorded.Some?
      && misalignedAt.None?
      && position < |recorded.value|
      && recorded.value[position].site == site
      && recorded.value[position].bound == bound
    }

    function NextValue(site: string, bound: nat): (r: Result<(TapeState, nat), DrawError>)
      requires bound >= 1
      ensures r.Ok? ==> r.value.1 < bound
    {
      if recorded.None? || misalignedAt.Some? then Ok(Improvise(bound))
      else if Aligned(site, bound) then Ok((this, recorded.value[position].value))
      else if policy.Strict? then Err(TapeMisalignment)
      else Ok(this.(misalignedAt := Some(position)).Improvise(bound))
    }

    function Drawn(site: string, bound: nat): (r: Result<(TapeState, nat), DrawError>)
      ensures r.Ok? ==> r.value.1 < bound
    {
      if bound < 1 then Err(ValueError) else
      match NextValue(site, bound)
      case Err(e) => Err(e)
      case Ok((t, value)) =>
        Ok((t.(draws := t.draws + [Choice(site, value, bound)], position := t.position + 1), value))
    }

    function ForcedFallback(): TapeState {
      if recorded.Some? && misalignedAt.None? then this.(misalignedAt := Some(position)) else this
    }

    predicate ReplayExact() {
      recorded.Some? && misalignedAt.None? && position == |recorded.value|
    }
  }

  /** A tape that replays `recorded` and has not been drawn from yet. */
  function Replaying(recorded: seq<Draw>, policy: Policy, rng: Rng): TapeState {
    TapeState(Some(recorded), policy, rng, [], 0, None, [])
  }

  /** A fresh universe: every draw comes from the generator. */
  function Generating(rng: Rng): TapeState {
    TapeState(None, Strict, rng, [], 0, None, [])
  }

  class Tape {
    const recorded: Option<seq<Draw>>
    const policy: Policy
    const rng: Rng
    var asked: seq<nat>
    var position: nat
    var misalignedAt: Option<nat>
    var draws: seq<Draw>

    function State(): TapeState
      reads this
    {
      TapeState(recorded, policy, rng, asked, position, misalignedAt, draws)
    }

    constructor Replay(recorded: seq<Draw>, policy: Policy, rng: Rng)
      ensures State() == Replaying(recorded, policy, rng)
    {
      this.recorded, this.policy, this.rng := Some(recorded), policy, rng;
      asked, position, misalignedAt, draws := [], 0, None, [];
    }

    constructor Generate(rng: Rng)
      ensures State() == Generating(rng)
    {
      recorded, policy, this.rng := None, Strict, rng;
      asked, position, misalignedAt, draws := [], 0, None, [];
    }

    method RandRange(bound: nat) returns (value: nat)
      requires bound >= 1
      modifies this`asked
      ensures (State(), value) == old(State()).Improvise(bound)
    {
      value := rng.RandRange(asked, bound);
      asked := asked + [bound];
    }

    /** Reacts to a divergence: an error under Strict, otherwise the recording is given up. */
    method Diverge() returns (raised: bool)
      modifies this`misalignedAt
      ensures raised == policy.Strict?
      ensures misalignedAt == if raised then old(misalignedAt) else Some(position)
    {
      if policy.Strict? {
        return true;
      }
      misalignedAt := Some(position);
      return false;
    }

    method NextValue(site: string, bound: nat) returns (r: Result<nat, DrawError>)
      requires bound >= 1
      modifies this`asked, this`misalignedAt
      ensures match old(State()).NextValue(site, bound)
              case Ok((t, value)) => State() == t && r == Ok(value)
              case Err(e) => State() == old(State()) && r == Err(e)
    {
      if recorded.None? || misalignedAt.Some? {
        var value := RandRange(bound);
        return Ok(value);
      }
      if position >= |recorded.value| {
        var raised := Diverge();
        if raised {
          return Err(TapeMisalignment);
        }
        var value := RandRange(bound);
        return Ok(value);
      }
      var next := recorded.value[position];
      if next.site != site || next.bound != bound {
        var raised := Diverge();
        if raised {
          return Err(TapeMisalignment);
        }
        var value := RandRange(bound);
        return Ok(value);
      }
      return Ok(next.value);
    }

    method Draw(site: string, bound: nat) returns (r: Result<nat, DrawError>)
      modifies this
      ensures match old(State()).Drawn(site, bound)
              case Ok((t, value)) => State() == t && r == Ok(value)
              case Err(e) => State() == old(State()) && r == Err(e)
    {
      if bound < 1 {
        return Err(ValueError);
      }
      r := NextValue(site, bound);
      if r.Ok? {
        draws := draws + [Choice(site, r.value, bound)];
        position := position + 1;
      }
    }

    method ForceFallback()
      modifies this`misalignedAt
      ensures State() == old(State()).ForcedFallback()
    {
      if recorded.Some? && misalignedAt.None? {
        misalignedAt := Some(position);
      }
    }

    predicate ReplayExact()
      reads this
    {
      State().ReplayExact()
    }
  }
}
