/** Optimistic increments never get lost (src/simloom/_services.py:123-175): clients read a counter under WATCH
    and write it back under MULTI / EXEC, among arbitrary traffic of others that leave the counter alone. */
module Counter {
  import opened Wrappers
  import opened Redis
  import opened Locking

  /** Where a client stands in its WATCH, GET, MULTI, SET, EXEC round. */
  datatype Phase =
    | Idle
    | Watching
    | HasRead(value: int)
    | Opened(value: int)
    | Staged(value: int)

  /** The clients in `rounds` increment the counter; every other connection is a bystander. */
  datatype State = State(server: Server, rounds: map<Client, Phase>, committed: nat)

  datatype Action =
    | Advance(client: Client)                      // the next command of the client's round
    | GiveUp(client: Client)                       // DISCARD and start over
    | Other(client: Client, command: Command)      // anything from a bystander

  datatype Setup = Setup(numerals: Numerals, key: Bytes)
  {
    function Next(phase: Phase): Command {
      match phase
      case Idle => Command(Watch, [key])
      case Watching => Command(Get, [key])
      case HasRead(_) => Command(Multi, [])
      case Opened(value) => Command(Set, [key, numerals.show(value + 1)])
      case Staged(_) => Command(Exec, [])
    }

    /** The number a stored value stands for; a missing counter stands for zero. */
    function Number(data: Option<Bytes>): Option<int> {
      match data
      case None => Some(0)
      case Some(bytes) => numerals.parse(bytes)
    }

    /** How the reply to that command moves the client on. */
    function Moved(phase: Phase, response: Response): Phase {
      match phase
      case Idle => Watching
      case Watching =>
        if response.Replies? && response.reply.Bulk? && Number(response.reply.data).Some?
        then HasRead(Number(response.reply.data).value) else Idle
      case HasRead(value) => Opened(value)
      case Opened(value) => Staged(value)
      case Staged(_) => Idle
    }

    /** The EXEC committed. */
    predicate Acknowledged(phase: Phase, response: Response) {
      phase.Staged? && response.Replies? && response.reply.Array? && response.reply.items.Some?
    }

    /** Commands that write the counter when they are performed. */
    predicate Writes(command: Command) {
      match command.verb
      case Set => command.args != [] && command.args[0] == key
      case Incr => command.args != [] && command.args[0] == key
      case IncrBy => command.args != [] && command.args[0] == key
      case Decr => command.args != [] && command.args[0] == key
      case DecrBy => command.args != [] && command.args[0] == key
      case Del => key in command.args
      case _ => false
    }
  }

  ghost predicate CanAct(w: Setup, s: State, action: Action) {
    match action
    case Advance(client) => client in s.rounds
    case GiveUp(client) => client in s.rounds
    case Other(client, command) => client !in s.rounds && !w.Writes(command)
  }

  function Act(w: Setup, s: State, action: Action): State
    requires WellQueued(s.server.Of(action.client))
  {
    var client := action.client;
    var session := s.server.Of(client);
    match action
    case Advance(_) =>
      if client !in s.rounds then s else
      var phase := s.rounds[client];
      var response := Handle(w.numerals, s.server.space, session, w.Next(phase)).2;
      State(Serve(w.numerals, s.server, Event(client, w.Next(phase))),
            s.rounds[client := w.Moved(phase, response)],
            s.committed + if w.Acknowledged(phase, response) then 1 else 0)
    case GiveUp(_) =>
      if client !in s.rounds then s else
      State(Serve(w.numerals, s.server, Event(client, Command(Discard, []))), s.rounds[client := Idle], s.committed)
    case Other(_, command) =>
      s.(server := Serve(w.numerals, s.server, Event(client, command)))
  }

  ghost predicate Counts(w: Setup, space: Keyspace, value: int) {
    w.Number(space.Value(w.key)) == Some(value)
  }

  /** The counter is watched, and if nobody wrote it since, it still holds `value`. */
  ghost predicate Holds(w: Setup, space: Keyspace, session: Session, value: int) {
    && w.key in session.watched
    && session.watched[w.key] <= space.Version(w.key)
    && (session.watched[w.key] == space.Version(w.key) ==> Counts(w, space, value))
  }

  ghost predicate InRound(w: Setup, space: Keyspace, session: Session, phase: Phase) {
    match phase
    case Idle => session.queue.None?
    case Watching => session.queue.None? && w.key in session.watched && session.watched[w.key] <= space.Version(w.key)
    case HasRead(value) => session.queue.None? && Holds(w, space, session, value)
    case Opened(value) => session.queue == Some([]) && Holds(w, space, session, value)
    case Staged(value) => session.queue == Some([w.Next(Opened(value))]) && Holds(w, space, session, value)
  }

  ghost predicate Harmless(w: Setup, session: Session) {
    session.queue.Some? ==> forall command | command in session.queue.value :: !w.Writes(command)
  }

  ghost predicate Inv(w: Setup, s: State, initial: int) {
    && Sane(s.server)
    && Counts(w, s.server.space, initial + s.committed)
    && (forall client | client in s.rounds ::
          InRound(w, s.server.space, s.server.Of(client), s.rounds[client]))
    && (forall client: Client | client !in s.rounds :: Harmless(w, s.server.Of(client)))
  }

  // --- one command, seen from the counter ---

  lemma {:induction false} RemoveAllLeaves(space: Keyspace, keys: seq<Bytes>, key: Bytes)
    requires key !in keys
    ensures space.RemoveAll(keys).0.Value(key) == space.Value(key)
  {
    if keys != [] {
      var last := |keys| - 1;
      assert keys[last] in keys;
      RemoveAllLeaves(space, keys[..last], key);
    }
  }

  lemma PerformLeaves(w: Setup, space: Keyspace, session: Session, command: Command)
    requires !Control(command.verb) && !w.Writes(command)
    ensures Perform(w.numerals, space, session, command).0.Value(w.key) == space.Value(w.key)
  {
    if command.verb.Del? {
      RemoveAllLeaves(space, command.args, w.key);
    }
  }

  lemma {:induction false} PerformAllLeaves(w: Setup, space: Keyspace, session: Session, queue: seq<Command>)
    requires Queueable(queue) && forall command | command in queue :: !w.Writes(command)
    ensures PerformAll(w.numerals, space, session, queue).0.Value(w.key) == space.Value(w.key)
  {
    if queue == [] {
    } else {
      var last := |queue| - 1;
      PerformAllLeaves(w, space, session, queue[..last]);
      var (space1, session1, replies) := PerformAll(w.numerals, space, session, queue[..last]);
      assert queue[last] in queue;
      PerformLeaves(w, space1, session1, queue[last]);
    }
  }

  lemma BystanderLeaves(w: Setup, space: Keyspace, session: Session, command: Command)
    requires WellQueued(session) && Harmless(w, session) && !w.Writes(command)
    ensures Handle(w.numerals, space, session, command).0.Value(w.key) == space.Value(w.key)
    ensures Harmless(w, Handle(w.numerals, space, session, command).1)
  {
    if command.verb.Exec? && session.queue.Some? {
      PerformAllLeaves(w, space, FRESH, session.queue.value);
      PerformAllKeepsNoQueue(w.numerals, space, FRESH, session.queue.value);
    } else if !Control(command.verb) {
      PerformLeaves(w, space, session, command);
    }
  }

  /** Someone else's command: a client stays where it is in its round. */
  lemma RoundStays(w: Setup, before: Keyspace, after: Keyspace, session: Session, phase: Phase)
    requires InRound(w, before, session, phase) && TracksKey(before, after, w.key)
    ensures InRound(w, after, session, phase)
  {
  }

  /** The committed SET makes the counter exactly one more than it is. */
  lemma CommitAddsOne(w: Setup, space: Keyspace, session: Session, value: int, current: int)
    requires w.numerals.RoundTrips() && InRound(w, space, session, Staged(value)) && Counts(w, space, current)
    requires WellQueued(session)
    ensures
      var (space', session', response) := Handle(w.numerals, space, session, Command(Exec, []));
      && session'.queue.None?
      && Counts(w, space', current + if w.Acknowledged(Staged(value), response) then 1 else 0)
  {
    var command := w.Next(Opened(value));
    var queue := [command];
    assert queue[..0] == [];
    assert PerformAll(w.numerals, space, FRESH, queue[..0]) == (space, FRESH, Some([]));
    if Unchanged(space, session.watched) {
      assert value == current;
      assert w.numerals.parse(w.numerals.show(value + 1)) == Some(value + 1);
    }
  }

  lemma AdvanceKeepsRound(w: Setup, space: Keyspace, session: Session, phase: Phase, current: int)
    requires w.numerals.RoundTrips() && InRound(w, space, session, phase) && Counts(w, space, current)
    requires WellQueued(session)
    ensures
      var (space', session', response) := Handle(w.numerals, space, session, w.Next(phase));
      && InRound(w, space', session', w.Moved(phase, response))
      && Counts(w, space', current + if w.Acknowledged(phase, response) then 1 else 0)
  {
    match phase {
      case Idle =>
        WatchAllWatches(session.watched, space, [w.key], w.key);
      case Staged(value) =>
        CommitAddsOne(w, space, session, value, current);
      case Opened(_) =>
        assert session.queue.value + [w.Next(phase)] == [w.Next(phase)];
      case _ =>
    }
  }

  lemma OthersKeepRounds(w: Setup, s: State, event: Event)
    requires WellQueued(s.server.Of(event.client))
    requires forall client | client in s.rounds ::
      InRound(w, s.server.space, s.server.Of(client), s.rounds[client])
    ensures
      var server := Serve(w.numerals, s.server, event);
      forall client | client in s.rounds && client != event.client ::
        InRound(w, server.space, server.Of(client), s.rounds[client])
  {
    var server := Serve(w.numerals, s.server, event);
    HandleTracks(w.numerals, s.server.space, s.server.Of(event.client), event.command);
    assert TracksKey(s.server.space, server.space, w.key);
    forall client | client in s.rounds && client != event.client
      ensures InRound(w, server.space, server.Of(client), s.rounds[client])
    {
      RoundStays(w, s.server.space, server.space, s.server.Of(client), s.rounds[client]);
    }
  }

  /** What one command changes of the whole: its client's session, and what it does to the counter. */
  lemma ServeKeeps(w: Setup, s: State, event: Event, d: State, initial: int)
    requires Inv(w, s, initial) && WellQueued(s.server.Of(event.client))
    requires d.server == Serve(w.numerals, s.server, event) && d.rounds.Keys == s.rounds.Keys
    requires forall client | client in s.rounds && client != event.client :: d.rounds[client] == s.rounds[client]
    requires Counts(w, d.server.space, initial + d.committed)
    requires event.client in s.rounds ==>
      InRound(w, d.server.space, d.server.Of(event.client), d.rounds[event.client])
    requires event.client !in s.rounds ==> Harmless(w, d.server.Of(event.client))
    ensures Inv(w, d, initial)
  {
    OthersKeepRounds(w, s, event);
    HandleWellQueued(w.numerals, s.server.space, s.server.Of(event.client), event.command);
    forall client: Client | client !in d.rounds ensures Harmless(w, d.server.Of(client)) {
      assert client != event.client ==> d.server.Of(client) == s.server.Of(client);
    }
  }

  lemma ActKeeps(w: Setup, s: State, action: Action, initial: int)
    requires w.numerals.RoundTrips() && Inv(w, s, initial) && CanAct(w, s, action)
    ensures Inv(w, Act(w, s, action), initial)
  {
    var client := action.client;
    var session, d := s.server.Of(client), Act(w, s, action);
    match action {
      case Advance(_) =>
        AdvanceKeepsRound(w, s.server.space, session, s.rounds[client], initial + s.committed);
        ServeKeeps(w, s, Event(client, w.Next(s.rounds[client])), d, initial);
      case GiveUp(_) =>
        ServeKeeps(w, s, Event(client, Command(Discard, [])), d, initial);
      case Other(_, command) =>
        BystanderLeaves(w, s.server.space, session, command);
        ServeKeeps(w, s, Event(client, command), d, initial);
    }
  }

  /** A run: every action is one the traffic rules allow. */
  ghost predicate Runs(w: Setup, states: seq<State>, actions: seq<Action>) {
    && |states| == |actions| + 1
    && Sane(states[0].server)
    && forall i | 0 <= i < |actions| ::
         && WellQueued(states[i].server.Of(actions[i].client))
         && CanAct(w, states[i], actions[i])
         && states[i + 1] == Act(w, states[i], actions[i])
  }

  lemma {:induction false} RunKeeps(w: Setup, states: seq<State>, actions: seq<Action>, initial: int, i: nat)
    requires w.numerals.RoundTrips() && Runs(w, states, actions) && Inv(w, states[0], initial)
    requires i < |states|
    ensures Inv(w, states[i], initial)
  {
    if i > 0 {
      RunKeeps(w, states, actions, initial, i - 1);
      ActKeeps(w, states[i - 1], actions[i - 1], initial);
    }
  }

  /** A counting campaign may begin: its clients have nothing queued, and nothing that others have queued
      writes the counter. */
  ghost predicate Begins(w: Setup, s: State) {
    && Sane(s.server) && s.committed == 0
    && (forall client | client in s.rounds :: s.rounds[client].Idle? && s.server.Of(client).queue.None?)
    && (forall client: Client | client !in s.rounds :: Harmless(w, s.server.Of(client)))
  }

  /** No update is lost: whatever the interleaving, and whatever the server did before, the counter ends at its
      initial value plus the number of EXECs that committed. A missing counter counts as zero. */
  lemma NoLostUpdates(w: Setup, states: seq<State>, actions: seq<Action>, initial: int)
    requires w.numerals.RoundTrips() && Runs(w, states, actions)
    requires Begins(w, states[0]) && Counts(w, states[0].server.space, initial)
    ensures
      var last := states[|actions|];
      Counts(w, last.server.space, initial + last.committed)
  {
    RunKeeps(w, states, actions, initial, |actions|);
  }

  /** On a server that has just started, the counter ends at the number of commits. */
  lemma CommitsAreCounted(w: Setup, states: seq<State>, actions: seq<Action>)
    requires w.numerals.RoundTrips() && Runs(w, states, actions)
    requires states[0].server == EMPTY && states[0].committed == 0
    requires forall client | client in states[0].rounds :: states[0].rounds[client].Idle?
    ensures
      var last := states[|actions|];
      Counts(w, last.server.space, last.committed)
  {
    NoLostUpdates(w, states, actions, 0);
  }

  /** The increment family adds its step, a missing counter counting as zero, or raises and writes nothing. */
  lemma IncrementsAdd(w: Setup, space: Keyspace, session: Session, command: Command, value: int)
    requires w.numerals.RoundTrips() && Counts(w, space, value)
    requires command.verb.Incr? || command.verb.IncrBy? || command.verb.Decr? || command.verb.DecrBy?
    requires command.args != [] && command.args[0] == w.key
    ensures
      var (space', session', response) := Perform(w.numerals, space, session, command);
      var step := Step(w.numerals, command);
      && session' == session
      && if step.None? then response.Raises? && space' == space
         else response == Replies(Integer(value + step.value)) && Counts(w, space', value + step.value)
    ensures command.verb.Incr? ==> Step(w.numerals, command) == Some(1)
    ensures command.verb.Decr? ==> Step(w.numerals, command) == Some(-1)
    ensures |command.args| > 1 && w.numerals.parse(command.args[1]).Some? ==>
      var amount := w.numerals.parse(command.args[1]).value;
      && (command.verb.IncrBy? ==> Step(w.numerals, command) == Some(amount))
      && (command.verb.DecrBy? ==> Step(w.numerals, command) == Some(-amount))
  {
  }

  // --- such a run ---

  /** One client, whose session and place in the round are these. */
  ghost predicate Alone(s: State, space: Keyspace, session: Session, phase: Phase, committed: nat) {
    s.server.space == space && s.server.Of(0) == session && s.rounds == map[0 := phase] && s.committed == committed
  }

  lemma Advances(w: Setup, s: State, space: Keyspace, session: Session, phase: Phase, committed: nat)
    requires Alone(s, space, session, phase, committed) && WellQueued(session)
    ensures
      var (space', session', response) := Handle(w.numerals, space, session, w.Next(phase));
      Alone(Act(w, s, Advance(0)), space', session', w.Moved(phase, response),
            committed + if w.Acknowledged(phase, response) then 1 else 0)
  {
  }

  const NOTHING := Keyspace(map[], map[])

  function Watched(w: Setup, queue: Option<seq<Command>>): Session {
    Session(map[w.key := 0], queue)
  }

  /** A missing counter is watched, and read as zero. */
  lemma ReadsZero(w: Setup, s: State)
    requires Alone(s, NOTHING, FRESH, Idle, 0)
    ensures
      var watching := Act(w, s, Advance(0));
      && Alone(watching, NOTHING, Watched(w, None), Watching, 0)
      && Alone(Act(w, watching, Advance(0)), NOTHING, Watched(w, None), HasRead(0), 0)
  {
    WatchesOne(NOTHING, w.key);
    Advances(w, s, NOTHING, FRESH, Idle, 0);
    Advances(w, Act(w, s, Advance(0)), NOTHING, Watched(w, None), Watching, 0);
  }

  lemma StagesOne(w: Setup, s: State)
    requires Alone(s, NOTHING, Watched(w, None), HasRead(0), 0)
    ensures
      var pending := Act(w, s, Advance(0));
      && Alone(pending, NOTHING, Watched(w, Some([])), Opened(0), 0)
      && Alone(Act(w, pending, Advance(0)), NOTHING, Watched(w, Some([w.Next(Opened(0))])), Staged(0), 0)
  {
    Advances(w, s, NOTHING, Watched(w, None), HasRead(0), 0);
    Advances(w, Act(w, s, Advance(0)), NOTHING, Watched(w, Some([])), Opened(0), 0);
    assert [] + [w.Next(Opened(0))] == [w.Next(Opened(0))];
  }

  lemma WatchesOne(space: Keyspace, key: Bytes)
    ensures WatchAll(map[], space, [key]) == map[key := space.Version(key)]
  {
    assert [key][..0] == [];
  }

  lemma CommitsOne(w: Setup, s: State)
    requires Alone(s, NOTHING, Watched(w, Some([w.Next(Opened(0))])), Staged(0), 0)
    ensures Alone(Act(w, s, Advance(0)), NOTHING.Put(w.key, w.numerals.show(1)), FRESH, Idle, 1)
  {
    var queue := [w.Next(Opened(0))];
    assert queue[..0] == [];
    assert PerformAll(w.numerals, NOTHING, FRESH, queue[..0]) == (NOTHING, FRESH, Some([]));
    Advances(w, s, NOTHING, Watched(w, Some(queue)), Staged(0), 0);
  }

  lemma GoesOn(w: Setup, states: seq<State>, actions: seq<Action>, s: State) returns (d: State)
    requires Runs(w, states, actions) && states[|actions|] == s
    requires 0 in s.rounds && WellQueued(s.server.Of(0))
    ensures d == Act(w, s, Advance(0)) && Runs(w, states + [d], actions + [Advance(0)])
  {
    d := Act(w, s, Advance(0));
    var states', actions' := states + [d], actions + [Advance(0)];
    forall i | 0 <= i < |actions'|
      ensures WellQueued(states'[i].server.Of(actions'[i].client)) && CanAct(w, states'[i], actions'[i])
      ensures states'[i + 1] == Act(w, states'[i], actions'[i])
    {
      assert i < |actions| ==> states'[i] == states[i] && states'[i + 1] == states[i + 1];
    }
  }

  lemma RunReads(w: Setup) returns (states: seq<State>, actions: seq<Action>)
    ensures Runs(w, states, actions) && |actions| == 2 && states[0] == State(EMPTY, map[0 := Idle], 0)
    ensures Alone(states[2], NOTHING, Watched(w, None), HasRead(0), 0)
  {
    var s := State(EMPTY, map[0 := Idle], 0);
    ReadsZero(w, s);
    var watching := GoesOn(w, [s], [], s);
    var read := GoesOn(w, [s] + [watching], [] + [Advance(0)], watching);
    states, actions := [s] + [watching] + [read], [] + [Advance(0)] + [Advance(0)];
  }

  lemma RunStages(w: Setup) returns (states: seq<State>, actions: seq<Action>)
    ensures Runs(w, states, actions) && |actions| == 4 && states[0] == State(EMPTY, map[0 := Idle], 0)
    ensures Alone(states[4], NOTHING, Watched(w, Some([w.Next(Opened(0))])), Staged(0), 0)
  {
    states, actions := RunReads(w);
    var s := states[2];
    StagesOne(w, s);
    var pending := GoesOn(w, states, actions, s);
    var staged := GoesOn(w, states + [pending], actions + [Advance(0)], pending);
    states, actions := states + [pending] + [staged], actions + [Advance(0)] + [Advance(0)];
  }

  /** On a fresh server one round of a single client commits: it reads the missing counter as zero, and
      writes one. */
  lemma FirstRoundCommits(w: Setup) returns (states: seq<State>, actions: seq<Action>)
    ensures Runs(w, states, actions) && |actions| == 5 && states[0] == State(EMPTY, map[0 := Idle], 0)
    ensures Alone(states[5], NOTHING.Put(w.key, w.numerals.show(1)), FRESH, Idle, 1)
  {
    states, actions := RunStages(w);
    CommitsOne(w, states[4]);
    var done := GoesOn(w, states, actions, states[4]);
    states, actions := states + [done], actions + [Advance(0)];
  }
}
