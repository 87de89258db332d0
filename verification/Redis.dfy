/** The Redis stand-in (src/simloom/_services.py:62-175): plain commands, and the optimistic locking
    of WATCH / MULTI / EXEC. The server and its connections are objects; functions on their values say what
    each command does. */
module Redis {
  import opened Wrappers

  /** Command names after upper-casing; `Handshake` stands for HELLO, CLIENT, AUTH, COMMAND, CONFIG. */
  datatype Verb =
    | Handshake | Ping | Set | Get | Del | Exists
    | Incr | IncrBy | Decr | DecrBy
    | Watch | Unwatch | Multi | Discard | Exec | Unknown

  datatype Command = Command(verb: Verb, args: seq<Bytes>)

  datatype Reply =
    | Simple(text: string)
    | Error(text: string)
    | Integer(value: int)
    | Bulk(data: Option<Bytes>)
    | Array(items: Option<seq<Reply>>)

  /** The server either replies, or raises on a missing argument or a value that is no number. */
  datatype Response = Replies(reply: Reply) | Raises

  /** Decimal conversion between bytes and integers. */
  datatype Numerals = Numerals(parse: Bytes -> Option<int>, show: int -> Bytes)
  {
    ghost predicate RoundTrips() {
      forall n :: parse(show(n)) == Some(n)
    }
  }

  datatype Keyspace = Keyspace(store: map<Bytes, Bytes>, version: map<Bytes, nat>)
  {
    function Value(key: Bytes): Option<Bytes> {
      if key in store then Some(store[key]) else None
    }

    function Version(key: Bytes): nat {
      if key in version then version[key] else 0
    }

    function Bumped(key: Bytes): Keyspace {
      this.(version := version[key := Version(key) + 1])
    }

    function Put(key: Bytes, value: Bytes): Keyspace {
      this.(store := store[key := value]).Bumped(key)
    }

    function Remove(key: Bytes): Keyspace {
      if key in store then this.(store := store - {key}).Bumped(key) else this
    }

    function RemoveAll(keys: seq<Bytes>): (Keyspace, nat) {
      if keys == [] then (this, 0) else
      var (rest, removed) := RemoveAll(keys[..|keys| - 1]);
      var key := keys[|keys| - 1];
      (rest.Remove(key), removed + if key in rest.store then 1 else 0)
    }

    function Present(keys: seq<Bytes>): nat {
      if keys == [] then 0 else
      Present(keys[..|keys| - 1]) + if keys[|keys| - 1] in store then 1 else 0
    }
  }

  datatype Session = Session(watched: map<Bytes, nat>, queue: Option<seq<Command>>)

  const FRESH := Session(map[], None)

  function WatchAll(watched: map<Bytes, nat>, space: Keyspace, keys: seq<Bytes>): map<Bytes, nat> {
    if keys == [] then watched else
    WatchAll(watched, space, keys[..|keys| - 1])[keys[|keys| - 1] := space.Version(keys[|keys| - 1])]
  }

  /** Commands that are dispatched at once even inside MULTI. */
  predicate Control(verb: Verb) {
    verb.Exec? || verb.Discard? || verb.Multi? || verb.Watch?
  }

  predicate Queueable(queue: seq<Command>) {
    forall command | command in queue :: !Control(command.verb)
  }

  function Step(n: Numerals, command: Command): Option<int> {
    match command.verb
    case IncrBy => if |command.args| > 1 then n.parse(command.args[1]) else None
    case DecrBy =>
      if |command.args| > 1 && n.parse(command.args[1]).Some? then Some(-n.parse(command.args[1]).value) else None
    case Decr => Some(-1)
    case _ => Some(1)
  }

  function Counted(n: Numerals, space: Keyspace, command: Command): (Keyspace, Response) {
    var step := Step(n, command);
    if step.None? || command.args == [] then (space, Raises) else
    var key := command.args[0];
    var current := if key in space.store then n.parse(space.store[key]) else Some(0);
    if current.None? then (space, Raises) else
    var next := current.value + step.value;
    (space.Put(key, n.show(next)), Replies(Integer(next)))
  }

  /** A command that may also stand in a queue. */
  function Perform(n: Numerals, space: Keyspace, session: Session, command: Command): (Keyspace, Session, Response)
    requires !Control(command.verb)
  {
    var args := command.args;
    match command.verb
    case Handshake => (space, session, Replies(Simple("OK")))
    case Ping => (space, session, Replies(if args == [] then Simple("PONG") else Bulk(Some(args[0]))))
    case Set =>
      if |args| < 2 then (space, session, Raises)
      else (space.Put(args[0], args[1]), session, Replies(Simple("OK")))
    case Get =>
      if args == [] then (space, session, Raises)
      else (space, session, Replies(Bulk(space.Value(args[0]))))
    case Del => (space.RemoveAll(args).0, session, Replies(Integer(space.RemoveAll(args).1)))
    case Exists => (space, session, Replies(Integer(space.Present(args))))
    case Incr => (Counted(n, space, command).0, session, Counted(n, space, command).1)
    case IncrBy => (Counted(n, space, command).0, session, Counted(n, space, command).1)
    case Decr => (Counted(n, space, command).0, session, Counted(n, space, command).1)
    case DecrBy => (Counted(n, space, command).0, session, Counted(n, space, command).1)
    case Unwatch => (space, session.(watched := map[]), Replies(Simple("OK")))
    case _ => (space, session, Replies(Error("ERR unknown command")))
  }

  /** The queued commands in order; one that raises ends the EXEC where it stands. */
  function PerformAll(n: Numerals, space: Keyspace, session: Session, queue: seq<Command>)
    : (r: (Keyspace, Session, Option<seq<Reply>>))
    requires Queueable(queue)
  {
    if queue == [] then (space, session, Some([])) else
    var last := |queue| - 1;
    var (space1, session1, replies) := PerformAll(n, space, session, queue[..last]);
    if replies.None? then (space1, session1, None) else
    var (space2, session2, response) := Perform(n, space1, session1, queue[last]);
    (space2, session2, if response.Raises? then None else Some(replies.value + [response.reply]))
  }

  predicate Unchanged(space: Keyspace, watched: map<Bytes, nat>) {
    forall key | key in watched :: space.Version(key) == watched[key]
  }

  function Execute(n: Numerals, space: Keyspace, session: Session): (Keyspace, Session, Response)
    requires session.queue.Some? ==> Queueable(session.queue.value)
  {
    if session.queue.None? then (space, session, Replies(Error("ERR EXEC without MULTI")))
    else if !Unchanged(space, session.watched) then (space, FRESH, Replies(Array(None)))
    else
      var (space', session', replies) := PerformAll(n, space, FRESH, session.queue.value);
      (space', session', if replies.None? then Raises else Replies(Array(replies)))
  }

  /** One command arriving on a connection: queued inside MULTI, otherwise dispatched. */
  function Handle(n: Numerals, space: Keyspace, session: Session, command: Command): (Keyspace, Session, Response)
    requires session.queue.Some? ==> Queueable(session.queue.value)
  {
    if session.queue.Some? && !Control(command.verb) then
      (space, session.(queue := Some(session.queue.value + [command])), Replies(Simple("QUEUED")))
    else
    match command.verb
    case Watch => (space, session.(watched := WatchAll(session.watched, space, command.args)), Replies(Simple("OK")))
    case Multi => (space, session.(queue := Some([])), Replies(Simple("OK")))
    case Discard => (space, FRESH, Replies(Simple("OK")))
    case Exec => Execute(n, space, session)
    case _ => Perform(n, space, session, command)
  }

  /** What a connection may have queued. */
  predicate WellQueued(session: Session) {
    session.queue.Some? ==> Queueable(session.queue.value)
  }

  // ---------------------------------------------------------------------------------------------
  // The server
  // ---------------------------------------------------------------------------------------------

  class Connection {
    var watched: map<Bytes, nat>
    var queue: Option<seq<Command>>

    function State(): Session
      reads this
    {
      Session(watched, queue)
    }

    constructor ()
      ensures State() == FRESH
    {
      watched, queue := map[], None;
    }
  }

  class SimRedis {
    const numerals: Numerals
    var store: map<Bytes, Bytes>
    var version: map<Bytes, nat>

    function State(): Keyspace
      reads this
    {
      Keyspace(store, version)
    }

    constructor (numerals: Numerals)
      ensures State() == Keyspace(map[], map[]) && this.numerals == numerals
    {
      this.numerals := numerals;
      store, version := map[], map[];
    }

    method Bump(key: Bytes)
      modifies this`version
      ensures State() == old(State()).Bumped(key)
    {
      version := version[key := (if key in version then version[key] else 0) + 1];
    }

    method Delete(keys: seq<Bytes>) returns (removed: nat)
      modifies this
      ensures (State(), removed) == old(State()).RemoveAll(keys)
    {
      removed := 0;
      var i := 0;
      while i < |keys|
        invariant i <= |keys|
        invariant (State(), removed) == old(State()).RemoveAll(keys[..i])
      {
        assert keys[..i + 1][..i] == keys[..i];
        if keys[i] in store {
          store := store - {keys[i]};
          Bump(keys[i]);
          removed := removed + 1;
        }
        i := i + 1;
      }
      assert keys[..i] == keys;
    }

    method CountPresent(keys: seq<Bytes>) returns (present: nat)
      ensures present == State().Present(keys)
    {
      present := 0;
      var i := 0;
      while i < |keys|
        invariant i <= |keys| && present == State().Present(keys[..i])
      {
        assert keys[..i + 1][..i] == keys[..i];
        if keys[i] in store {
          present := present + 1;
        }
        i := i + 1;
      }
      assert keys[..i] == keys;
    }

    method WatchKeys(conn: Connection, keys: seq<Bytes>)
      modifies conn`watched
      ensures conn.watched == WatchAll(old(conn.watched), State(), keys)
    {
      var i := 0;
      while i < |keys|
        invariant i <= |keys| && conn.watched == WatchAll(old(conn.watched), State(), keys[..i])
      {
        assert keys[..i + 1][..i] == keys[..i];
        conn.watched := conn.watched[keys[i] := if keys[i] in version then version[keys[i]] else 0];
        i := i + 1;
      }
      assert keys[..i] == keys;
    }

    /** The INCR family. */
    method Count(command: Command) returns (r: Response)
      modifies this
      ensures (State(), r) == Counted(numerals, old(State()), command)
    {
      var step := 1;
      if command.verb.IncrBy? || command.verb.DecrBy? {
        if |command.args| < 2 || numerals.parse(command.args[1]).None? {
          return Raises;
        }
        step := numerals.parse(command.args[1]).value;
      }
      if command.verb.Decr? || command.verb.DecrBy? {
        step := -step;
      }
      if command.args == [] {
        return Raises;
      }
      var key := command.args[0];
      var current := if key in store then numerals.parse(store[key]) else Some(0);
      if current.None? {
        return Raises;
      }
      store := store[key := numerals.show(current.value + step)];
      Bump(key);
      return Replies(Integer(current.value + step));
    }

    method Dispatch(conn: Connection, command: Command) returns (r: Response)
      requires !Control(command.verb)
      modifies this, conn
      ensures (State(), conn.State(), r) == Perform(numerals, old(State()), old(conn.State()), command)
    {
      var args := command.args;
      match command.verb {
        case Handshake => r := Replies(Simple("OK"));
        case Ping => r := Replies(if args == [] then Simple("PONG") else Bulk(Some(args[0])));
        case Set =>
          if |args| < 2 {
            return Raises;
          }
          store := store[args[0] := args[1]];
          Bump(args[0]);
          r := Replies(Simple("OK"));
        case Get =>
          if args == [] {
            return Raises;
          }
          r := Replies(Bulk(State().Value(args[0])));
        case Del =>
          var removed := Delete(args);
          r := Replies(Integer(removed));
        case Exists =>
          var present := CountPresent(args);
          r := Replies(Integer(present));
        case Unwatch =>
          conn.watched := map[];
          r := Replies(Simple("OK"));
        case Unknown => r := Replies(Error("ERR unknown command"));
        case Incr | IncrBy | Decr | DecrBy => r := Count(command);
      }
    }

    method ExecuteQueue(conn: Connection) returns (r: Response)
      requires WellQueued(conn.State())
      modifies this, conn
      ensures (State(), conn.State(), r) == Execute(numerals, old(State()), old(conn.State()))
    {
      if conn.queue.None? {
        return Replies(Error("ERR EXEC without MULTI"));
      }
      var queued, watched := conn.queue.value, conn.watched;
      conn.queue, conn.watched := None, map[];
      if exists key | key in watched :: State().Version(key) != watched[key] {
        return Replies(Array(None));
      }
      var replies: seq<Reply> := [];
      var i := 0;
      ghost var space := State();
      while i < |queued|
        invariant i <= |queued|
        invariant (State(), conn.State(), Some(replies)) == PerformAll(numerals, space, FRESH, queued[..i])
      {
        assert queued[..i + 1][..i] == queued[..i];
        var response := Dispatch(conn, queued[i]);
        if response.Raises? {
          RaisingEnds(numerals, space, FRESH, queued, i + 1);
          return Raises;
        }
        replies := replies + [response.reply];
        i := i + 1;
      }
      assert queued[..i] == queued;
      return Replies(Array(Some(replies)));
    }

    /** One turn of the connection loop. */
    method HandleCommand(conn: Connection, command: Command) returns (r: Response)
      requires WellQueued(conn.State())
      modifies this, conn
      ensures (State(), conn.State(), r) == Handle(numerals, old(State()), old(conn.State()), command)
    {
      if conn.queue.Some? && !Control(command.verb) {
        conn.queue := Some(conn.queue.value + [command]);
        return Replies(Simple("QUEUED"));
      }
      match command.verb {
        case Watch =>
          WatchKeys(conn, command.args);
          r := Replies(Simple("OK"));
        case Multi =>
          conn.queue := Some([]);
          r := Replies(Simple("OK"));
        case Discard =>
          conn.queue := None;
          conn.watched := map[];
          r := Replies(Simple("OK"));
        case Exec => r := ExecuteQueue(conn);
        case _ => r := Dispatch(conn, command);
      }
    }
  }

  lemma {:induction false} RaisingEnds(n: Numerals, space: Keyspace, session: Session, queue: seq<Command>, i: nat)
    requires Queueable(queue) && i <= |queue| && Queueable(queue[..i])
    requires PerformAll(n, space, session, queue[..i]).2.None?
    ensures PerformAll(n, space, session, queue) == PerformAll(n, space, session, queue[..i])
    decreases |queue|
  {
    if i == |queue| {
      assert queue[..i] == queue;
    } else {
      var last := |queue| - 1;
      assert queue[..last][..i] == queue[..i];
      RaisingEnds(n, space, session, queue[..last], i);
    }
  }
}
