/** What WATCH / MULTI / EXEC promise over any interleaving of connections
    (src/simloom/_services.py:78-79, 123-175): a transaction that commits finds the keys it watched as they
    were when it watched them. */
module Locking {
  import opened Wrappers
  import opened Redis

  // ---------------------------------------------------------------------------------------------
  // Versions track values
  // ---------------------------------------------------------------------------------------------

  /** Versions never fall, and a key whose version did not move was not touched. */
  ghost predicate Tracks(before: Keyspace, after: Keyspace) {
    forall key :: TracksKey(before, after, key)
  }

  ghost predicate TracksKey(before: Keyspace, after: Keyspace, key: Bytes) {
    && before.Version(key) <= after.Version(key)
    && (before.Version(key) == after.Version(key) ==> before.Value(key) == after.Value(key))
  }

  lemma TracksTransitive(a: Keyspace, b: Keyspace, c: Keyspace)
    requires Tracks(a, b) && Tracks(b, c)
    ensures Tracks(a, c)
  {
    forall key ensures TracksKey(a, c, key) {
      assert TracksKey(a, b, key) && TracksKey(b, c, key);
    }
  }

  lemma {:induction false} RemoveAllTracks(space: Keyspace, keys: seq<Bytes>)
    ensures Tracks(space, space.RemoveAll(keys).0)
  {
    if keys == [] {
    } else {
      var rest := space.RemoveAll(keys[..|keys| - 1]).0;
      RemoveAllTracks(space, keys[..|keys| - 1]);
      assert Tracks(rest, rest.Remove(keys[|keys| - 1]));
      TracksTransitive(space, rest, rest.Remove(keys[|keys| - 1]));
    }
  }

  lemma PerformTracks(n: Numerals, space: Keyspace, session: Session, command: Command)
    requires !Control(command.verb)
    ensures Tracks(space, Perform(n, space, session, command).0)
  {
    if command.verb.Del? {
      RemoveAllTracks(space, command.args);
    }
  }

  lemma {:induction false} PerformAllTracks(n: Numerals, space: Keyspace, session: Session, queue: seq<Command>)
    requires Queueable(queue)
    ensures Tracks(space, PerformAll(n, space, session, queue).0)
  {
    if queue == [] {
    } else {
      var last := |queue| - 1;
      PerformAllTracks(n, space, session, queue[..last]);
      var (space1, session1, replies) := PerformAll(n, space, session, queue[..last]);
      PerformTracks(n, space1, session1, queue[last]);
      TracksTransitive(space, space1, Perform(n, space1, session1, queue[last]).0);
    }
  }

  lemma HandleTracks(n: Numerals, space: Keyspace, session: Session, command: Command)
    requires WellQueued(session)
    ensures Tracks(space, Handle(n, space, session, command).0)
  {
    if command.verb.Exec? && session.queue.Some? {
      PerformAllTracks(n, space, FRESH, session.queue.value);
    } else if !Control(command.verb) {
      PerformTracks(n, space, session, command);
    }
  }

  // ---------------------------------------------------------------------------------------------
  // Runs of the server
  // ---------------------------------------------------------------------------------------------

  type Client = nat

  /** One command arriving from one of the connections; connections open fresh and may fall silent. */
  datatype Event = Event(client: Client, command: Command)

  datatype Server = Server(space: Keyspace, sessions: map<Client, Session>)
  {
    function Of(client: Client): Session {
      if client in sessions then sessions[client] else FRESH
    }
  }

  const EMPTY := Server(Keyspace(map[], map[]), map[])

  ghost predicate Sane(server: Server) {
    forall client | client in server.sessions :: WellQueued(server.sessions[client])
  }

  lemma {:induction false} HandleWellQueued(n: Numerals, space: Keyspace, session: Session, command: Command)
    requires WellQueued(session)
    ensures WellQueued(Handle(n, space, session, command).1)
  {
    if command.verb.Exec? && session.queue.Some? {
      PerformAllKeepsNoQueue(n, space, FRESH, session.queue.value);
    }
  }

  lemma {:induction false} PerformAllKeepsNoQueue(n: Numerals, space: Keyspace, session: Session, queue: seq<Command>)
    requires Queueable(queue) && session.queue.None?
    ensures PerformAll(n, space, session, queue).1.queue.None?
    ensures session.watched == map[] ==> PerformAll(n, space, session, queue).1.watched == map[]
  {
    if queue != [] {
      PerformAllKeepsNoQueue(n, space, session, queue[..|queue| - 1]);
    }
  }

  function Serve(n: Numerals, server: Server, event: Event): (server': Server)
    requires WellQueued(server.Of(event.client))
  {
    var (space, session, _) := Handle(n, server.space, server.Of(event.client), event.command);
    Server(space, server.sessions[event.client := session])
  }

  ghost function After(n: Numerals, start: Server, events: seq<Event>): (server: Server)
    requires Sane(start)
    ensures Sane(server)
  {
    if events == [] then start else
    var before := After(n, start, events[..|events| - 1]);
    var event := events[|events| - 1];
    HandleWellQueued(n, before.space, before.Of(event.client), event.command);
    Serve(n, before, event)
  }

  /** What a key held when this connection last watched it; None inside means it was missing. */
  ghost function Seen(n: Numerals, start: Server, events: seq<Event>, client: Client, key: Bytes): Option<Option<Bytes>>
    requires Sane(start)
  {
    if events == [] then None else
    var last := |events| - 1;
    if events[last].client == client && events[last].command.verb.Watch? && key in events[last].command.args then
      Some(After(n, start, events[..last]).space.Value(key))
    else Seen(n, start, events[..last], client, key)
  }

  lemma {:induction false} WatchAllWatches(watched: map<Bytes, nat>, space: Keyspace, keys: seq<Bytes>, key: Bytes)
    ensures key in WatchAll(watched, space, keys) <==> key in watched || key in keys
    ensures key in keys ==> WatchAll(watched, space, keys)[key] == space.Version(key)
    ensures key in watched && key !in keys ==> WatchAll(watched, space, keys)[key] == watched[key]
  {
    if keys == [] {
    } else {
      var last := |keys| - 1;
      WatchAllWatches(watched, space, keys[..last], key);
      assert key in keys <==> key in keys[..last] || key == keys[last];
    }
  }

  /** A watched key remembers a version no newer than the current one, and if it still is the current
      one, the key is as it was when it was watched. */
  ghost predicate WatchHolds(space: Keyspace, session: Session, key: Bytes, seen: Option<Option<Bytes>>) {
    key in session.watched ==>
      && seen.Some?
      && session.watched[key] <= space.Version(key)
      && (session.watched[key] == space.Version(key) ==> space.Value(key) == seen.value)
  }

  lemma HandleWatches(n: Numerals, space: Keyspace, session: Session, command: Command, key: Bytes,
                      seen: Option<Option<Bytes>>)
    requires WellQueued(session) && WatchHolds(space, session, key, seen)
    ensures
      var (space', session', _) := Handle(n, space, session, command);
      WatchHolds(space', session', key,
                 if command.verb.Watch? && key in command.args then Some(space.Value(key)) else seen)
  {
    HandleTracks(n, space, session, command);
    var space' := Handle(n, space, session, command).0;
    assert TracksKey(space, space', key);
    if command.verb.Watch? {
      WatchAllWatches(session.watched, space, command.args, key);
    } else if command.verb.Exec? && session.queue.Some? {
      PerformAllKeepsNoQueue(n, space, FRESH, session.queue.value);
    }
  }

  lemma {:induction false} WatchedKeysTracked(n: Numerals, start: Server, events: seq<Event>, client: Client,
                                              key: Bytes)
    requires Sane(start) && start.Of(client).watched == map[]
    ensures
      var server := After(n, start, events);
      WatchHolds(server.space, server.Of(client), key, Seen(n, start, events, client, key))
  {
    if events == [] {
    } else {
      var last := |events| - 1;
      var before := After(n, start, events[..last]);
      WatchedKeysTracked(n, start, events[..last], client, key);
      var event := events[last];
      if event.client == client {
        var seen := Seen(n, start, events[..last], client, key);
        HandleWatches(n, before.space, before.Of(client), event.command, key, seen);
      } else {
        HandleTracks(n, before.space, before.Of(event.client), event.command);
        assert TracksKey(before.space, After(n, start, events).space, key);
      }
    }
  }

  /** EXEC runs its queue: there is one, and no watched key has a new version. */
  ghost predicate Commits(space: Keyspace, session: Session) {
    session.queue.Some? && Unchanged(space, session.watched)
  }

  /** Optimistic locking: over any interleaving of connections, an EXEC that is not aborted finds every
      watched key with the presence and value it had when the connection last watched it, and then
      runs the whole queue on it in one go; an aborted EXEC changes nothing. */
  lemma OptimisticLocking(n: Numerals, start: Server, events: seq<Event>, client: Client)
    requires Sane(start) && start.Of(client).watched == map[]
    ensures
      var server := After(n, start, events);
      var session := server.Of(client);
      var (space', session', response) := Handle(n, server.space, session, Command(Exec, []));
      && session'.queue.None? && (session.queue.Some? ==> session'.watched == map[])
      && (Commits(server.space, session) ==>
            && space' == PerformAll(n, server.space, FRESH, session.queue.value).0
            && forall key | key in session.watched ::
                 Seen(n, start, events, client, key) == Some(server.space.Value(key)))
      && (session.queue.Some? && !Commits(server.space, session) ==>
            space' == server.space && response == Replies(Array(None)))
  {
    var server := After(n, start, events);
    var session := server.Of(client);
    if session.queue.Some? {
      PerformAllKeepsNoQueue(n, server.space, FRESH, session.queue.value);
    }
    forall key | key in session.watched && Commits(server.space, session)
      ensures Seen(n, start, events, client, key) == Some(server.space.Value(key))
    {
      WatchedKeysTracked(n, start, events, client, key);
    }
  }
}
