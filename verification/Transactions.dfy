/** What EXEC performs, and when it commits (src/simloom/_services.py:78-175). */
module Transactions {
  import opened Wrappers
  import opened Redis
  import opened Locking

  // ---------------------------------------------------------------------------------------------
  // The queue
  // ---------------------------------------------------------------------------------------------

  /** The commands this client sent to be queued, in order of arrival. */
  function Sent(events: seq<Event>, client: Client): (commands: seq<Command>)
    ensures Queueable(commands)
  {
    if events == [] then [] else
    (if events[0].client == client && !Control(events[0].command.verb) then [events[0].command] else [])
    + Sent(events[1..], client)
  }

  predicate Resets(event: Event, client: Client) {
    event.client == client && (event.command.verb.Multi? || event.command.verb.Exec? || event.command.verb.Discard?)
  }

  /** The client opened a transaction here, and it is still open. */
  predicate Opens(events: seq<Event>, client: Client, m: nat) {
    && m < |events|
    && events[m].client == client && events[m].command.verb.Multi?
    && forall i | m < i < |events| :: !Resets(events[i], client)
  }

  lemma {:induction false} SentGrows(events: seq<Event>, event: Event, client: Client)
    ensures Sent(events + [event], client) ==
      if event.client == client && !Control(event.command.verb) then Sent(events, client) + [event.command]
      else Sent(events, client)
  {
    if events == [] {
      assert [] + [event] == [event] && [event][1..] == [];
    } else {
      assert (events + [event])[1..] == events[1..] + [event];
      SentGrows(events[1..], event, client);
    }
  }

  lemma OneTransaction(events: seq<Event>, client: Client, a: nat, b: nat)
    requires Opens(events, client, a) && Opens(events, client, b)
    ensures a == b
  {
    assert a < b ==> Resets(events[b], client);
    assert b < a ==> Resets(events[a], client);
  }

  /** How a command moves the queue of its own connection. */
  lemma HandleQueues(n: Numerals, space: Keyspace, session: Session, command: Command)
    requires WellQueued(session)
    ensures
      var queue := Handle(n, space, session, command).1.queue;
      if command.verb.Multi? then queue == Some([])
      else if command.verb.Exec? || command.verb.Discard? then queue.None?
      else if session.queue.None? then queue.None?
      else queue == Some(if Control(command.verb) then session.queue.value else session.queue.value + [command])
  {
    if command.verb.Exec? && session.queue.Some? {
      PerformAllKeepsNoQueue(n, space, FRESH, session.queue.value);
    }
  }

  /** What the queue of a connection has to be. */
  ghost predicate QueueTold(events: seq<Event>, client: Client, queue: Option<seq<Command>>) {
    && (forall m: nat | Opens(events, client, m) :: queue == Some(Sent(events[m + 1..], client)))
    && (queue.Some? ==> exists m: nat :: Opens(events, client, m))
  }

  lemma QueueGrows(events: seq<Event>, event: Event, client: Client, queue: Option<seq<Command>>,
                   queue': Option<seq<Command>>)
    requires QueueTold(events, client, queue)
    requires
      if event.client != client then queue' == queue
      else if event.command.verb.Multi? then queue' == Some([])
      else if event.command.verb.Exec? || event.command.verb.Discard? then queue'.None?
      else if queue.None? then queue'.None?
      else queue' == Some(if Control(event.command.verb) then queue.value else queue.value + [event.command])
    ensures QueueTold(events + [event], client, queue')
  {
    var longer := events + [event];
    forall m: nat | Opens(longer, client, m) ensures queue' == Some(Sent(longer[m + 1..], client)) {
      OpensLonger(events, event, client, m);
      if m < |events| {
        assert longer[m + 1..] == events[m + 1..] + [event];
        SentGrows(events[m + 1..], event, client);
      } else {
        assert longer[m + 1..] == [];
      }
    }
    if queue'.Some? {
      if Resets(event, client) {
        OpensLonger(events, event, client, |events|);
      } else {
        var m: nat :| Opens(events, client, m);
        OpensLonger(events, event, client, m);
      }
    }
  }

  lemma OpensLonger(events: seq<Event>, event: Event, client: Client, m: nat)
    ensures Opens(events + [event], client, m) <==>
      || (m == |events| && event.client == client && event.command.verb.Multi?)
      || (Opens(events, client, m) && !Resets(event, client))
  {
    var longer := events + [event];
    assert longer[|events|] == event;
    if m < |events| && Opens(longer, client, m) {
      forall i | m < i < |events| ensures !Resets(events[i], client) {
        assert longer[i] == events[i];
      }
      assert longer[m] == events[m];
    }
  }

  /** In any run a connection has a queue exactly when it sent a MULTI and since then neither another one
      nor an EXEC or DISCARD, and the queue is what it sent to be queued since, in order of arrival. */
  lemma {:induction false} QueueIsWhatWasSent(n: Numerals, start: Server, events: seq<Event>, client: Client)
    requires Sane(start) && start.Of(client).queue.None?
    ensures QueueTold(events, client, After(n, start, events).Of(client).queue)
  {
    if events != [] {
      var last := |events| - 1;
      QueueIsWhatWasSent(n, start, events[..last], client);
      var before := After(n, start, events[..last]);
      HandleQueues(n, before.space, before.Of(events[last].client), events[last].command);
      assert events[..last] + [events[last]] == events;
      QueueGrows(events[..last], events[last], client, before.Of(client).queue,
                 After(n, start, events).Of(client).queue);
    }
  }

  // ---------------------------------------------------------------------------------------------
  // EXEC
  // ---------------------------------------------------------------------------------------------

  /** The commands performed one after the other, each on what the one before left behind, and each
      answered by the reply at its own place. */
  ghost predicate InOrder(n: Numerals, commands: seq<Command>, spaces: seq<Keyspace>, replies: seq<Reply>) {
    && Queueable(commands) && |spaces| == |commands| + 1 && |replies| == |commands|
    && forall i: nat | i < |commands| :: StepOf(n, commands[i], spaces[i], spaces[i + 1], replies[i])
  }

  ghost predicate StepOf(n: Numerals, command: Command, before: Keyspace, after: Keyspace, reply: Reply) {
    !Control(command.verb) && Perform(n, before, FRESH, command) == (after, FRESH, Replies(reply))
  }

  lemma {:induction false} PerformAllInOrder(n: Numerals, space: Keyspace, queue: seq<Command>)
    returns (done: nat, spaces: seq<Keyspace>, replies: seq<Reply>)
    requires Queueable(queue)
    ensures done <= |queue| && InOrder(n, queue[..done], spaces, replies)
    ensures spaces[0] == space && PerformAll(n, space, FRESH, queue).0 == spaces[done]
    ensures match PerformAll(n, space, FRESH, queue).2
            case Some(all) => done == |queue| && all == replies
            case None => done < |queue| && Perform(n, spaces[done], FRESH, queue[done]).2.Raises?
    ensures PerformAll(n, space, FRESH, queue).1 == FRESH
  {
    if queue == [] {
      return 0, [space], [];
    }
    var last := |queue| - 1;
    done, spaces, replies := PerformAllInOrder(n, space, queue[..last]);
    assert queue[..last][..done] == queue[..done];
    if PerformAll(n, space, FRESH, queue[..last]).2.Some? {
      var (after, session, response) := Perform(n, spaces[last], FRESH, queue[last]);
      if response.Replies? {
        done, spaces, replies := |queue|, spaces + [after], replies + [response.reply];
        assert queue[..done] == queue[..last] + [queue[last]];
        assert StepOf(n, queue[last], spaces[last], after, response.reply);
      }
    }
  }

  /** Over any interleaving of connections: an EXEC that commits performs what the client sent since its
      MULTI, in order of arrival, and the reply at each place answers the command at that place. If one
      of them raises, those before it stay performed and the others never are. */
  lemma ExecPerformsInOrder(n: Numerals, start: Server, events: seq<Event>, client: Client, m: nat)
    returns (done: nat, spaces: seq<Keyspace>, replies: seq<Reply>)
    requires Sane(start) && start.Of(client).queue.None? && Opens(events, client, m)
    requires
      var server := After(n, start, events);
      Commits(server.space, server.Of(client))
    ensures
      var server := After(n, start, events);
      var sent := Sent(events[m + 1..], client);
      var (space', session', response) := Handle(n, server.space, server.Of(client), Command(Exec, []));
      && done <= |sent| && InOrder(n, sent[..done], spaces, replies)
      && spaces[0] == server.space && space' == spaces[done] && session' == FRESH
      && (if done == |sent| then response == Replies(Array(Some(replies)))
          else response.Raises? && Perform(n, spaces[done], FRESH, sent[done]).2.Raises?)
  {
    QueueIsWhatWasSent(n, start, events, client);
    var server := After(n, start, events);
    done, spaces, replies := CommitsInOrder(n, server.space, server.Of(client));
  }

  lemma CommitsInOrder(n: Numerals, space: Keyspace, session: Session)
    returns (done: nat, spaces: seq<Keyspace>, replies: seq<Reply>)
    requires WellQueued(session) && Commits(space, session)
    ensures
      var queue := session.queue.value;
      var (space', session', response) := Handle(n, space, session, Command(Exec, []));
      && done <= |queue| && InOrder(n, queue[..done], spaces, replies)
      && spaces[0] == space && space' == spaces[done] && session' == FRESH
      && (if done == |queue| then response == Replies(Array(Some(replies)))
          else response.Raises? && Perform(n, spaces[done], FRESH, queue[done]).2.Raises?)
  {
    done, spaces, replies := PerformAllInOrder(n, space, session.queue.value);
  }

  // ---------------------------------------------------------------------------------------------
  // Plain commands
  // ---------------------------------------------------------------------------------------------

  /** The command writes this key when it is performed; DEL only removes what is there. */
  predicate Writes(n: Numerals, space: Keyspace, command: Command, key: Bytes) {
    match command.verb
    case Set => |command.args| > 1 && command.args[0] == key
    case Del => key in command.args && key in space.store
    case Incr => Counted(n, space, command).1.Replies? && command.args[0] == key
    case IncrBy => Counted(n, space, command).1.Replies? && command.args[0] == key
    case Decr => Counted(n, space, command).1.Replies? && command.args[0] == key
    case DecrBy => Counted(n, space, command).1.Replies? && command.args[0] == key
    case _ => false
  }

  function Found(space: Keyspace, keys: seq<Bytes>): set<Bytes> {
    set key | key in keys && key in space.store
  }

  lemma MoreFound(space: Keyspace, keys: seq<Bytes>, key: Bytes)
    ensures |Found(space, keys + [key])| ==
      |Found(space, keys)| + if key in space.store && key !in keys then 1 else 0
  {
    var found := Found(space, keys);
    assert Found(space, keys + [key]) == if key in space.store then found + {key} else found;
  }

  /** The keys are gone and all others are left alone; the version moved by one for just those that were
      there, and they are what is counted. */
  lemma {:induction false} DeletedExactly(space: Keyspace, keys: seq<Bytes>)
    ensures
      var (after, removed) := space.RemoveAll(keys);
      && removed == |Found(space, keys)|
      && forall key ::
           && after.Value(key) == (if key in keys then None else space.Value(key))
           && after.Version(key) == space.Version(key) + if key in keys && key in space.store then 1 else 0
  {
    if keys != [] {
      var last := |keys| - 1;
      var before := keys[..last];
      DeletedExactly(space, before);
      MoreFound(space, before, keys[last]);
      assert before + [keys[last]] == keys;
      var rest := space.RemoveAll(before).0;
      assert keys[last] in rest.store <==> keys[last] in space.store && keys[last] !in before by {
        assert rest.Value(keys[last]) == if keys[last] in before then None else space.Value(keys[last]);
      }
    }
  }

  /** EXISTS counts the places at which a key that is there is named. */
  lemma {:induction false} PresentExactly(space: Keyspace, keys: seq<Bytes>)
    ensures space.Present(keys) == |set i: nat | i < |keys| && keys[i] in space.store|
  {
    if keys != [] {
      var last := |keys| - 1;
      PresentExactly(space, keys[..last]);
      var found := set i: nat | i < last && keys[..last][i] in space.store;
      assert (set i: nat | i < |keys| && keys[i] in space.store) ==
        if keys[last] in space.store then found + {last} else found;
    }
  }

  /** A version moves, by one, exactly where its key is written; every other key keeps its value. Reading
      commands, and those that raise, write nothing. */
  lemma PerformWritesExactly(n: Numerals, space: Keyspace, session: Session, command: Command, key: Bytes)
    requires !Control(command.verb)
    ensures
      var (after, _, response) := Perform(n, space, session, command);
      && after.Version(key) == space.Version(key) + (if Writes(n, space, command, key) then 1 else 0)
      && (!Writes(n, space, command, key) ==> after.Value(key) == space.Value(key))
      && (command.verb.Set? && Writes(n, space, command, key) ==> after.Value(key) == Some(command.args[1]))
      && (command.verb.Del? && Writes(n, space, command, key) ==> after.Value(key) == None)
      && (response.Raises? ==> after == space)
  {
    if command.verb.Del? {
      DeletedExactly(space, command.args);
    }
  }

  /** What the replies tell: GET what the key holds, or that it is missing; DEL how many different keys
      were there to remove; EXISTS at how many places a key that is there is named. */
  lemma RepliesTell(n: Numerals, space: Keyspace, session: Session, command: Command)
    requires command.args != []
    ensures
      var key := command.args[0];
      command.verb.Get? ==>
        Perform(n, space, session, command).2 ==
          Replies(Bulk(if key in space.store then Some(space.store[key]) else None))
    ensures command.verb.Del? ==>
      Perform(n, space, session, command).2 == Replies(Integer(|Found(space, command.args)|))
    ensures command.verb.Exists? ==>
      Perform(n, space, session, command).2 ==
        Replies(Integer(|set i: nat | i < |command.args| && command.args[i] in space.store|))
  {
    DeletedExactly(space, command.args);
    PresentExactly(space, command.args);
  }

  /** Of several writes of one key in a transaction the last one decides. */
  lemma {:induction false} LastSetDecides(
    n: Numerals, commands: seq<Command>, spaces: seq<Keyspace>, replies: seq<Reply>, i: nat, end: nat)
    requires InOrder(n, commands, spaces, replies) && i < end <= |commands| && commands[i].verb.Set?
    requires commands[i].args != []
    requires forall k: nat | i < k < end :: !Writes(n, spaces[k], commands[k], commands[i].args[0])
    ensures |commands[i].args| > 1 && spaces[end].Value(commands[i].args[0]) == Some(commands[i].args[1])
    decreases end
  {
    assert StepOf(n, commands[end - 1], spaces[end - 1], spaces[end], replies[end - 1]);
    if end > i + 1 {
      LastSetDecides(n, commands, spaces, replies, i, end - 1);
      PerformWritesExactly(n, spaces[end - 1], FRESH, commands[end - 1], commands[i].args[0]);
    }
  }

  // ---------------------------------------------------------------------------------------------
  // Watches
  // ---------------------------------------------------------------------------------------------

  /** The event ends all watches of the client: a DISCARD, an EXEC of an open transaction, or an UNWATCH
      outside of one. */
  ghost predicate EndsWatches(events: seq<Event>, client: Client, i: nat)
    requires i < |events|
  {
    var verb := events[i].command.verb;
    && events[i].client == client
    && (|| verb.Discard?
        || (verb.Exec? && InTransaction(events[..i], client))
        || (verb.Unwatch? && !InTransaction(events[..i], client)))
  }

  ghost predicate InTransaction(events: seq<Event>, client: Client) {
    exists m: nat :: Opens(events, client, m)
  }

  /** The client named the key in a WATCH here, and no event since has ended its watches. */
  ghost predicate WatchesSince(events: seq<Event>, client: Client, key: Bytes, w: nat) {
    && w < |events| && events[w].client == client
    && events[w].command.verb.Watch? && key in events[w].command.args
    && forall i: nat | w < i < |events| :: !EndsWatches(events, client, i)
  }

  lemma HandleKeepsWatches(n: Numerals, space: Keyspace, session: Session, command: Command, key: Bytes)
    requires WellQueued(session)
    ensures key in Handle(n, space, session, command).1.watched <==>
      || (command.verb.Watch? && key in command.args)
      || (key in session.watched && !command.verb.Discard?
          && !(command.verb.Exec? && session.queue.Some?) && !(command.verb.Unwatch? && session.queue.None?))
  {
    if command.verb.Watch? {
      WatchAllWatches(session.watched, space, command.args, key);
    } else if command.verb.Exec? && session.queue.Some? {
      PerformAllKeepsNoQueue(n, space, FRESH, session.queue.value);
    }
  }

  lemma WatchesGrow(events: seq<Event>, event: Event, client: Client, key: Bytes)
    ensures
      (exists w: nat :: WatchesSince(events + [event], client, key, w)) <==>
        || (event.client == client && event.command.verb.Watch? && key in event.command.args)
        || ((exists w: nat :: WatchesSince(events, client, key, w))
            && !EndsWatches(events + [event], client, |events|))
  {
    var longer := events + [event];
    forall i: nat | i < |events| ensures EndsWatches(longer, client, i) <==> EndsWatches(events, client, i) {
      assert longer[..i] == events[..i];
    }
    if event.client == client && event.command.verb.Watch? && key in event.command.args {
      assert WatchesSince(longer, client, key, |events|);
    }
    forall w: nat | WatchesSince(events, client, key, w) && !EndsWatches(longer, client, |events|)
      ensures WatchesSince(longer, client, key, w)
    {
    }
    forall w: nat | w < |events| && WatchesSince(longer, client, key, w) ensures WatchesSince(events, client, key, w) {
      assert !EndsWatches(longer, client, |events|);
    }
  }

  /** In any run a connection watches just the keys it named in a WATCH since its watches last ended. */
  lemma {:induction false} WatchedExactly(n: Numerals, start: Server, events: seq<Event>, client: Client, key: Bytes)
    requires Sane(start) && start.Of(client) == FRESH
    ensures key in After(n, start, events).Of(client).watched <==>
      exists w: nat :: WatchesSince(events, client, key, w)
  {
    if events != [] {
      var last := |events| - 1;
      var before := After(n, start, events[..last]);
      WatchedExactly(n, start, events[..last], client, key);
      QueueIsWhatWasSent(n, start, events[..last], client);
      HandleKeepsWatches(n, before.space, before.Of(events[last].client), events[last].command, key);
      assert events[..last] + [events[last]] == events;
      WatchesGrow(events[..last], events[last], client, key);
      assert before.Of(client).queue.Some? <==> InTransaction(events[..last], client);
    }
  }

  ghost predicate Names(event: Event, client: Client, key: Bytes) {
    event.client == client && event.command.verb.Watch? && key in event.command.args
  }

  /** The last WATCH naming the key, the watches of the client not having ended since. */
  ghost predicate LastWatch(events: seq<Event>, client: Client, key: Bytes, w: nat) {
    && WatchesSince(events, client, key, w)
    && forall i | w < i < |events| :: !Names(events[i], client, key)
  }

  lemma {:induction false} LatestWatch(events: seq<Event>, client: Client, key: Bytes, w: nat) returns (latest: nat)
    requires WatchesSince(events, client, key, w)
    ensures LastWatch(events, client, key, latest)
    decreases |events| - w
  {
    if i: nat :| w < i < |events| && Names(events[i], client, key) {
      latest := LatestWatch(events, client, key, i);
    } else {
      latest := w;
    }
  }

  lemma HandleKeepsWatched(n: Numerals, space: Keyspace, session: Session, command: Command, key: Bytes)
    requires WellQueued(session) && key in session.watched && !(command.verb.Watch? && key in command.args)
    ensures
      var watched := Handle(n, space, session, command).1.watched;
      key in watched ==> watched[key] == session.watched[key]
  {
    if command.verb.Watch? {
      WatchAllWatches(session.watched, space, command.args, key);
    } else if command.verb.Exec? && session.queue.Some? {
      PerformAllKeepsNoQueue(n, space, FRESH, session.queue.value);
    }
  }

  lemma LastWatchBefore(events: seq<Event>, client: Client, key: Bytes, w: nat)
    requires w < |events| - 1 && LastWatch(events, client, key, w)
    ensures LastWatch(events[..|events| - 1], client, key, w)
  {
    var before := events[..|events| - 1];
    forall i: nat | w < i < |before| ensures !EndsWatches(before, client, i) && !Names(before[i], client, key) {
      assert before[..i] == events[..i] && before[i] == events[i];
      assert !EndsWatches(events, client, i);
    }
  }

  /** What is remembered of a watched key is its version at its last WATCH. */
  lemma {:induction false} WatchedVersion(
    n: Numerals, start: Server, events: seq<Event>, client: Client, key: Bytes, w: nat)
    requires Sane(start) && start.Of(client) == FRESH && LastWatch(events, client, key, w)
    ensures
      var watched := After(n, start, events).Of(client).watched;
      key in watched && watched[key] == After(n, start, events[..w]).space.Version(key)
    decreases |events|
  {
    var last := |events| - 1;
    var before := After(n, start, events[..last]);
    var event := events[last];
    WatchedExactly(n, start, events, client, key);
    if w == last {
      WatchAllWatches(before.Of(client).watched, before.space, event.command.args, key);
    } else {
      LastWatchBefore(events, client, key, w);
      assert events[..last][..w] == events[..w];
      WatchedVersion(n, start, events[..last], client, key, w);
      assert !Names(event, client, key);
      if event.client == client {
        HandleKeepsWatched(n, before.space, before.Of(client), event.command, key);
      }
    }
  }

  ghost predicate Moved(n: Numerals, start: Server, events: seq<Event>, key: Bytes, w: nat)
    requires Sane(start) && w <= |events|
  {
    After(n, start, events).space.Version(key) != After(n, start, events[..w]).space.Version(key)
  }

  /** Over any interleaving of connections: an EXEC commits exactly when the client is in a transaction
      and no key it watches has been written since it last watched it. */
  lemma ExecCommitsExactly(n: Numerals, start: Server, events: seq<Event>, client: Client)
    requires Sane(start) && start.Of(client) == FRESH
    ensures
      var server := After(n, start, events);
      Commits(server.space, server.Of(client)) <==>
        && InTransaction(events, client)
        && forall key, w: nat | LastWatch(events, client, key, w) :: !Moved(n, start, events, key, w)
  {
    var server := After(n, start, events);
    var session := server.Of(client);
    QueueIsWhatWasSent(n, start, events, client);
    assert session.queue.Some? <==> InTransaction(events, client);
    forall key, w: nat | LastWatch(events, client, key, w)
      ensures key in session.watched
              && (Moved(n, start, events, key, w) <==> session.watched[key] != server.space.Version(key))
    {
      WatchedVersion(n, start, events, client, key, w);
    }
    forall key | key in session.watched
      ensures exists w: nat :: LastWatch(events, client, key, w)
    {
      WatchedExactly(n, start, events, client, key);
      var w: nat :| WatchesSince(events, client, key, w);
      var latest := LatestWatch(events, client, key, w);
    }
  }
}
