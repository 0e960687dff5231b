/** Pipelined queries through the statement cache against the server's own table of prepared
    statements: queue, sync and abort of applyPipeline (internal/cdc/applier.go:2183-2410, 2815-2837). A
    sync may fail at any message, which makes the server skip the rest; an abort then forgets the cache. */
module PreparedPipeline {
  import opened Wrappers
  import opened Model
  import opened Frames
  import opened StatementCache

  /** Close, Parse and Bind/Execute messages of the extended query protocol; an unnamed query parses
      and runs at once. */
  datatype Message =
    | Close(name: string)
    | Parse(name: string, query: Query)
    | Execute(name: string)
    | Unnamed(query: Query)

  /** The session's prepared statements, and the queries run since the pipeline began. */
  datatype Server = Server(prepared: map<string, Query>, ran: seq<Query>)

  /** Whether the server takes a message: it refuses to prepare a name twice and to run a name it does
      not know. */
  predicate Accepts(server: Server, message: Message) {
    match message
    case Close(_) => true
    case Parse(name, _) => name !in server.prepared
    case Execute(name) => name in server.prepared
    case Unnamed(_) => true
  }

  function Handle(server: Server, message: Message): Server {
    match message
    case Close(name) => server.(prepared := server.prepared - {name})
    case Parse(name, query) => server.(prepared := server.prepared[name := query])
    case Execute(name) =>
      if name in server.prepared then server.(ran := server.ran + [server.prepared[name]]) else server
    case Unnamed(query) => server.(ran := server.ran + [query])
  }

  function HandleAll(server: Server, messages: seq<Message>): Server
    decreases |messages|
  {
    if messages == [] then server else HandleAll(Handle(server, messages[0]), messages[1..])
  }

  predicate AllAccepted(server: Server, messages: seq<Message>)
    decreases |messages|
  {
    messages == [] || (Accepts(server, messages[0]) && AllAccepted(Handle(server, messages[0]), messages[1..]))
  }

  /** The names prepared after the number `floor`. */
  function Live(server: Server, floor: nat): set<string> {
    set name | name in server.prepared && Number(name) > floor
  }

  /** Every message is accepted, and at no point are more than `capacity` live names prepared. */
  predicate Fits(server: Server, messages: seq<Message>, floor: nat, capacity: nat)
    decreases |messages|
  {
    && |Live(server, floor)| <= capacity
    && (messages == [] ||
        (Accepts(server, messages[0]) && Fits(Handle(server, messages[0]), messages[1..], floor, capacity)))
  }

  lemma {:induction false} FitsConcat(server: Server, a: seq<Message>, b: seq<Message>, floor: nat, capacity: nat)
    ensures HandleAll(server, a + b) == HandleAll(HandleAll(server, a), b)
    ensures Fits(server, a + b, floor, capacity)
            <==> Fits(server, a, floor, capacity) && Fits(HandleAll(server, a), b, floor, capacity)
    decreases |a|
  {
    if a == [] {
      assert a + b == b;
    } else {
      assert (a + b)[0] == a[0] && (a + b)[1..] == a[1..] + b;
      FitsConcat(Handle(server, a[0]), a[1..], b, floor, capacity);
    }
  }

  lemma {:induction false} FittingIsAccepted(server: Server, messages: seq<Message>, floor: nat, capacity: nat)
    requires Fits(server, messages, floor, capacity)
    ensures AllAccepted(server, messages)
    decreases |messages|
  {
    if messages != [] {
      FittingIsAccepted(Handle(server, messages[0]), messages[1..], floor, capacity);
    }
  }

  // --- The pipeline and its connection ---

  /** `sent` holds the messages since the last sync, `asked` the queries since the pipeline began and
      `floor` the last number used before the cache was last invalidated. After a failed sync the
      pipeline can only be aborted. */
  datatype Link = Link(
    cache: Cache, floor: nat, server: Server, sent: seq<Message>, asked: seq<Query>, failed: bool)

  function MessagesFor(a: Acquired, query: Query): seq<Message> {
    (if a.evicted.Some? then [Close(a.evicted.value.name)] else []) +
    match a.statement
    case None => [Unnamed(query)]
    case Some(statement) => (if a.added then [Parse(statement.name, query)] else []) + [Execute(statement.name)]
  }

  function Queued(s: Link, query: Query): Link
    requires |s.cache.entries| == |s.cache.lru|
  {
    var a := AcquireIn(s.cache, KeyFor(query));
    s.(cache := a.cache, sent := s.sent + MessagesFor(a, query), asked := s.asked + [query])
  }

  function QueuedUnprepared(s: Link, query: Query): Link {
    s.(sent := s.sent + [Unnamed(query)], asked := s.asked + [query])
  }

  /** The server handled the first `handled` messages; if it stopped there, or a result was not the
      expected one, the pipeline has failed. */
  function Synced(s: Link, handled: nat, expected: bool): Link
    requires handled <= |s.sent|
  {
    s.(server := HandleAll(s.server, s.sent[..handled]), sent := [],
       failed := s.failed || handled < |s.sent| || !expected)
  }

  /** Whatever was sent and not yet synced is synced, the transaction is rolled back and the cache is
      invalidated; the session's prepared statements outlive the rollback. */
  function Aborted(s: Link, handled: nat): Link
    requires handled <= |s.sent|
  {
    Link(Invalidated(s.cache), s.cache.nextID, Synced(s, handled, true).server.(ran := []), [], [], false)
  }

  function Finished(s: Link): Link {
    s.(server := s.server.(ran := []), asked := [])
  }

  datatype Event =
    | Queue(query: Query)
    | QueueUnprepared(query: Query)
    | Sync(handled: nat, expected: bool)
    | Abort(handled: nat)
    | Finish

  /** The server stops no later than at the first message it refuses. */
  predicate Next(s: Link, event: Event, t: Link) {
    match event
    case Queue(query) => !s.failed && |s.cache.entries| == |s.cache.lru| && t == Queued(s, query)
    case QueueUnprepared(query) => !s.failed && t == QueuedUnprepared(s, query)
    case Sync(handled, expected) =>
      !s.failed && handled <= |s.sent| && AllAccepted(s.server, s.sent[..handled]) && t == Synced(s, handled, expected)
    case Abort(handled) =>
      handled <= |s.sent| && AllAccepted(s.server, s.sent[..handled]) && t == Aborted(s, handled)
    case Finish => !s.failed && s.sent == [] && t == Finished(s)
  }

  // --- The invariant ---

  /** The live prepared statements are the cached ones. */
  predicate Agrees(prepared: map<string, Query>, floor: nat, entries: map<Key, Statement>) {
    && (forall k :: k in entries ==> entries[k].name in prepared && KeyFor(prepared[entries[k].name]) == k)
    && (forall name :: name in prepared && Number(name) > floor ==>
          KeyFor(prepared[name]) in entries && entries[KeyFor(prepared[name])].name == name)
  }

  predicate Known(server: Server, nextID: nat) {
    forall name :: name in server.prepared ==> Number(name) <= nextID
  }

  predicate SentKnown(sent: seq<Message>, nextID: nat) {
    forall m :: m in sent && m.Parse? ==> Number(m.name) <= nextID
  }

  /** Once everything sent is handled, the server has run what was asked and holds what is cached. */
  ghost predicate OnCourse(server: Server, sent: seq<Message>, asked: seq<Query>, floor: nat, cache: Cache) {
    && Fits(server, sent, floor, cache.capacity)
    && HandleAll(server, sent).ran == asked
    && Agrees(HandleAll(server, sent).prepared, floor, cache.entries)
  }

  ghost predicate LinkOk(s: Link) {
    && CacheOk(s.cache, s.floor)
    && Known(s.server, s.cache.nextID) && SentKnown(s.sent, s.cache.nextID)
    && s.server.ran <= s.asked
    && (s.failed ==> s.sent == [])
    && (!s.failed ==> OnCourse(s.server, s.sent, s.asked, s.floor, s.cache))
  }

  // --- One query ---

  lemma {:induction false} HandledKnown(server: Server, messages: seq<Message>, nextID: nat)
    requires Known(server, nextID) && SentKnown(messages, nextID)
    ensures Known(HandleAll(server, messages), nextID)
    decreases |messages|
  {
    if messages != [] {
      assert messages[0] in messages;
      assert forall m :: m in messages[1..] ==> m in messages;
      HandledKnown(Handle(server, messages[0]), messages[1..], nextID);
    }
  }

  lemma LiveWithinCapacity(server: Server, floor: nat, cache: Cache)
    requires CacheOk(cache, floor) && Agrees(server.prepared, floor, cache.entries)
    ensures |Live(server, floor)| <= |cache.lru| <= cache.capacity
  {
    var names := NamesOf(cache.lru);
    forall name | name in Live(server, floor) ensures name in Elements(names) {
      var i :| 0 <= i < |cache.lru| && cache.lru[i] == cache.entries[KeyFor(server.prepared[name])];
      assert names[i] == name;
    }
    ElementsSize(names);
    assert Elements(names) == Live(server, floor) + (Elements(names) - Live(server, floor));
  }

  lemma {:induction false} ElementsSize<T>(items: seq<T>)
    ensures |Elements(items)| <= |items|
  {
    if items != [] {
      ElementsSize(items[1..]);
      assert Elements(items) == {items[0]} + Elements(items[1..]);
    }
  }

  lemma OneMessage(server: Server, message: Message, floor: nat, capacity: nat)
    ensures HandleAll(server, [message]) == Handle(server, message)
    ensures Fits(server, [message], floor, capacity) <==>
              && |Live(server, floor)| <= capacity && Accepts(server, message)
              && |Live(Handle(server, message), floor)| <= capacity
  {
    assert [message][1..] == [];
  }

  lemma HitRuns(server: Server, floor: nat, cache: Cache, query: Query)
    requires CacheOk(cache, floor) && |cache.entries| == |cache.lru| && Agrees(server.prepared, floor, cache.entries)
    requires cache.capacity > 0 && KeyFor(query) in cache.entries
    ensures var a := AcquireIn(cache, KeyFor(query));
            OnCourse(server, MessagesFor(a, query), server.ran + [query], floor, a.cache)
  {
    hide Name, Number, Without, KeyFor, CacheOk;
    var a := AcquireIn(cache, KeyFor(query));
    LiveWithinCapacity(server, floor, cache);
    var name := a.statement.value.name;
    KeyIdentifiesQuery(server.prepared[name], query);
    assert MessagesFor(a, query) == [Execute(name)];
    OneMessage(server, Execute(name), floor, cache.capacity);
    assert Live(Handle(server, Execute(name)), floor) == Live(server, floor);
  }

  /** With a statement given back, one fewer is live and the rest still agree. */
  lemma CloseRuns(server: Server, floor: nat, cache: Cache)
    requires CacheOk(cache, floor) && Agrees(server.prepared, floor, cache.entries) && cache.lru != []
    ensures var last := cache.lru[|cache.lru| - 1];
            var after := Handle(server, Close(last.name));
            && Agrees(after.prepared, floor, cache.entries - {last.key})
            && |Live(after, floor)| == |Live(server, floor)| - 1
  {
    hide Name, Number, KeyFor, Distinct;
    var last := cache.lru[|cache.lru| - 1];
    assert last in cache.lru;
    assert Issued(last.name, floor, cache.nextID);
    assert Live(Handle(server, Close(last.name)), floor) == Live(server, floor) - {last.name};
  }

  lemma ParseAgrees(
    prepared: map<string, Query>, floor: nat, entries: map<Key, Statement>, name: string, query: Query)
    requires Agrees(prepared, floor, entries) && name !in prepared && KeyFor(query) !in entries
    ensures Agrees(prepared[name := query], floor, entries[KeyFor(query) := Statement(KeyFor(query), name)])
  {
    hide Number, KeyFor;
  }

  lemma ParseLive(server: Server, floor: nat, name: string, query: Query)
    ensures |Live(Handle(server, Parse(name, query)), floor)| <= |Live(server, floor)| + 1
  {
    hide Number;
    var after := Live(Handle(server, Parse(name, query)), floor);
    assert after <= Live(server, floor) + {name};
    assert Live(server, floor) + {name} == after + ((Live(server, floor) + {name}) - after);
  }

  /** Preparing a new name for a new key and running it. */
  lemma AdmitRuns(server: Server, floor: nat, nextID: nat, capacity: nat, entries: map<Key, Statement>, query: Query)
    requires Agrees(server.prepared, floor, entries) && Known(server, nextID)
    requires KeyFor(query) !in entries && |Live(server, floor)| < capacity
    ensures var statement := Statement(KeyFor(query), Name(nextID + 1));
            var messages := [Parse(statement.name, query), Execute(statement.name)];
            && Fits(server, messages, floor, capacity) && HandleAll(server, messages).ran == server.ran + [query]
            && Agrees(HandleAll(server, messages).prepared, floor, entries[statement.key := statement])
  {
    hide Name, Number, KeyFor, Fits, HandleAll, Agrees, Live, Handle, Accepts;
    var name := Name(nextID + 1);
    NewName(server, nextID);
    var parse, execute := Parse(name, query), Execute(name);
    PreparedAndRun(server, name, query);
    ParseAgrees(server.prepared, floor, entries, name, query);
    ParseLive(server, floor, name, query);
    OneMessage(server, parse, floor, capacity);
    SameLive(Handle(server, parse), Handle(Handle(server, parse), execute), floor);
    OneMessage(Handle(server, parse), execute, floor, capacity);
    FitsConcat(server, [parse], [execute], floor, capacity);
    assert [parse] + [execute] == [parse, execute];
  }

  lemma NewName(server: Server, nextID: nat)
    requires Known(server, nextID)
    ensures Name(nextID + 1) !in server.prepared
  {
    hide Name, Number;
    NumberOfName(nextID + 1);
  }

  lemma PreparedAndRun(server: Server, name: string, query: Query)
    requires name !in server.prepared
    ensures
      var parsed := Handle(server, Parse(name, query));
      var ran := Handle(parsed, Execute(name));
      && Accepts(server, Parse(name, query)) && Accepts(parsed, Execute(name))
      && parsed.prepared == ran.prepared == server.prepared[name := query] && ran.ran == server.ran + [query]
  {
  }

  lemma SameLive(a: Server, b: Server, floor: nat)
    requires a.prepared == b.prepared
    ensures Live(a, floor) == Live(b, floor)
  {
    hide Number;
  }

  lemma MissRuns(server: Server, floor: nat, cache: Cache, query: Query)
    requires CacheOk(cache, floor) && |cache.entries| == |cache.lru| && Agrees(server.prepared, floor, cache.entries)
    requires Known(server, cache.nextID) && cache.capacity > 0 && KeyFor(query) !in cache.entries
    ensures var a := AcquireIn(cache, KeyFor(query));
            OnCourse(server, MessagesFor(a, query), server.ran + [query], floor, a.cache)
  {
    hide Name, Number, KeyFor, Fits, HandleAll, Agrees, Known;
    LiveWithinCapacity(server, floor, cache);
    var a := AcquireIn(cache, KeyFor(query));
    if |cache.entries| >= cache.capacity {
      CloseRuns(server, floor, cache);
      var last := cache.lru[|cache.lru| - 1];
      var close := Close(last.name);
      var closed := Handle(server, close);
      ClosedKnown(server, last.name, cache.nextID);
      AdmitRuns(closed, floor, cache.nextID, cache.capacity, cache.entries - {last.key}, query);
      OneMessage(server, close, floor, cache.capacity);
      FitsConcat(server, [close], MessagesFor(a, query)[1..], floor, cache.capacity);
      assert MessagesFor(a, query)
          == [close] + [Parse(a.statement.value.name, query), Execute(a.statement.value.name)];
    } else {
      AdmitRuns(server, floor, cache.nextID, cache.capacity, cache.entries, query);
      assert MessagesFor(a, query) == [Parse(a.statement.value.name, query), Execute(a.statement.value.name)];
    }
  }

  lemma ClosedKnown(server: Server, name: string, nextID: nat)
    requires Known(server, nextID)
    ensures Known(Handle(server, Close(name)), nextID)
  {
  }

  lemma UnnamedRuns(server: Server, floor: nat, cache: Cache, query: Query)
    requires CacheOk(cache, floor) && Agrees(server.prepared, floor, cache.entries)
    ensures OnCourse(server, [Unnamed(query)], server.ran + [query], floor, cache)
  {
    LiveWithinCapacity(server, floor, cache);
    OneMessage(server, Unnamed(query), floor, cache.capacity);
    assert Live(Handle(server, Unnamed(query)), floor) == Live(server, floor);
  }

  // --- Every step ---

  lemma {:induction false} RanGrows(server: Server, messages: seq<Message>)
    ensures server.ran <= HandleAll(server, messages).ran
    decreases |messages|
  {
    if messages != [] {
      RanGrows(Handle(server, messages[0]), messages[1..]);
    }
  }

  lemma {:induction false} OnCourseConcat(
    server: Server, a: seq<Message>, b: seq<Message>, asked: seq<Query>, floor: nat, cache: Cache)
    requires Fits(server, a, floor, cache.capacity) && OnCourse(HandleAll(server, a), b, asked, floor, cache)
    ensures OnCourse(server, a + b, asked, floor, cache)
  {
    FitsConcat(server, a, b, floor, cache.capacity);
  }

  lemma QueryRuns(server: Server, floor: nat, cache: Cache, query: Query)
    requires CacheOk(cache, floor) && |cache.entries| == |cache.lru| && Agrees(server.prepared, floor, cache.entries)
    requires Known(server, cache.nextID)
    ensures var a := AcquireIn(cache, KeyFor(query));
            OnCourse(server, MessagesFor(a, query), server.ran + [query], floor, a.cache)
  {
    if cache.capacity == 0 {
      UnnamedRuns(server, floor, cache, query);
    } else if KeyFor(query) in cache.entries {
      HitRuns(server, floor, cache, query);
    } else {
      MissRuns(server, floor, cache, query);
    }
  }

  lemma QueueKeeps(s: Link, query: Query)
    requires LinkOk(s) && !s.failed
    ensures |s.cache.entries| == |s.cache.lru| && LinkOk(Queued(s, query))
  {
    hide Name, Number, KeyFor, CacheOk, AcquireIn, Fits, HandleAll, Agrees, MessagesFor, SentKnown, Known;
    AcquireKeeps(s.cache, s.floor, KeyFor(query));
    HandledKnown(s.server, s.sent, s.cache.nextID);
    var a := AcquireIn(s.cache, KeyFor(query));
    QueryRuns(HandleAll(s.server, s.sent), s.floor, s.cache, query);
    SameCapacity(s.cache, KeyFor(query));
    OnCourseConcat(s.server, s.sent, MessagesFor(a, query), s.asked + [query], s.floor, a.cache);
    QueuedSentKnown(s.sent, s.cache, query);
    KnownGrows(s.server, s.cache.nextID, a.cache.nextID);
  }

  lemma KnownGrows(server: Server, nextID: nat, later: nat)
    requires Known(server, nextID) && nextID <= later
    ensures Known(server, later)
  {
    hide Number;
  }

  lemma SameCapacity(cache: Cache, key: Key)
    requires |cache.entries| == |cache.lru|
    ensures AcquireIn(cache, key).cache.capacity == cache.capacity
    ensures AcquireIn(cache, key).cache.nextID == cache.nextID + if AcquireIn(cache, key).added then 1 else 0
  {
  }

  lemma QueuedSentKnown(sent: seq<Message>, cache: Cache, query: Query)
    requires |cache.entries| == |cache.lru| && SentKnown(sent, cache.nextID)
    ensures var a := AcquireIn(cache, KeyFor(query));
            cache.nextID <= a.cache.nextID && SentKnown(sent + MessagesFor(a, query), a.cache.nextID)
  {
    NumberOfName(cache.nextID + 1);
    AdmittedName(cache, KeyFor(query));
    SameCapacity(cache, KeyFor(query));
    hide Name, Number, KeyFor, AcquireIn, MessagesFor;
    var a := AcquireIn(cache, KeyFor(query));
    MessagesKnown(a, query, a.cache.nextID);
  }

  lemma MessagesKnown(a: Acquired, query: Query, nextID: nat)
    requires a.added && a.statement.Some? ==> Number(a.statement.value.name) <= nextID
    ensures SentKnown(MessagesFor(a, query), nextID)
  {
    hide Number;
  }

  lemma UnpreparedKeeps(s: Link, query: Query)
    requires LinkOk(s) && !s.failed
    ensures LinkOk(QueuedUnprepared(s, query))
  {
    hide Number, KeyFor, Fits, HandleAll;
    UnnamedRuns(HandleAll(s.server, s.sent), s.floor, s.cache, query);
    OnCourseConcat(s.server, s.sent, [Unnamed(query)], s.asked + [query], s.floor, s.cache);
  }

  lemma SyncKeeps(s: Link, handled: nat, expected: bool)
    requires LinkOk(s) && handled <= |s.sent|
    ensures LinkOk(Synced(s, handled, expected))
  {
    var now, rest := s.sent[..handled], s.sent[handled..];
    assert s.sent == now + rest;
    FitsConcat(s.server, now, rest, s.floor, s.cache.capacity);
    HandledKnown(s.server, now, s.cache.nextID);
    RanGrows(HandleAll(s.server, now), rest);
    hide Number, KeyFor, Agrees, CacheOk;
  }

  lemma FreshStart(server: Server, cache: Cache)
    requires Known(server, cache.nextID) && cache.entries == map[] && cache.lru == []
    ensures CacheOk(cache, cache.nextID) && OnCourse(server, [], server.ran, cache.nextID, cache)
  {
    hide Number, KeyFor;
    assert Live(server, cache.nextID) == {};
  }

  lemma AbortKeeps(s: Link, handled: nat)
    requires LinkOk(s) && handled <= |s.sent|
    ensures LinkOk(Aborted(s, handled))
  {
    SyncKeeps(s, handled, true);
    hide Number, KeyFor, CacheOk, OnCourse, HandleAll;
    var after := Aborted(s, handled);
    FreshStart(after.server, after.cache);
  }

  lemma NextKeeps(s: Link, event: Event, t: Link)
    requires LinkOk(s) && Next(s, event, t)
    ensures LinkOk(t)
  {
    hide LinkOk;
    match event {
      case Queue(query) => {
        QueueKeeps(s, query);
      }
      case QueueUnprepared(query) => {
        UnpreparedKeeps(s, query);
      }
      case Sync(handled, expected) => {
        SyncKeeps(s, handled, expected);
      }
      case Abort(handled) => {
        AbortKeeps(s, handled);
      }
      case Finish => {
        FinishKeeps(s);
      }
    }
  }

  lemma FinishKeeps(s: Link)
    requires LinkOk(s) && !s.failed && s.sent == []
    ensures LinkOk(Finished(s))
  {
    hide Number, KeyFor;
    assert Live(Finished(s).server, s.floor) == Live(s.server, s.floor);
  }

  // --- Runs ---

  /** A new connection with an empty cache, and any events after it. */
  predicate Run(capacity: nat, states: seq<Link>, events: seq<Event>) {
    && |states| == |events| + 1
    && states[0] == Link(Cache(capacity, 0, map[], []), 0, Server(map[], []), [], [], false)
    && (forall i :: 0 <= i < |events| ==> Next(states[i], events[i], states[i + 1]))
  }

  lemma {:induction false} RunKeeps(capacity: nat, states: seq<Link>, events: seq<Event>, i: nat)
    requires Run(capacity, states, events) && i < |states|
    ensures LinkOk(states[i])
  {
    if i > 0 {
      RunKeeps(capacity, states, events, i - 1);
      NextKeeps(states[i - 1], events[i - 1], states[i]);
    } else {
      assert Live(states[0].server, 0) == {};
    }
  }

  /** The server never refuses a name, and never holds more live statements than the cache may. */
  lemma NamesNeverRefused(capacity: nat, states: seq<Link>, events: seq<Event>, i: nat)
    requires Run(capacity, states, events) && i < |states|
    ensures AllAccepted(states[i].server, states[i].sent)
    ensures !states[i].failed ==> Fits(states[i].server, states[i].sent, states[i].floor, states[i].cache.capacity)
  {
    RunKeeps(capacity, states, events, i);
    if !states[i].failed {
      FittingIsAccepted(states[i].server, states[i].sent, states[i].floor, states[i].cache.capacity);
    }
  }

  /** What the server ran is what was asked, in order, with the SQL and parameter types asked for; and
      the live prepared statements are the cached ones. */
  lemma RanAsAsked(capacity: nat, states: seq<Link>, events: seq<Event>, i: nat)
    requires Run(capacity, states, events) && i < |states|
    ensures states[i].server.ran <= states[i].asked
    ensures !states[i].failed && states[i].sent == [] ==>
              && states[i].server.ran == states[i].asked
              && Agrees(states[i].server.prepared, states[i].floor, states[i].cache.entries)
  {
    RunKeeps(capacity, states, events, i);
  }

  lemma NumberGrows(s: Link, event: Event, t: Link)
    requires Next(s, event, t)
    ensures s.cache.nextID <= t.cache.nextID
  {
    hide AllAccepted, HandleAll, AcquireIn, MessagesFor, KeyFor;
    if event.Queue? {
      SameCapacity(s.cache, KeyFor(event.query));
    }
  }

  lemma {:induction false} NumbersGrow(capacity: nat, states: seq<Link>, events: seq<Event>, i: nat, j: nat)
    requires Run(capacity, states, events) && i <= j < |states|
    ensures states[i].cache.nextID <= states[j].cache.nextID
    decreases j
  {
    if i < j {
      hide Next;
      NumbersGrow(capacity, states, events, i, j - 1);
      NumberGrows(states[j - 1], events[j - 1], states[j]);
    }
  }

  predicate NeverSeen(s: Link, name: string) {
    name !in s.server.prepared && forall m :: m in s.sent && m.Parse? ==> m.name != name
  }

  /** The name the next new statement will get was never prepared or sent before, across aborts and
      invalidations. */
  lemma NamesNeverReused(capacity: nat, states: seq<Link>, events: seq<Event>, i: nat, j: nat)
    requires Run(capacity, states, events) && i <= j < |states|
    ensures NeverSeen(states[i], Name(states[j].cache.nextID + 1))
  {
    hide *;
    NumbersGrow(capacity, states, events, i, j);
    RunKeeps(capacity, states, events, i);
    NewToState(states[i], states[j].cache.nextID);
  }

  lemma NewToState(s: Link, nextID: nat)
    requires LinkOk(s) && s.cache.nextID <= nextID
    ensures NeverSeen(s, Name(nextID + 1))
  {
    NumberOfName(nextID + 1);
    hide Name, Number, KeyFor, CacheOk, OnCourse;
  }

  /** acquire gives a new statement exactly that name. */
  lemma AdmittedName(cache: Cache, key: Key)
    requires |cache.entries| == |cache.lru|
    ensures var a := AcquireIn(cache, key);
            a.added ==> a.statement == Some(Statement(key, Name(cache.nextID + 1)))
  {
  }

  lemma QueuedIs(s: Link, query: Query, a: Acquired)
    requires |s.cache.entries| == |s.cache.lru| && a == AcquireIn(s.cache, KeyFor(query))
    ensures Queued(s, query)
            == Link(a.cache, s.floor, s.server, s.sent + MessagesFor(a, query), s.asked + [query], s.failed)
  {
    hide KeyFor, AcquireIn, MessagesFor;
  }

  lemma MessagesSent(s: Link, query: Query)
    requires |s.cache.entries| == |s.cache.lru|
    ensures Queued(s, query).sent != []
  {
    hide Name, Number, KeyFor, AcquireIn;
  }

  // --- Statements that outlive an invalidation ---

  /** The names prepared up to the number `floor`. */
  function Old(server: Server, floor: nat): set<string> {
    set name | name in server.prepared && Number(name) <= floor
  }

  /** Only names given out after the last invalidation are closed or prepared. */
  predicate SentNew(sent: seq<Message>, floor: nat) {
    forall m :: m in sent && (m.Close? || m.Parse?) ==> Number(m.name) > floor
  }

  lemma {:induction false} HandleOld(server: Server, messages: seq<Message>, floor: nat)
    requires SentNew(messages, floor)
    ensures Old(HandleAll(server, messages), floor) == Old(server, floor)
    decreases |messages|
  {
    if messages != [] {
      assert messages[0] in messages;
      assert forall m :: m in messages[1..] ==> m in messages;
      HandleOld(Handle(server, messages[0]), messages[1..], floor);
      HandleOneOld(server, messages[0], floor);
    }
  }

  lemma HandleOneOld(server: Server, message: Message, floor: nat)
    requires message.Close? || message.Parse? ==> Number(message.name) > floor
    ensures Old(Handle(server, message), floor) == Old(server, floor)
  {
    hide Number;
  }

  lemma QueuedNew(s: Link, query: Query)
    requires CacheOk(s.cache, s.floor) && |s.cache.entries| == |s.cache.lru| && SentNew(s.sent, s.floor)
    ensures SentNew(Queued(s, query).sent, s.floor)
  {
    hide Name, Number, KeyFor, Distinct, Without;
    NumberOfName(s.cache.nextID + 1);
    var lru := s.cache.lru;
    assert lru != [] ==> Issued(lru[|lru| - 1].name, s.floor, s.cache.nextID);
  }

  lemma PrefixNew(sent: seq<Message>, handled: nat, floor: nat)
    requires handled <= |sent| && SentNew(sent, floor)
    ensures SentNew(sent[..handled], floor)
  {
    hide Number;
    assert forall m :: m in sent[..handled] ==> m in sent;
  }

  /** An event but an abort neither closes nor prepares a name from before the last invalidation. */
  lemma StepOld(s: Link, event: Event, t: Link)
    requires LinkOk(s) && Next(s, event, t) && SentNew(s.sent, s.floor) && !event.Abort?
    ensures t.floor == s.floor && SentNew(t.sent, t.floor) && Old(t.server, t.floor) == Old(s.server, s.floor)
  {
    hide Number, KeyFor, AcquireIn, MessagesFor, OnCourse, AllAccepted, CacheOk, Known, SentKnown, HandleAll, Old;
    match event {
      case Queue(query) => {
        QueuedNew(s, query);
      }
      case QueueUnprepared(query) => {}
      case Sync(handled, _) => {
        PrefixNew(s.sent, handled, s.floor);
        HandleOld(s.server, s.sent[..handled], s.floor);
      }
      case Finish => {
        SameOld(s.server, Finished(s).server, s.floor);
      }
    }
  }

  lemma SameOld(a: Server, b: Server, floor: nat)
    requires a.prepared == b.prepared
    ensures Old(a, floor) == Old(b, floor)
  {
    hide Number;
  }

  /** Right after the last invalidation: the state after the last abort, or the first one. */
  function LastFresh(events: seq<Event>, i: nat): (f: nat)
    requires i <= |events|
    ensures f <= i
  {
    if i == 0 || events[i - 1].Abort? then i else LastFresh(events, i - 1)
  }

  lemma FreshOld(s: Link)
    requires Known(s.server, s.cache.nextID) && s.floor == s.cache.nextID && s.sent == []
    ensures SentNew(s.sent, s.floor) && Old(s.server, s.floor) == s.server.prepared.Keys
  {
    hide Number;
  }

  lemma LinkKnown(s: Link)
    requires LinkOk(s)
    ensures Known(s.server, s.cache.nextID)
  {
  }

  /** What was prepared at the last invalidation is prepared ever since, and of the older names nothing else is. */
  lemma {:induction false} Survivors(capacity: nat, states: seq<Link>, events: seq<Event>, i: nat)
    requires Run(capacity, states, events) && i < |states|
    ensures SentNew(states[i].sent, states[i].floor)
    ensures Old(states[i].server, states[i].floor) == states[LastFresh(events, i)].server.prepared.Keys
  {
    hide LinkOk, Old, SentNew, Known;
    RunKeeps(capacity, states, events, i);
    LinkKnown(states[i]);
    if i == 0 || events[i - 1].Abort? {
      hide AllAccepted, HandleAll;
      FreshOld(states[i]);
    } else {
      Survivors(capacity, states, events, i - 1);
      RunKeeps(capacity, states, events, i - 1);
      hide Next;
      StepOld(states[i - 1], events[i - 1], states[i]);
    }
  }

  predicate IsCached(cache: Cache, name: string) {
    exists k :: k in cache.entries && cache.entries[k].name == name
  }

  predicate HoldsOnlyCached(s: Link) {
    forall name :: name in s.server.prepared ==> IsCached(s.cache, name)
  }

  /** With everything sent handled, the session's statements are the cached ones and the older ones. */
  lemma CachedOrOld(s: Link)
    requires LinkOk(s) && !s.failed && s.sent == []
    ensures HoldsOnlyCached(s) <==> Old(s.server, s.floor) == {}
  {
    hide Number, KeyFor, Name, Distinct, Fits;
    assert Agrees(s.server.prepared, s.floor, s.cache.entries);
    forall k | k in s.cache.entries ensures Number(s.cache.entries[k].name) > s.floor {
      EntryIssued(s.cache, s.floor, k);
    }
    forall name | name in s.server.prepared ensures IsCached(s.cache, name) <==> name !in Old(s.server, s.floor) {
      if Number(name) > s.floor {
        var k := KeyFor(s.server.prepared[name]);
        assert k in s.cache.entries && s.cache.entries[k].name == name;
      }
    }
    hide IsCached, Agrees;
    if HoldsOnlyCached(s) {
      assert forall name :: name in Old(s.server, s.floor) ==> name in s.server.prepared;
      assert Old(s.server, s.floor) == {};
    }
  }

  lemma EntryIssued(cache: Cache, floor: nat, key: Key)
    requires CacheOk(cache, floor) && key in cache.entries
    ensures Number(cache.entries[key].name) > floor
  {
    hide Number, Name, Distinct;
    var i :| 0 <= i < |cache.lru| && cache.lru[i] == cache.entries[key];
    assert Issued(cache.lru[i].name, floor, cache.nextID);
  }

  /** The session holds no statement but the cached ones, whenever everything sent has been handled, exactly
      if it held none at all when the cache was last invalidated. */
  lemma HoldsOnlyCachedIff(capacity: nat, states: seq<Link>, events: seq<Event>, i: nat)
    requires Run(capacity, states, events) && i < |states| && !states[i].failed && states[i].sent == []
    ensures HoldsOnlyCached(states[i]) <==> states[LastFresh(events, i)].server.prepared == map[]
  {
    hide LastFresh, LinkOk, Next, Old, HoldsOnlyCached;
    RunKeeps(capacity, states, events, i);
    Survivors(capacity, states, events, i);
    CachedOrOld(states[i]);
    NoKeys(states[LastFresh(events, i)].server.prepared);
  }

  lemma NoKeys<K, V>(m: map<K, V>)
    ensures m.Keys == {} <==> m == map[]
  {
  }

  /** An abort too leaves the older names alone. */
  lemma AbortOld(s: Link, event: Event, t: Link)
    requires Next(s, event, t) && event.Abort? && SentNew(s.sent, s.floor)
    ensures Old(s.server, s.floor) <= t.server.prepared.Keys
  {
    hide Number, HandleAll, AllAccepted, SentNew;
    PrefixNew(s.sent, event.handled, s.floor);
    HandleOld(s.server, s.sent[..event.handled], s.floor);
  }

  lemma {:induction false} SurvivorsGrow(capacity: nat, states: seq<Link>, events: seq<Event>, i: nat, j: nat)
    requires Run(capacity, states, events) && i <= j < |states|
    ensures states[LastFresh(events, i)].server.prepared.Keys <= states[LastFresh(events, j)].server.prepared.Keys
    decreases j
  {
    hide Old, SentNew, Next;
    if i < j {
      SurvivorsGrow(capacity, states, events, i, j - 1);
      if events[j - 1].Abort? {
        Survivors(capacity, states, events, j - 1);
        AbortOld(states[j - 1], events[j - 1], states[j]);
      }
    }
  }

  /** A statement that outlives an invalidation is never given back, not by later invalidations either: so
      the session holds only cached statements exactly as long as every invalidation found none. */
  lemma SurvivorsStay(capacity: nat, states: seq<Link>, events: seq<Event>, i: nat, j: nat)
    requires Run(capacity, states, events) && i <= j < |states|
    ensures states[LastFresh(events, i)].server.prepared.Keys <= states[j].server.prepared.Keys
  {
    hide Run, LastFresh, Number;
    SurvivorsGrow(capacity, states, events, i, j);
    Survivors(capacity, states, events, j);
  }

  /** Statements outlive the invalidation that forgets them: one query, a sync and an abort leave a
      prepared statement that is in no cache, so the capacity bounds only the live ones. */
  lemma SurvivorsOutliveInvalidation(query: Query) returns (states: seq<Link>, events: seq<Event>)
    ensures Run(1, states, events) && |events| == 3
    ensures states[3].cache.entries == map[] && states[3].server.prepared == map[Name(1) := query]
    ensures !HoldsOnlyCached(states[3])
  {
    hide Name, Number, KeyFor;
    var s0 := Link(Cache(1, 0, map[], []), 0, Server(map[], []), [], [], false);
    var s1 := Queued(s0, query);
    var name := Name(1);
    assert s1.sent == [Parse(name, query), Execute(name)];
    var parsed := Handle(s0.server, Parse(name, query));
    OneMessage(parsed, Execute(name), 0, 1);
    assert s1.sent[1..] == [Execute(name)];
    assert s1.sent[..2] == s1.sent;
    NamesNeverRefused(1, [s0, s1], [Queue(query)], 1);
    var s2 := Synced(s1, 2, true);
    var s3 := Aborted(s2, 0);
    states, events := [s0, s1, s2, s3], [Queue(query), Sync(2, true), Abort(0)];
    assert name in s3.server.prepared && !IsCached(s3.cache, name);
  }

  /** applyPipeline on one connection. How many messages the server handles at a sync, and whether every
      result is the expected one, are parameters; `server` is the session at the other end. */
  class ApplyPipeline {
    const statements: PreparedStatements
    const syncWindow: nat
    var server: Server
    var sent: seq<Message>
    var commands: nat
    var asked: seq<Query>
    var failed: bool
    ghost var floor: nat

    ghost function State(): Link
      reads this, statements
    {
      Link(statements.State(), floor, server, sent, asked, failed)
    }

    ghost predicate Valid()
      reads this, statements
    {
      LinkOk(State()) && statements.Valid()
    }

    /** A new connection: nothing prepared, nothing cached. */
    constructor (statements: PreparedStatements, syncWindow: nat)
      requires statements.Valid() && statements.State() == Cache(statements.capacity, 0, map[], [])
      ensures Valid() && this.statements == statements && this.syncWindow == syncWindow
      ensures State() == Link(statements.State(), 0, Server(map[], []), [], [], false) && commands == 0
    {
      this.statements, this.syncWindow := statements, syncWindow;
      server, sent, commands, asked, failed, floor := Server(map[], []), [], 0, [], false, 0;
      new;
      FreshStart(server, statements.State());
    }

    method Send(message: Message)
      modifies this`sent
      ensures sent == old(sent) + [message]
    {
      sent := sent + [message];
    }

    method SendFor(
      query: Query, statement: Option<Statement>, added: bool, evicted: Option<Statement>, ghost cache: Cache)
      modifies this`sent
      ensures sent == old(sent) + MessagesFor(Acquired(cache, statement, added, evicted), query)
    {
      if evicted.Some? {
        Send(Close(evicted.value.name));
      }
      if statement.None? {
        Send(Unnamed(query));
      } else {
        if added {
          Send(Parse(statement.value.name, query));
        }
        Send(Execute(statement.value.name));
      }
    }

    /** sync: nothing to do if nothing was sent. */
    method Sync(handled: nat, expected: bool) returns (ok: bool)
      requires Valid() && !failed && handled <= |sent| && (sent == [] ==> expected)
      modifies this`server, this`sent, this`commands, this`failed
      ensures Valid() && State() == Synced(old(State()), handled, expected) && ok == !failed
      ensures old(sent) != [] ==> commands == 0
    {
      SyncKeeps(State(), handled, expected);
      hide Number, KeyFor, CacheOk, OnCourse;
      if sent == [] {
        return true;
      }
      server := HandleAll(server, sent[..handled]);
      failed := handled < |sent| || !expected;
      sent, commands := [], 0;
      ok := !failed;
    }

    /** Give back an evicted name, prepare a new one, run the query. */
    method Enqueue(query: Query)
      requires Valid() && !failed && |statements.entries| == |statements.lru|
      modifies this`sent, this`asked, this`commands, statements
      ensures Valid() && State() == Queued(old(State()), query) && commands == old(commands) + 1
    {
      hide LinkOk, CacheOk, KeyFor, AcquireIn, MessagesFor, Queued;
      ghost var before := State();
      QueueKeeps(before, query);
      ghost var a := AcquireIn(before.cache, KeyFor(query));
      var statement, added, evicted := statements.Acquire(query);
      SendFor(query, statement, added, evicted, a.cache);
      asked, commands := asked + [query], commands + 1;
      QueuedIs(before, query, a);
    }

    /** queue: enqueue, and sync once enough commands are queued. */
    method Queue(query: Query, handled: nat, expected: bool) returns (ok: bool)
      requires Valid() && !failed && |statements.entries| == |statements.lru|
      requires handled <= |Queued(State(), query).sent|
      modifies this, statements
      ensures Valid() && ok == !failed
      ensures State() == if syncWindow > 0 && old(commands) + 1 >= syncWindow
                         then Synced(Queued(old(State()), query), handled, expected)
                         else Queued(old(State()), query)
    {
      hide Name, Number, KeyFor, LinkOk, CacheOk, AcquireIn, Synced;
      Enqueue(query);
      MessagesSent(old(State()), query);
      ok := true;
      if syncWindow > 0 && commands >= syncWindow {
        ok := Sync(handled, expected);
      }
    }

    /** abort: sync what is left, roll back, forget the cache. */
    method Abort(handled: nat)
      requires Valid() && handled <= |sent|
      modifies this, statements
      ensures Valid() && State() == Aborted(old(State()), handled)
    {
      AbortKeeps(State(), handled);
      hide Number, KeyFor, CacheOk, OnCourse;
      if sent != [] {
        var ok := Sync(handled, true);
      }
      server := server.(ran := []);
      statements.Invalidate();
      floor, commands, asked, failed := statements.nextID, 0, [], false;
    }
  }
}
