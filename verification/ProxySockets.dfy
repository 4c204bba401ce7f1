/** Every byte on every socket: what a connection attempt that failed has sent. */
module ProxySockets {
  import opened Wrappers
  import opened McpProxy
  import opened ProxyOrder
  import opened ProxyHandshake

  predicate OpenedIn(log: seq<Obs>, g: nat) { exists p :: 0 <= p < |log| && log[p] == Opened(g) }

  /** A beginning of the greeting that was due at some point of the log. */
  ghost predicate BeginsGreeting(log: seq<Obs>, sent: seq<Line>) {
    exists p :: 0 <= p <= |log| && sent <= Hello(log[..p])
  }

  /** Socket `g` carries at most the beginning of a greeting and no client line, and nothing
      it said goes further. */
  ghost predicate Stillborn(s: State, g: nat)
    requires g < |s.conns|
  {
    && BeginsGreeting(s.log, s.conns[g].sent)
    && WritesOn(s.log, g) == []
    && s.conns[g].skipped == |s.conns[g].got| && !s.conns[g].reading
  }

  ghost predicate Accounted(s: State) {
    && WellFormed(s)
    && (s.connection.Some? ==> OpenedIn(s.log, s.generation))
    && (forall g :: 0 <= g < |s.conns| ==> OpenedIn(s.log, g) || Stillborn(s, g))
  }

  lemma OpenedStays(log: seq<Obs>, o: Obs, g: nat)
    ensures OpenedIn(log, g) ==> OpenedIn(log + [o], g)
    ensures OpenedIn(log + [Opened(g)], g)
  {
    if OpenedIn(log, g) {
      var p :| 0 <= p < |log| && log[p] == Opened(g);
      assert (log + [o])[p] == Opened(g);
    }
    assert (log + [Opened(g)])[|log|] == Opened(g);
  }

  lemma BeginningStays(log: seq<Obs>, o: Obs, sent: seq<Line>)
    requires BeginsGreeting(log, sent)
    ensures BeginsGreeting(log + [o], sent)
  {
    hide Hello;
    var p :| 0 <= p <= |log| && sent <= Hello(log[..p]);
    assert (log + [o])[..p] == log[..p];
  }

  /** An entry keeps every account, unless it writes to a socket that never opened. */
  lemma EntryAccounted(s: State, o: Obs)
    requires Accounted(s) && (o.Wrote? ==> OpenedIn(s.log, o.generation))
    ensures Accounted(s.(log := s.log + [o]))
  {
    hide OpenedIn, BeginsGreeting, WritesOn;
    var t := s.(log := s.log + [o]);
    OpenedStays(s.log, o, s.generation);
    forall g | 0 <= g < |s.conns| ensures OpenedIn(t.log, g) || Stillborn(t, g) {
      OpenedStays(s.log, o, g);
      WritesOnAppend(s.log, o, g);
      if !OpenedIn(s.log, g) { BeginningStays(s.log, o, s.conns[g].sent); }
    }
  }

  lemma {:induction false} FlushAccounted(s: State, order: seq<Id>)
    requires Accounted(s)
    ensures Accounted(Flush(s, order))
    decreases order
  {
    hide OpenedIn, BeginsGreeting, WritesOn;
    SplitFailures(s.log, order);
    if order != [] {
      EntryAccounted(s, Failed(order[0]));
      FlushAccounted(s.(log := s.log + [Failed(order[0])]), order[1..]);
    }
  }

  /** A dial that fails has sent the beginning of its replay, and its reader never starts. */
  lemma FailedDial(replay: seq<Line>, dial: Dial)
    requires replay == [] || |replay| == 2
    ensures var (ok, conn) := Connect(replay, dial);
            !ok ==> conn.sent <= replay && conn.skipped == |conn.got| && !conn.reading
  {
  }

  /** Sockets may change as long as those that never opened stay as they are. */
  lemma SameAccounts(s: State, t: State)
    requires Accounted(s) && WellFormed(t) && t.log == s.log && |t.conns| == |s.conns|
    requires t.connection.Some? ==> t.connection == s.connection
    requires forall g :: 0 <= g < |s.conns| ==> OpenedIn(s.log, g) || t.conns[g] == s.conns[g]
    ensures Accounted(t)
  {
    hide OpenedIn, BeginsGreeting, WritesOn;
  }

  lemma ReconnectAccounted(s: State, dial: Dial)
    requires Accounted(s) && AllGreeted(s) && s.connection.None?
    ensures Accounted(Reconnect(s, dial))
  {
    hide OpenedIn, WritesOn, Hello, Connect, LatestInitialize, LatestInitialized, BeginsGreeting;
    var replay, g := s.handshake.Replay(), s.generation + 1;
    ReplayIsHello(s);
    FailedDial(replay, dial);
    ConnectGreets(replay, dial);
    NothingWritten(s.log, g);
    var (ok, conn) := Connect(replay, dial);
    if conn.sent <= Hello(s.log) { GreetingBegins(s.log, conn.sent); }
    var dialed := s.(generation := g, conns := s.conns + [conn]);
    if ok {
      var t := dialed.(connection := Some(g), log := s.log + [Opened(g)]);
      OpenedStays(s.log, Opened(g), g);
      forall h | 0 <= h < |t.conns| ensures OpenedIn(t.log, h) || Stillborn(t, h) {
        OpenedStays(s.log, Opened(g), h);
        WritesOnAppend(s.log, Opened(g), h);
        if h < |s.conns| && !OpenedIn(s.log, h) { BeginningStays(s.log, Opened(g), s.conns[h].sent); }
      }
    } else {
      assert forall h :: 0 <= h < |s.conns| ==> dialed.conns[h] == s.conns[h];
      assert Stillborn(dialed, g);
    }
  }

  lemma GreetingBegins(log: seq<Obs>, sent: seq<Line>)
    requires sent <= Hello(log)
    ensures BeginsGreeting(log, sent)
  {
    assert log[..|log|] == log;
  }

  lemma WriteAccounted(s: State, line: Line, ok: bool, order: seq<Id>)
    requires Accounted(s) && s.connection.Some?
    ensures Accounted(Write(s, line, ok, order))
  {
    hide OpenedIn, BeginsGreeting, WritesOn;
    var g := s.generation;
    var sent := s.(conns := s.conns[g := s.conns[g].(sent := s.conns[g].sent + [line])]);
    SameAccounts(s, sent);
    EntryAccounted(sent, Wrote(g, line, ok));
    var wrote := sent.(log := s.log + [Wrote(g, line, ok)]);
    if !ok {
      SameAccounts(wrote, wrote.(connection := None));
      FlushAccounted(wrote.(connection := None), order);
    }
  }

  lemma ClientLineAccounted(s: State, line: Line, dial: Dial, writeOk: bool, order: seq<Id>)
    requires Accounted(s) && AllGreeted(s)
    ensures Accounted(OnClientLine(s, line, dial, writeOk, order))
  {
    hide OpenedIn, Stillborn, AllGreeted, Flush, Write, Reconnect;
    var noted := Noted(s, line);
    EntryAccounted(s, Read(line));
    assert Accounted(noted) by { NotedAccounted(s, line); }
    NotedGreeted(s, line);
    if noted.connection.None? { ReconnectAccounted(noted, dial); }
    var ready := if noted.connection.None? then Reconnect(noted, dial) else noted;
    if ready.connection.None? {
      EntryAccounted(ready, Refused(line));
      FlushAccounted(ready.(log := ready.log + [Refused(line)]), order);
    } else {
      WriteAccounted(ready, line, writeOk, order);
    }
  }

  lemma NotedAccounted(s: State, line: Line)
    requires Accounted(s)
    ensures Accounted(Noted(s, line))
  {
    hide OpenedIn, BeginsGreeting, WritesOn;
    EntryAccounted(s, Read(line));
    SameAccounts(s.(log := s.log + [Read(line)]), Noted(s, line));
  }

  lemma EventAccounted(s: State, order: seq<Id>)
    requires Accounted(s) && s.queue != []
    ensures Accounted(OnEvent(s, order))
  {
    hide OpenedIn, BeginsGreeting, WritesOn;
    var e, rest := s.queue[0], s.(queue := s.queue[1..]);
    SameAccounts(s, rest);
    if e.generation == s.generation && e.EventLine? {
      EntryAccounted(rest, Forwarded(e.generation, e.line));
      SameAccounts(rest.(log := s.log + [Forwarded(e.generation, e.line)]), OnEvent(s, order));
    } else if e.generation == s.generation {
      SameAccounts(rest, rest.(connection := None));
      FlushAccounted(rest.(connection := None), order);
    }
  }

  lemma StepAccounted(s: State, a: Action)
    requires Enabled(s, a) && Accounted(s) && AllGreeted(s)
    ensures Accounted(Apply(s, a))
  {
    hide OpenedIn, AllGreeted, OnClientLine, OnEvent, BeginsGreeting, WritesOn;
    match a
    case ClientLine(line, dial, writeOk, order) => ClientLineAccounted(s, line, dial, writeOk, order);
    case TakeEvent(order) => EventAccounted(s, order);
    case ReaderLine(g, line) => SameAccounts(s, OnReaderLine(s, g, line));
    case ReaderClosed(g) => SameAccounts(s, OnReaderClosed(s, g));
  }

  lemma InitAccounted()
    ensures Accounted(Init)
  {
    assert Init.log[0] == Opened(1);
    assert Init.log[..0] == [];
    WritesOnAppend([], Opened(1), 0);
    assert [] + [Opened(1)] == Init.log;
    assert Init.conns[0].sent <= Hello(Init.log[..0]);
  }

  lemma {:induction false} AccountedAlways(run: seq<Action>)
    requires Legal(run)
    ensures Accounted(After(run))
    decreases |run|
  {
    hide Accounted, AllGreeted, Enabled, Apply;
    if run == [] {
      InitAccounted();
    } else {
      AccountedAlways(run[..|run| - 1]);
      GreetedAlways(run[..|run| - 1]);
      StepAccounted(After(run[..|run| - 1]), run[|run| - 1]);
    }
  }

  /** A socket whose connection attempt failed carried no more than the beginning of the
      greeting due then and no client line, and none of its lines reached stdout. */
  lemma FailedDialsCarryNoClientLine(run: seq<Action>, g: nat)
    requires Legal(run) && g < |After(run).conns| && !OpenedIn(After(run).log, g)
    ensures var s := After(run);
            && (exists p :: 0 <= p <= |s.log| && s.conns[g].sent <= Hello(s.log[..p]))
            && WritesOn(s.log, g) == []
            && ForwardedOn(s.log, g) == []
  {
    AccountedAlways(run);
    ForwardedByConnection(run);
    hide After, Legal, Hello, WritesOn, ForwardedOn, AllForwarded, QueuedOn, ByConnection, OpenedIn;
    var s := After(run);
    assert Stillborn(s, g);
    assert ForwardedOn(s.log, g) <= s.conns[g].Reported() == [];
  }
}
