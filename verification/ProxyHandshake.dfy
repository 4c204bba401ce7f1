/** How every connection after the first one starts. */
module ProxyHandshake {
  import opened Wrappers
  import opened McpProxy
  import opened ProxyOrder

  /** The last `initialize` request the client sent. */
  function LatestInitialize(log: seq<Obs>): Option<Line> {
    if log == [] then None
    else
      var o := log[|log| - 1];
      if o.Read? && o.line.verb == Named("initialize") && o.line.id.Some? then Some(o.line)
      else LatestInitialize(log[..|log| - 1])
  }

  /** The last `notifications/initialized` the client sent. */
  function LatestInitialized(log: seq<Obs>): Option<Line> {
    if log == [] then None
    else
      var o := log[|log| - 1];
      if o.Read? && o.line.verb == Named("notifications/initialized") then Some(o.line)
      else LatestInitialized(log[..|log| - 1])
  }

  /** What a connection opened after `log` must be greeted with. */
  function Hello(log: seq<Obs>): seq<Line> {
    if LatestInitialize(log).Some? && LatestInitialized(log).Some?
    then [LatestInitialize(log).value.EnsureNewline(), LatestInitialized(log).value.EnsureNewline()]
    else []
  }

  /** Client lines written to connection `g`, in order. */
  function WritesOn(log: seq<Obs>, g: nat): seq<Line> {
    if log == [] then []
    else
      var o := log[|log| - 1];
      WritesOn(log[..|log| - 1], g) + (if o.Wrote? && o.generation == g then [o.line] else [])
  }

  ghost predicate Remembers(s: State) {
    && s.handshake.initialize == (if LatestInitialize(s.log).Some? then Some(LatestInitialize(s.log).value.EnsureNewline()) else None)
    && s.handshake.initialized == (if LatestInitialized(s.log).Some? then Some(LatestInitialized(s.log).value.EnsureNewline()) else None)
  }

  /** Connection `g`, opened when the log was `before`, was greeted, had its greeting
      accepted, and since then received exactly the client lines written to it. */
  ghost predicate Greeted(s: State, before: seq<Obs>, g: nat)
    requires WellFormed(s)
  {
    && g < |s.conns|
    && s.conns[g].sent == Hello(before) + WritesOn(s.log, g)
    && s.conns[g].skipped == (if Hello(before) == [] then 0 else 1)
    && (Hello(before) != [] ==> AcceptsInitialize(Hello(before)[0], s.conns[g].got[0]))
  }

  ghost predicate AllGreeted(s: State)
    requires WellFormed(s)
  {
    && Remembers(s)
    && (forall p :: 0 <= p < |s.log| && s.log[p].Opened? ==> Greeted(s, s.log[..p], s.log[p].generation))
    && (forall p :: 0 <= p < |s.log| && s.log[p].Wrote? ==> s.log[p].generation <= s.generation)
  }

  lemma HandshakeAppend(log: seq<Obs>, o: Obs)
    ensures LatestInitialize(log + [o]) == (if o.Read? && o.line.IsInitialize() then Some(o.line) else LatestInitialize(log))
    ensures LatestInitialized(log + [o]) == (if o.Read? && o.line.IsInitialized() then Some(o.line) else LatestInitialized(log))
  {
    assert (log + [o])[..|log|] == log;
  }

  lemma WritesOnAppend(log: seq<Obs>, o: Obs, g: nat)
    ensures WritesOn(log + [o], g) == WritesOn(log, g) + (if o.Wrote? && o.generation == g then [o.line] else [])
  {
    assert (log + [o])[..|log|] == log;
  }

  lemma {:induction false} NothingWritten(log: seq<Obs>, g: nat)
    requires forall p :: 0 <= p < |log| && log[p].Wrote? ==> log[p].generation < g
    ensures WritesOn(log, g) == []
    decreases |log|
  {
    if log != [] { NothingWritten(log[..|log| - 1], g); }
  }

  /** Entries that neither open nor write keep every greeting. */
  lemma QuietEntry(s: State, o: Obs)
    requires WellFormed(s) && AllGreeted(s) && !o.Opened? && !o.Wrote? && !o.Read?
    ensures AllGreeted(s.(log := s.log + [o]))
  {
    hide LatestInitialize, LatestInitialized, WritesOn, Hello;
    var t := s.(log := s.log + [o]);
    HandshakeAppend(s.log, o);
    forall p | 0 <= p < |t.log| && t.log[p].Opened? ensures Greeted(t, t.log[..p], t.log[p].generation) {
      assert t.log[p] == s.log[p] && t.log[..p] == s.log[..p];
      WritesOnAppend(s.log, o, t.log[p].generation);
    }
  }

  lemma {:induction false} FlushGreeted(s: State, order: seq<Id>)
    requires WellFormed(s) && AllGreeted(s)
    ensures AllGreeted(Flush(s, order))
    decreases order
  {
    hide LatestInitialize, LatestInitialized, WritesOn, Hello;
    SplitFailures(s.log, order);
    if order == [] {
      assert Flush(s, order) == s.(inFlight := {});
    } else {
      QuietEntry(s, Failed(order[0]));
      FlushGreeted(s.(log := s.log + [Failed(order[0])]), order[1..]);
    }
  }

  lemma NotedGreeted(s: State, line: Line)
    requires WellFormed(s) && AllGreeted(s)
    ensures WellFormed(Noted(s, line))
    ensures AllGreeted(Noted(s, line))
  {
    hide LatestInitialize, LatestInitialized, WritesOn, Hello;
    var t := Noted(s, line);
    HandshakeAppend(s.log, Read(line));
    forall p | 0 <= p < |t.log| && t.log[p].Opened? ensures Greeted(t, t.log[..p], t.log[p].generation) {
      assert t.log[p] == s.log[p] && t.log[..p] == s.log[..p];
      WritesOnAppend(s.log, Read(line), t.log[p].generation);
    }
  }

  lemma ReplayIsHello(s: State)
    requires Remembers(s)
    ensures s.handshake.Replay() == Hello(s.log)
  {
  }

  lemma ConnectGreets(replay: seq<Line>, dial: Dial)
    requires replay == [] || |replay| == 2
    ensures var (ok, conn) := Connect(replay, dial);
            && conn.skipped <= |conn.got|
            && (ok ==> conn.sent == replay && conn.skipped == (if replay == [] then 0 else 1))
            && (ok && replay != [] ==> AcceptsInitialize(replay[0], conn.got[0]))
  {
  }

  lemma UnopenedGreeted(s: State, conn: Conn)
    requires WellFormed(s) && s.connection.None? && AllGreeted(s) && conn.skipped <= |conn.got|
    ensures AllGreeted(s.(generation := s.generation + 1, conns := s.conns + [conn]))
  {
    hide LatestInitialize, LatestInitialized, WritesOn, Hello;
  }

  lemma OpenedGreeted(s: State, conn: Conn)
    requires WellFormed(s) && s.connection.None? && AllGreeted(s) && conn.skipped <= |conn.got|
    requires conn.sent == Hello(s.log) && conn.skipped == (if Hello(s.log) == [] then 0 else 1)
    requires Hello(s.log) != [] ==> AcceptsInitialize(Hello(s.log)[0], conn.got[0])
    ensures AllGreeted(s.(generation := s.generation + 1, conns := s.conns + [conn], connection := Some(s.generation + 1),
                          log := s.log + [Opened(s.generation + 1)]))
  {
    hide LatestInitialize, LatestInitialized, WritesOn, Hello, AcceptsInitialize, Line.EnsureNewline;
    var g := s.generation + 1;
    var t := s.(generation := g, conns := s.conns + [conn], connection := Some(g), log := s.log + [Opened(g)]);
    HandshakeAppend(s.log, Opened(g));
    NothingWritten(s.log, g);
    WritesOnAppend(s.log, Opened(g), g);
    assert t.log[..|s.log|] == s.log;
    forall p | 0 <= p < |s.log| && s.log[p].Opened?
      ensures t.log[p] == s.log[p] && Greeted(t, t.log[..p], t.log[p].generation)
    {
      assert t.log[..p] == s.log[..p];
      WritesOnAppend(s.log, Opened(g), t.log[p].generation);
    }
  }

  lemma ReconnectGreeted(s: State, dial: Dial)
    requires WellFormed(s) && s.connection.None? && AllGreeted(s)
    ensures AllGreeted(Reconnect(s, dial))
  {
    hide LatestInitialize, LatestInitialized, WritesOn, Hello, Connect;
    var (ok, conn) := Connect(s.handshake.Replay(), dial);
    ReplayIsHello(s);
    ConnectGreets(s.handshake.Replay(), dial);
    if ok { OpenedGreeted(s, conn); } else { UnopenedGreeted(s, conn); }
  }

  lemma WriteGreeted(s: State, line: Line, ok: bool, order: seq<Id>)
    requires WellFormed(s) && s.connection.Some? && AllGreeted(s)
    ensures AllGreeted(Write(s, line, ok, order))
  {
    hide LatestInitialize, LatestInitialized, WritesOn, Hello;
    var g := s.generation;
    var o := Wrote(g, line, ok);
    var wrote := Write(s, line, true, order).(log := s.log + [o]);
    HandshakeAppend(s.log, o);
    forall p | 0 <= p < |wrote.log| && wrote.log[p].Opened? ensures Greeted(wrote, wrote.log[..p], wrote.log[p].generation) {
      assert wrote.log[p] == s.log[p] && wrote.log[..p] == s.log[..p];
      WritesOnAppend(s.log, o, wrote.log[p].generation);
    }
    if !ok { FlushGreeted(wrote.(connection := None), order); }
  }

  lemma GreetedClientLine(s: State, line: Line, dial: Dial, writeOk: bool, order: seq<Id>)
    requires WellFormed(s) && AllGreeted(s)
    ensures WellFormed(OnClientLine(s, line, dial, writeOk, order))
    ensures AllGreeted(OnClientLine(s, line, dial, writeOk, order))
  {
    hide AllGreeted;
    NotedGreeted(s, line);
    var noted := Noted(s, line);
    if noted.connection.None? { ReconnectGreeted(noted, dial); }
    var ready := if noted.connection.None? then Reconnect(noted, dial) else noted;
    if ready.connection.None? {
      QuietEntry(ready, Refused(line));
      FlushGreeted(ready.(log := ready.log + [Refused(line)]), order);
    } else {
      WriteGreeted(ready, line, writeOk, order);
    }
  }

  lemma GreetedEvent(s: State, order: seq<Id>)
    requires WellFormed(s) && s.queue != [] && AllGreeted(s)
    ensures WellFormed(OnEvent(s, order))
    ensures AllGreeted(OnEvent(s, order))
  {
    hide LatestInitialize, LatestInitialized, WritesOn, Hello;
    var e := s.queue[0];
    if e.generation == s.generation && e.EventLine? {
      QuietEntry(s, Forwarded(e.generation, e.line));
    } else if e.generation == s.generation {
      FlushGreeted(s.(queue := s.queue[1..], connection := None), order);
    }
  }

  lemma GreetedReaderLine(s: State, g: nat, line: Line)
    requires WellFormed(s) && g < |s.conns| && AllGreeted(s)
    ensures WellFormed(OnReaderLine(s, g, line))
    ensures AllGreeted(OnReaderLine(s, g, line))
  {
    hide LatestInitialize, LatestInitialized, WritesOn, Hello;
    var t := OnReaderLine(s, g, line);
    assert forall h :: 0 <= h < |s.conns| && s.conns[h].skipped == 1 ==> t.conns[h].got[0] == s.conns[h].got[0];
  }

  lemma GreetedReaderClosed(s: State, g: nat)
    requires WellFormed(s) && g < |s.conns| && AllGreeted(s)
    ensures WellFormed(OnReaderClosed(s, g))
    ensures AllGreeted(OnReaderClosed(s, g))
  {
    hide LatestInitialize, LatestInitialized, WritesOn, Hello;
  }

  lemma GreetedStep(s: State, a: Action)
    requires Enabled(s, a) && AllGreeted(s)
    ensures WellFormed(Apply(s, a))
    ensures AllGreeted(Apply(s, a))
  {
    hide AllGreeted, WellFormed, OnClientLine, OnEvent, OnReaderLine, OnReaderClosed;
    match a
    case ClientLine(line, dial, writeOk, order) => GreetedClientLine(s, line, dial, writeOk, order);
    case TakeEvent(order) => GreetedEvent(s, order);
    case ReaderLine(g, line) => GreetedReaderLine(s, g, line);
    case ReaderClosed(g) => GreetedReaderClosed(s, g);
  }

  lemma NothingGreetedYet()
    ensures WellFormed(Init)
    ensures AllGreeted(Init)
  {
    assert Init.log[..0] == [];
    WritesOnAppend([], Opened(1), 1);
    HandshakeAppend([], Opened(1));
    assert [] + [Opened(1)] == Init.log;
  }

  lemma {:induction false} GreetedAlways(run: seq<Action>)
    requires Legal(run)
    ensures WellFormed(After(run))
    ensures AllGreeted(After(run))
    decreases |run|
  {
    hide AllGreeted, WellFormed, Enabled, Apply;
    if run == [] {
      NothingGreetedYet();
    } else {
      GreetedAlways(run[..|run| - 1]);
      GreetedStep(After(run[..|run| - 1]), run[|run| - 1]);
    }
  }

  /** Once the client has sent both handshake messages, every later connection starts with
      the latest `initialize` then the latest `initialized`, and otherwise with nothing;
      then come exactly the client lines written to it.  The reply to the replayed
      `initialize` is a success and is not among the lines forwarded to stdout. */
  lemma ConnectionsStartWithHandshake(run: seq<Action>, p: nat)
    requires Legal(run) && p < |After(run).log| && After(run).log[p].Opened?
    ensures var s := After(run);
            var g := s.log[p].generation;
            && g < |s.conns|
            && s.conns[g].sent == Hello(s.log[..p]) + WritesOn(s.log, g)
            && (Hello(s.log[..p]) == [] ==> ForwardedOn(s.log, g) <= s.conns[g].got)
            && (Hello(s.log[..p]) != [] ==>
                  && s.conns[g].got != []
                  && AcceptsInitialize(Hello(s.log[..p])[0], s.conns[g].got[0])
                  && ForwardedOn(s.log, g) <= s.conns[g].got[1..])
  {
    hide LatestInitialize, LatestInitialized, WritesOn, Hello, ForwardedOn, AllForwarded, QueuedOn, ByConnection, After, Legal;
    ShapeAlways(run);
    GreetedAlways(run);
    ForwardedByConnection(run);
    assert Greeted(After(run), After(run).log[..p], After(run).log[p].generation);
  }
}
