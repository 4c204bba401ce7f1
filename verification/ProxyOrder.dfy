/** What crosses the proxy, in which order, and what a new connection starts with. */
module ProxyOrder {
  import opened Wrappers
  import opened McpProxy

  // -------------------------------------------------- each client line settles once

  /** The lines the client sent, in order. */
  function Reads(log: seq<Obs>): seq<Line> {
    if log == [] then []
    else Reads(log[..|log| - 1]) + (if log[|log| - 1].Read? then [log[|log| - 1].line] else [])
  }

  /** The lines written to a connection or refused by a failed reconnect, in order. */
  function Settled(log: seq<Obs>): seq<Line> {
    if log == [] then []
    else
      var o := log[|log| - 1];
      Settled(log[..|log| - 1]) + (if o.Wrote? || o.Refused? then [o.line] else [])
  }

  function Writes(log: seq<Obs>): seq<Line> {
    if log == [] then []
    else Writes(log[..|log| - 1]) + (if log[|log| - 1].Wrote? then [log[|log| - 1].line] else [])
  }

  function Refusals(log: seq<Obs>): seq<Line> {
    if log == [] then []
    else Refusals(log[..|log| - 1]) + (if log[|log| - 1].Refused? then [log[|log| - 1].line] else [])
  }

  /** What the client sends in these actions, in order. */
  function Sent(actions: seq<Action>): seq<Line> {
    if actions == [] then []
    else
      var a := actions[|actions| - 1];
      Sent(actions[..|actions| - 1]) + (if a.ClientLine? then [a.line] else [])
  }

  /** `picks` are increasing positions of `whole` that spell `part`. */
  ghost predicate Spells(whole: seq<Line>, part: seq<Line>, picks: seq<nat>) {
    && |picks| == |part|
    && (forall i :: 0 <= i < |picks| ==> picks[i] < |whole| && whole[picks[i]] == part[i])
    && (forall i, j :: 0 <= i < j < |picks| ==> picks[i] < picks[j])
  }

  lemma SettledAppend(log: seq<Obs>, o: Obs)
    ensures Reads(log + [o]) == Reads(log) + (if o.Read? then [o.line] else [])
    ensures Settled(log + [o]) == Settled(log) + (if o.Wrote? || o.Refused? then [o.line] else [])
  {
    assert (log + [o])[..|log|] == log;
  }

  lemma {:induction false} FailuresSettleNothing(log: seq<Obs>, order: seq<Id>)
    ensures Reads(log + Failures(order)) == Reads(log)
    ensures Settled(log + Failures(order)) == Settled(log)
    decreases order
  {
    SplitFailures(log, order);
    if order != [] {
      SettledAppend(log, Failed(order[0]));
      FailuresSettleNothing(log + [Failed(order[0])], order[1..]);
    }
  }

  lemma SettledClientLine(s: State, a: Action)
    requires Shape(s) && Enabled(s, a) && a.ClientLine? && Reads(s.log) == Settled(s.log)
    ensures Reads(Apply(s, a).log) == Settled(Apply(s, a).log) == Reads(s.log) + [a.line]
  {
    hide Reads, Settled;
    var noted := Noted(s, a.line);
    SettledAppend(s.log, Read(a.line));
    var ready := if noted.connection.None? then Reconnect(noted, a.dial) else noted;
    SettledAppend(noted.log, Opened(s.generation + 1));
    var last := if ready.connection.None? then Refused(a.line) else Wrote(ready.generation, a.line, a.writeOk);
    var final := ready.log + [last];
    SettledAppend(ready.log, last);
    assert Reads(final) == Settled(final);
    FailuresSettleNothing(final, a.order);
    assert Apply(s, a).log == final || Apply(s, a).log == final + Failures(a.order);
  }

  lemma SettledStep(s: State, a: Action)
    requires Shape(s) && Enabled(s, a) && Reads(s.log) == Settled(s.log)
    ensures Reads(Apply(s, a).log) == Settled(Apply(s, a).log) == Reads(s.log) + (if a.ClientLine? then [a.line] else [])
  {
    match a
    case ClientLine(_, _, _, _) => SettledClientLine(s, a);
    case TakeEvent(order) =>
      var e := s.queue[0];
      if e.EventLine? {
        SettledAppend(s.log, Forwarded(e.generation, e.line));
      } else {
        FailuresSettleNothing(s.log, order);
      }
    case _ =>
  }

  /** No replay and no reordering: every client line is, in the order it was read, either
      written once to one connection or refused because its reconnect failed. */
  lemma {:induction false} EveryLineSettlesOnceInOrder(run: seq<Action>)
    requires Legal(run)
    ensures Sent(run) == Reads(After(run).log) == Settled(After(run).log)
    decreases |run|
  {
    if run == [] {
      SettledAppend([], Opened(1));
      assert Init.log == [] + [Opened(1)];
    } else {
      EveryLineSettlesOnceInOrder(run[..|run| - 1]);
      ShapeAlways(run[..|run| - 1]);
      SettledStep(After(run[..|run| - 1]), run[|run| - 1]);
    }
  }

  lemma {:induction false} WritesSpelled(log: seq<Obs>) returns (picks: seq<nat>)
    ensures Spells(Settled(log), Writes(log), picks)
    ensures |Settled(log)| == |Writes(log)| + |Refusals(log)|
    decreases |log|
  {
    picks := [];
    if log != [] {
      picks := WritesSpelled(log[..|log| - 1]);
      if log[|log| - 1].Wrote? {
        picks := picks + [|Settled(log[..|log| - 1])|];
      }
    }
  }

  /** The client lines written over all connections are a subsequence of the client's
      input, and what is missing was refused. */
  lemma WritesAreASubsequence(run: seq<Action>)
    requires Legal(run)
    ensures exists picks :: Spells(Reads(After(run).log), Writes(After(run).log), picks)
    ensures |Reads(After(run).log)| == |Writes(After(run).log)| + |Refusals(After(run).log)|
  {
    EveryLineSettlesOnceInOrder(run);
    var picks := WritesSpelled(After(run).log);
  }

  // ---------------------------------------------------------- generation isolation

  /** An event of an older connection only leaves the channel. */
  lemma OlderEventsChangeNothing(run: seq<Action>, order: seq<Id>)
    requires Legal(run) && Enabled(After(run), TakeEvent(order))
    requires After(run).queue[0].generation != After(run).generation
    ensures After(run).queue[0].generation < After(run).generation
    ensures Apply(After(run), TakeEvent(order)) == After(run).(queue := After(run).queue[1..])
  {
    ShapeAlways(run);
  }

  // ------------------------------------------------------- what the daemon's lines do

  /** Lines of connection `g` that reached stdout, in order. */
  function ForwardedOn(log: seq<Obs>, g: nat): seq<Line> {
    if log == [] then []
    else
      var o := log[|log| - 1];
      ForwardedOn(log[..|log| - 1], g) + (if o.Forwarded? && o.generation == g then [o.line] else [])
  }

  /** All daemon lines that reached stdout, in order. */
  function AllForwarded(log: seq<Obs>): seq<Line> {
    if log == [] then []
    else AllForwarded(log[..|log| - 1]) + (if log[|log| - 1].Forwarded? then [log[|log| - 1].line] else [])
  }

  function QueuedOn(queue: seq<Event>, g: nat): seq<Line> {
    if queue == [] then []
    else (if queue[0].EventLine? && queue[0].generation == g then [queue[0].line] else []) + QueuedOn(queue[1..], g)
  }

  /** Connection by connection, the lines that reached stdout. */
  function ByConnection(log: seq<Obs>, g: nat): seq<Line> {
    if g == 0 then [] else ByConnection(log, g - 1) + ForwardedOn(log, g)
  }

  ghost predicate ForwardedPrefixes(s: State)
    requires WellFormed(s)
  {
    && ForwardedOn(s.log, s.generation) + QueuedOn(s.queue, s.generation) == s.conns[s.generation].Reported()
    && (forall g :: 0 <= g < |s.conns| ==> ForwardedOn(s.log, g) <= s.conns[g].Reported())
    && (forall g :: g > s.generation ==> ForwardedOn(s.log, g) == [])
    && AllForwarded(s.log) == ByConnection(s.log, s.generation)
  }

  lemma ForwardAppend(log: seq<Obs>, o: Obs, g: nat)
    ensures ForwardedOn(log + [o], g) == ForwardedOn(log, g) + (if o.Forwarded? && o.generation == g then [o.line] else [])
    ensures AllForwarded(log + [o]) == AllForwarded(log) + (if o.Forwarded? then [o.line] else [])
  {
    assert (log + [o])[..|log|] == log;
  }

  lemma {:induction false} SameByConnection(log: seq<Obs>, more: seq<Obs>, g: nat)
    requires forall h :: 1 <= h <= g ==> ForwardedOn(log, h) == ForwardedOn(more, h)
    ensures ByConnection(log, g) == ByConnection(more, g)
    decreases g
  {
    if g > 0 { SameByConnection(log, more, g - 1); }
  }

  lemma {:induction false} FailuresForwardNothing(log: seq<Obs>, order: seq<Id>, g: nat)
    ensures ForwardedOn(log + Failures(order), g) == ForwardedOn(log, g)
    ensures AllForwarded(log + Failures(order)) == AllForwarded(log)
    decreases order
  {
    SplitFailures(log, order);
    if order != [] {
      ForwardAppend(log, Failed(order[0]), g);
      FailuresForwardNothing(log + [Failed(order[0])], order[1..], g);
    }
  }

  lemma {:induction false} QueuedAppend(queue: seq<Event>, e: Event, g: nat)
    ensures QueuedOn(queue + [e], g) ==
            QueuedOn(queue, g) + (if e.EventLine? && e.generation == g then [e.line] else [])
    decreases queue
  {
    if queue != [] {
      assert (queue + [e])[1..] == queue[1..] + [e];
      QueuedAppend(queue[1..], e, g);
    }
  }

  lemma {:induction false} QueuedNone(queue: seq<Event>, g: nat)
    requires forall i :: 0 <= i < |queue| ==> queue[i].generation < g
    ensures QueuedOn(queue, g) == []
    decreases queue
  {
    if queue != [] { QueuedNone(queue[1..], g); }
  }

  /** Entries that forward nothing leave the prefixes as they were. */
  lemma SilentEntries(s: State, t: State)
    requires WellFormed(s) && WellFormed(t) && ForwardedPrefixes(s)
    requires t.generation == s.generation && t.queue == s.queue
    requires forall g :: 0 <= g < |s.conns| ==> t.conns[g].Reported() == s.conns[g].Reported()
    requires forall g: nat :: ForwardedOn(t.log, g) == ForwardedOn(s.log, g)
    requires AllForwarded(t.log) == AllForwarded(s.log)
    ensures ForwardedPrefixes(t)
  {
    SameByConnection(s.log, t.log, s.generation);
  }

  lemma AppendPrefixes(s: State, o: Obs)
    requires WellFormed(s) && ForwardedPrefixes(s) && !o.Forwarded?
    ensures ForwardedPrefixes(s.(log := s.log + [o]))
  {
    forall g: nat ensures ForwardedOn(s.log + [o], g) == ForwardedOn(s.log, g) { ForwardAppend(s.log, o, g); }
    ForwardAppend(s.log, o, 0);
    SilentEntries(s, s.(log := s.log + [o]));
  }

  lemma FlushPrefixes(s: State, order: seq<Id>)
    requires WellFormed(s) && ForwardedPrefixes(s)
    ensures ForwardedPrefixes(Flush(s, order))
  {
    forall g: nat ensures ForwardedOn(s.log + Failures(order), g) == ForwardedOn(s.log, g) {
      FailuresForwardNothing(s.log, order, g);
    }
    FailuresForwardNothing(s.log, order, 0);
    SilentEntries(s, Flush(s, order));
  }

  lemma DialedNothing(replay: seq<Line>, dial: Dial)
    requires replay == [] || |replay| == 2
    ensures var conn := Connect(replay, dial).1; conn.skipped == |conn.got|
  {
  }

  lemma DialedPrefixes(s: State, dial: Dial)
    requires WellFormed(s) && s.connection.None? && ForwardedPrefixes(s)
    requires forall i :: 0 <= i < |s.queue| ==> s.queue[i].generation <= s.generation
    ensures WellFormed(Reconnect(s, dial))
    ensures ForwardedPrefixes(Reconnect(s, dial))
  {
    hide ForwardedOn, AllForwarded, QueuedOn, ByConnection, ForwardedPrefixes, Connect;
    var conn, g := Connect(s.handshake.Replay(), dial).1, s.generation + 1;
    DialedNothing(s.handshake.Replay(), dial);
    if Connect(s.handshake.Replay(), dial).0 {
      AppendPrefixes(s, Opened(g));
      NewConnPrefixes(s.(log := s.log + [Opened(g)]), conn, Some(g));
    } else {
      NewConnPrefixes(s, conn, None);
    }
  }

  lemma NewConnPrefixes(s: State, conn: Conn, connection: Option<nat>)
    requires WellFormed(s) && s.connection.None? && ForwardedPrefixes(s)
    requires conn.skipped == |conn.got| && (connection.Some? ==> connection.value == s.generation + 1)
    requires forall i :: 0 <= i < |s.queue| ==> s.queue[i].generation <= s.generation
    ensures var t := s.(generation := s.generation + 1, conns := s.conns + [conn], connection := connection);
            WellFormed(t) && ForwardedPrefixes(t)
  {
    hide ForwardedOn, AllForwarded, QueuedOn;
    QueuedNone(s.queue, s.generation + 1);
    assert ByConnection(s.log, s.generation + 1) == ByConnection(s.log, s.generation) + [];
  }

  lemma WrotePrefixes(s: State, line: Line, ok: bool, order: seq<Id>)
    requires WellFormed(s) && s.connection.Some? && ForwardedPrefixes(s)
    ensures ForwardedPrefixes(Write(s, line, ok, order))
  {
    hide ForwardedOn, AllForwarded, QueuedOn, ByConnection;
    var o := Wrote(s.generation, line, ok);
    AppendPrefixes(s, o);
    var wrote := Write(s, line, true, order).(log := s.log + [o]);
    assert forall g :: 0 <= g < |s.conns| ==> wrote.conns[g].Reported() == s.conns[g].Reported();
    SilentEntries(s.(log := s.log + [o]), wrote);
    if !ok { FlushPrefixes(wrote.(connection := None), order); }
  }

  lemma ClientLinePrefixes(s: State, a: Action)
    requires Shape(s) && Enabled(s, a) && a.ClientLine? && ForwardedPrefixes(s)
    ensures ForwardedPrefixes(Apply(s, a))
  {
    hide ForwardedOn, AllForwarded, QueuedOn, ByConnection;
    AppendPrefixes(s, Read(a.line));
    var noted := Noted(s, a.line);
    SilentEntries(s.(log := noted.log), noted);
    if noted.connection.None? { DialedPrefixes(noted, a.dial); }
    var ready := if noted.connection.None? then Reconnect(noted, a.dial) else noted;
    if ready.connection.None? {
      AppendPrefixes(ready, Refused(a.line));
      FlushPrefixes(ready.(log := ready.log + [Refused(a.line)]), a.order);
    } else {
      WrotePrefixes(ready, a.line, a.writeOk, a.order);
    }
  }

  lemma ReaderPrefixes(s: State, a: Action)
    requires Shape(s) && Enabled(s, a) && (a.ReaderLine? || a.ReaderClosed?) && ForwardedPrefixes(s)
    ensures ForwardedPrefixes(Apply(s, a))
  {
    hide ForwardedOn, AllForwarded, ByConnection, QueuedOn;
    var t := Apply(s, a);
    var e := if a.ReaderLine? then EventLine(a.generation, a.line) else EventClosed(a.generation);
    assert t.queue == s.queue + [e];
    QueuedAppend(s.queue, e, s.generation);
    forall g | 0 <= g < |s.conns|
      ensures t.conns[g].Reported() ==
              s.conns[g].Reported() + (if e.EventLine? && e.generation == g then [e.line] else [])
    {}
  }

  lemma ForwardPrefixes(s: State, e: Event, rest: seq<Event>)
    requires WellFormed(s) && ForwardedPrefixes(s) && e.EventLine? && e.generation == s.generation
    requires QueuedOn(s.queue, s.generation) == [e.line] + QueuedOn(rest, s.generation)
    ensures ForwardedPrefixes(s.(queue := rest, log := s.log + [Forwarded(e.generation, e.line)]))
  {
    hide ForwardedOn, AllForwarded, QueuedOn;
    var o := Forwarded(e.generation, e.line);
    var log := s.log + [o];
    forall g: nat ensures ForwardedOn(log, g) == ForwardedOn(s.log, g) + (if g == e.generation then [e.line] else []) {
      ForwardAppend(s.log, o, g);
    }
    ForwardAppend(s.log, o, 0);
    SameByConnection(s.log, log, s.generation - 1);
    assert ForwardedOn(log, s.generation) + QueuedOn(rest, s.generation)
        == ForwardedOn(s.log, s.generation) + QueuedOn(s.queue, s.generation);
  }

  lemma TakeEventPrefixes(s: State, a: Action)
    requires Shape(s) && Enabled(s, a) && a.TakeEvent? && ForwardedPrefixes(s)
    ensures ForwardedPrefixes(Apply(s, a))
  {
    hide ForwardedOn, AllForwarded;
    var e, rest := s.queue[0], s.queue[1..];
    if e.generation == s.generation && e.EventLine? {
      ForwardPrefixes(s, e, rest);
      var t := s.(queue := rest, log := s.log + [Forwarded(e.generation, e.line)]);
      assert Apply(s, a) == t.(inFlight := Clear(s.inFlight, e.line));
    } else {
      assert QueuedOn(rest, s.generation) == QueuedOn(s.queue, s.generation);
      if e.generation == s.generation { FlushPrefixes(s.(queue := rest, connection := None), a.order); }
    }
  }

  lemma NothingForwardedYet()
    ensures WellFormed(Init)
    ensures ForwardedPrefixes(Init)
  {
    forall g: nat ensures ForwardedOn(Init.log, g) == [] { NoneForwarded(g); }
    NoneForwarded(0);
    assert ByConnection(Init.log, 0) == [];
    hide ForwardedOn, AllForwarded;
    assert ByConnection(Init.log, 1) == [];
  }

  lemma NoneForwarded(g: nat)
    ensures ForwardedOn([Opened(1)], g) == [] && AllForwarded([Opened(1)]) == []
  {
    ForwardAppend([], Opened(1), g);
    assert [] + [Opened(1)] == [Opened(1)];
  }

  lemma PrefixesStep(s: State, a: Action)
    requires Shape(s) && Enabled(s, a) && ForwardedPrefixes(s)
    ensures WellFormed(Apply(s, a))
    ensures ForwardedPrefixes(Apply(s, a))
  {
    ShapeStep(s, a);
    hide ForwardedPrefixes, Shape, Enabled, Apply;
    match a
    case ClientLine(_, _, _, _) => ClientLinePrefixes(s, a);
    case TakeEvent(_) => TakeEventPrefixes(s, a);
    case _ => ReaderPrefixes(s, a);
  }

  /** What reaches stdout from the daemon is, connection by connection in the order they
      were opened, a prefix of what that connection's reader reported. */
  lemma {:induction false} ForwardedByConnection(run: seq<Action>)
    requires Legal(run)
    ensures WellFormed(After(run))
    ensures ForwardedPrefixes(After(run))
    decreases |run|
  {
    hide WellFormed, ForwardedPrefixes, Enabled, Apply, Shape;
    if run == [] {
      NothingForwardedYet();
    } else {
      var front, a := run[..|run| - 1], run[|run| - 1];
      ForwardedByConnection(front);
      ShapeAlways(front);
      PrefixesStep(After(front), a);
    }
  }
}
