/** The loop of `run_proxy_io`, updating its state in place, as a refinement of `McpProxy`. */
module ProxyLoop {
  import opened Wrappers
  import opened McpProxy
  import opened ProxyOrder

  lemma {:induction false} FailuresSnoc(order: seq<Id>, id: Id)
    ensures Failures(order + [id]) == Failures(order) + [Failed(id)]
    decreases order
  {
    if order == [] {
      assert Failures([id]) == [Failed(id)] + Failures([]);
    } else {
      assert (order + [id])[1..] == order[1..] + [id];
      FailuresSnoc(order[1..], id);
    }
  }

  /** The environment can do what is asked: the client can always send a line, a reader
      task acts while it reads, and an event is received when there is one. */
  predicate Possible(s: State, a: Action) {
    match a
    case ClientLine(_, _, _, _) => true
    case ReaderLine(g, _) => g < |s.conns| && s.conns[g].reading
    case ReaderClosed(g) => g < |s.conns| && s.conns[g].reading
    case TakeEvent(_) => s.queue != []
  }

  /** The same action, but for the order in which a drained table answers its ids. */
  predicate SameAction(asked: Action, done: Action) {
    match asked
    case ClientLine(line, dial, writeOk, _) =>
      done.ClientLine? && done.line == line && done.dial == dial && done.writeOk == writeOk
    case TakeEvent(_) => done.TakeEvent?
    case _ => done == asked
  }

  /** `run` does what the schedule asks for, in order, and skips only what is not possible. */
  ghost predicate Follows(schedule: seq<Action>, run: seq<Action>)
    requires Legal(run)
    decreases schedule
  {
    if schedule == [] then run == []
    else
      var asked, before := schedule[|schedule| - 1], schedule[..|schedule| - 1];
      || (run != [] && SameAction(asked, run[|run| - 1]) && Follows(before, run[..|run| - 1])
          && Possible(After(run[..|run| - 1]), asked))
      || (Follows(before, run) && !Possible(After(run), asked))
  }

  lemma FollowsNothing()
    ensures Legal([]) && After([]) == Init && Follows([], [])
  {
  }

  lemma FollowsNext(schedule: seq<Action>, i: nat, run: seq<Action>, taken: Option<Action>)
    requires i < |schedule| && Legal(run) && Follows(schedule[..i], run)
    requires taken.Some? ==> Enabled(After(run), taken.value) && SameAction(schedule[i], taken.value)
    requires taken.Some? <==> Possible(After(run), schedule[i])
    ensures var more := if taken.Some? then run + [taken.value] else run;
            Legal(more) && Follows(schedule[..i + 1], more)
    ensures taken.Some? ==> After(run + [taken.value]) == Apply(After(run), taken.value)
  {
    assert schedule[..i + 1][..i] == schedule[..i];
    if taken.Some? {
      assert (run + [taken.value])[..|run|] == run;
    }
  }

  /** Following a schedule loses none of the client's lines and keeps their order. */
  lemma {:induction false} FollowingSendsAll(schedule: seq<Action>, run: seq<Action>)
    requires Legal(run) && Follows(schedule, run)
    ensures Sent(run) == Sent(schedule)
    decreases schedule
  {
    hide After, Enabled;
    if schedule == [] { return; }
    var asked, before := schedule[|schedule| - 1], schedule[..|schedule| - 1];
    if run != [] && SameAction(asked, run[|run| - 1]) && Follows(before, run[..|run| - 1]) && Possible(After(run[..|run| - 1]), asked) {
      FollowingSendsAll(before, run[..|run| - 1]);
    } else {
      FollowingSendsAll(before, run);
    }
  }

  class Proxy {
    // What the loop keeps between two iterations.
    var connection: Option<nat>
    var generation: nat
    var handshake: Handshake
    var inFlight: set<Id>
    // The event channel, the sockets and the client's side, as the loop sees them.
    var queue: seq<Event>
    var conns: seq<Conn>
    var log: seq<Obs>

    ghost function Abs(): State
      reads this
    {
      State(connection, generation, handshake, inFlight, queue, conns, log)
    }

    constructor ()
      ensures Abs() == Init
    {
      generation := 1;
      connection := Some(1);
      handshake := Handshake(None, None);
      inFlight := {};
      queue := [];
      conns := [Conn([], [], 0, false), Conn([], [], 0, true)];
      log := [Opened(1)];
    }

    method TrackRequest(line: Line)
      modifies this`inFlight
      ensures inFlight == old(inFlight) + (if line.verb != NoVerb && line.id.Some? then {line.id.value} else {})
    {
      if line.verb == NoVerb { return; }
      if line.id.None? { return; }
      inFlight := inFlight + {line.id.value};
    }

    method ClearResponse(line: Line)
      modifies this`inFlight
      ensures inFlight ==
              old(inFlight) - (if (line.hasResult || line.hasError) && line.id.Some? then {line.id.value} else {})
    {
      if !line.hasResult && !line.hasError { return; }
      if line.id.None? { return; }
      inFlight := inFlight - {line.id.value};
    }

    /** Drains the table into error answers; `order` is the order the drain took. */
    method FlushPendingErrors() returns (order: seq<Id>)
      modifies this`inFlight, this`log
      ensures Lists(order, old(inFlight))
      ensures Abs() == Flush(old(Abs()), order)
    {
      var pending := inFlight;
      inFlight := {};
      order := [];
      while pending != {}
        invariant pending <= old(inFlight) && inFlight == {}
        invariant Lists(order, old(inFlight) - pending)
        invariant log == old(log) + Failures(order)
        decreases pending
      {
        var id :| id in pending;
        FailuresSnoc(order, id);
        pending := pending - {id};
        order := order + [id];
        log := log + [Failed(id)];
      }
    }

    /** `connect` for the current generation: what crosses the new socket until its reader
        task takes over. */
    method ConnectSocket(dial: Dial) returns (ok: bool)
      requires |conns| == generation
      modifies this`conns
      ensures ok <==> LetsIn(dial, handshake.initialize, handshake.initialized)
      ensures ok == Connect(handshake.Replay(), dial).0
      ensures conns == old(conns) + [Connect(handshake.Replay(), dial).1]
    {
      var sent, got, skipped := [], [], 0;
      ok := false;
      if dial.Stream? {
        var replay := handshake.Replay();
        if replay != [] {
          if dial.initializeSent {
            sent := [replay[0]];
            if dial.reply.Some? {
              got, skipped := [dial.reply.value], 1;
              if AcceptsInitialize(replay[0], dial.reply.value) && dial.initializedSent {
                sent := sent + [replay[1]];
                assert sent == replay;
                ok := true;
              }
            }
          }
        } else {
          ok := true;
        }
      }
      assert Conn(sent, got, skipped, ok) == Connect(handshake.Replay(), dial).1;
      conns := conns + [Conn(sent, got, skipped, ok)];
    }

    /** Opens the next generation, if the daemon lets it. */
    method Redial(dial: Dial)
      requires WellFormed(Abs()) && connection.None?
      modifies this`generation, this`conns, this`connection, this`log
      ensures WellFormed(Abs()) && Abs() == Reconnect(old(Abs()), dial)
    {
      generation := generation + 1;
      var ok := ConnectSocket(dial);
      if ok {
        connection := Some(generation);
        log := log + [Opened(generation)];
      }
    }

    /** The branch of the loop that read one line from the client. */
    method HandleClientLine(line: Line, dial: Dial, writeOk: bool) returns (order: seq<Id>)
      requires WellFormed(Abs())
      modifies this
      ensures Lists(order, Track(old(inFlight), line))
      ensures Abs() == OnClientLine(old(Abs()), line, dial, writeOk, order)
    {
      hide Failures, Reconnect, Write, Flush, Lists, Line.EnsureNewline;
      log := log + [Read(line)];
      handshake := handshake.Observe(line);
      TrackRequest(line);
      assert inFlight == Track(old(inFlight), line);
      if connection.None? {
        Redial(dial);
        if connection.None? {
          log := log + [Refused(line)];
          order := FlushPendingErrors();
          return;
        }
      }
      order := WriteLine(line, writeOk);
    }

    /** Writes to the live connection; a failed write drops it and fails what is pending. */
    method WriteLine(line: Line, writeOk: bool) returns (order: seq<Id>)
      requires WellFormed(Abs()) && connection.Some?
      modifies this
      ensures Lists(order, old(inFlight))
      ensures Abs() == Write(old(Abs()), line, writeOk, order)
    {
      var g := connection.value;
      conns := conns[g := conns[g].(sent := conns[g].sent + [line])];
      log := log + [Wrote(g, line, writeOk)];
      if !writeOk {
        connection := None;
        order := FlushPendingErrors();
      } else {
        order := Listing(inFlight);
      }
    }

    /** Some order of the ids; only to name one when nothing is drained. */
    static method Listing(ids: set<Id>) returns (order: seq<Id>)
      ensures Lists(order, ids)
    {
      order := [];
      var rest := ids;
      while rest != {}
        invariant rest <= ids && Lists(order, ids - rest)
        decreases rest
      {
        var id :| id in rest;
        rest := rest - {id};
        order := order + [id];
      }
    }

    /** The branch of the loop that received one event. */
    method HandleEvent() returns (order: seq<Id>)
      requires queue != []
      modifies this
      ensures Lists(order, old(inFlight))
      ensures Abs() == OnEvent(old(Abs()), order)
    {
      var event := queue[0];
      order := Listing(inFlight);
      queue := queue[1..];
      match event
      case EventLine(g, line) =>
        if g == generation {
          ClearResponse(line);
          log := log + [Forwarded(g, line)];
        }
      case EventClosed(g) =>
        if g == generation {
          connection := None;
          order := FlushPendingErrors();
        }
    }

    /** One turn of `read_socket`: report a line, or report the end and stop. */
    method ReaderTurn(g: nat, line: Option<Line>)
      requires g < |conns| && conns[g].reading
      modifies this`conns, this`queue
      ensures line.Some? ==> Abs() == OnReaderLine(old(Abs()), g, line.value)
      ensures line.None? ==> Abs() == OnReaderClosed(old(Abs()), g)
    {
      match line
      case Some(text) =>
        conns := conns[g := conns[g].(got := conns[g].got + [text])];
        queue := queue + [EventLine(g, text)];
      case None =>
        conns := conns[g := conns[g].(reading := false)];
        queue := queue + [EventClosed(g)];
    }

    /** The whole loop against any schedule of client lines, reader turns and received
        events: what it does is a run of the transition system. */
    method RunProxyIo(schedule: seq<Action>) returns (run: seq<Action>)
      requires Abs() == Init
      modifies this
      ensures Legal(run) && Abs() == After(run)
      ensures Follows(schedule, run) && Reads(log) == Settled(log) == Sent(schedule)
    {
      hide OnClientLine, OnEvent, OnReaderLine, OnReaderClosed, After, Legal, Follows, Lists, Reads, Settled, Sent;
      FollowsNothing();
      run := [];
      for i := 0 to |schedule|
        invariant Legal(run) && Abs() == After(run)
        invariant Follows(schedule[..i], run)
      {
        ShapeAlways(run);
        var taken: Option<Action> := None;
        match schedule[i] {
          case ClientLine(line, dial, writeOk, _) =>
            var order := HandleClientLine(line, dial, writeOk);
            taken := Some(ClientLine(line, dial, writeOk, order));
          case ReaderLine(g, line) =>
            if g < |conns| && conns[g].reading {
              ReaderTurn(g, Some(line));
              taken := Some(schedule[i]);
            }
          case ReaderClosed(g) =>
            if g < |conns| && conns[g].reading {
              ReaderTurn(g, None);
              taken := Some(schedule[i]);
            }
          case TakeEvent(_) =>
            if queue != [] {
              var order := HandleEvent();
              taken := Some(TakeEvent(order));
            }
        }
        FollowsNext(schedule, i, run, taken);
        run := if taken.Some? then run + [taken.value] else run;
      }
      assert schedule[..|schedule|] == schedule;
      FollowingSendsAll(schedule, run);
      EveryLineSettlesOnceInOrder(run);
    }
  }
}
