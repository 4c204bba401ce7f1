/**
 The stdio proxy of `mdkb mcp` as a transition system.

 A state holds what the loop of `run_proxy_io` keeps between two iterations
 (connection, generation, handshake, in-flight ids), the event channel its reader
 tasks feed, every socket opened so far, and a chronological log of what was read,
 written, forwarded and failed.  An action is either one iteration of the loop or
 one step of a reader task; a run is any sequence of enabled actions.
 */
module McpProxy {
  import opened Wrappers

  /** The JSON text of a request id: the key of the in-flight table. */
  type Id = string

  predicate EndsLine(text: string) { |text| != 0 && text[|text| - 1] == '\n' }

  datatype Verb = NoVerb | Named(name: string) | NotAString

  /** One newline-delimited message, already classified.  A line that is not JSON has
      neither method, id, result nor error; a `null` id counts as no id. */
  datatype Line = Line(text: string, verb: Verb, id: Option<Id>, hasResult: bool, hasError: bool) {
    predicate IsRequest() { verb != NoVerb && id.Some? }

    predicate IsResponse() { (hasResult || hasError) && id.Some? }

    predicate IsInitialize() { verb == Named("initialize") && id.Some? }

    predicate IsInitialized() { verb == Named("notifications/initialized") }

    function EnsureNewline(): (r: Line)
      ensures r.text == text || (r.text == text + "\n" && !EndsLine(text))
      ensures EndsLine(r.text)
      ensures r.verb == verb && r.id == id && r.hasResult == hasResult && r.hasError == hasError
    {
      if EndsLine(text) then this else this.(text := text + "\n")
    }
  }

  datatype Handshake = Handshake(initialize: Option<Line>, initialized: Option<Line>) {
    function Observe(line: Line): Handshake {
      if line.IsInitialize() then this.(initialize := Some(line.EnsureNewline()))
      else if line.IsInitialized() then this.(initialized := Some(line.EnsureNewline()))
      else this
    }

    /** What `connect` replays: both messages, or nothing. */
    function Replay(): seq<Line> {
      if initialize.Some? && initialized.Some? then [initialize.value, initialized.value] else []
    }
  }

  /** `is_successful_initialize_response`. */
  predicate AcceptsInitialize(request: Line, response: Line) {
    response.id == request.id && response.hasResult && !response.hasError
  }

  datatype Event = EventLine(generation: nat, line: Line) | EventClosed(generation: nat)

  /** One socket: lines sent on it, lines read from it, how many of those `connect`
      itself consumed, and whether a reader task may still report events. */
  datatype Conn = Conn(sent: seq<Line>, got: seq<Line>, skipped: nat, reading: bool) {
    /** What the reader task has reported. */
    function Reported(): seq<Line>
      requires skipped <= |got|
    {
      got[skipped..]
    }
  }

  /** What the environment does with a connection attempt. */
  datatype Dial = NoStream | Stream(initializeSent: bool, reply: Option<Line>, initializedSent: bool)

  /** The daemon lets the proxy in: a socket, and on it the whole handshake, unless one of
      the two messages has never been seen and there is nothing to replay. */
  predicate LetsIn(dial: Dial, initialize: Option<Line>, initialized: Option<Line>) {
    && dial.Stream?
    && (initialize.Some? && initialized.Some? ==>
          && dial.initializeSent
          && dial.reply.Some?
          && dial.reply.value.id == initialize.value.id && dial.reply.value.hasResult && !dial.reply.value.hasError
          && dial.initializedSent)
  }

  datatype Obs =
    | Opened(generation: nat)
    | Read(line: Line)
    | Refused(line: Line)
    | Wrote(generation: nat, line: Line, complete: bool)
    | Forwarded(generation: nat, line: Line)
    | Failed(id: Id)

  datatype State = State(
    connection: Option<nat>,
    generation: nat,
    handshake: Handshake,
    inFlight: set<Id>,
    queue: seq<Event>,
    conns: seq<Conn>,
    log: seq<Obs>)

  datatype Action =
    | ClientLine(line: Line, dial: Dial, writeOk: bool, order: seq<Id>)
    | ReaderLine(generation: nat, line: Line)
    | ReaderClosed(generation: nat)
    | TakeEvent(order: seq<Id>)

  // ---------------------------------------------------------------- transitions

  function Track(inFlight: set<Id>, line: Line): set<Id> {
    if line.IsRequest() then inFlight + {line.id.value} else inFlight
  }

  function Clear(inFlight: set<Id>, line: Line): set<Id> {
    if line.IsResponse() then inFlight - {line.id.value} else inFlight
  }

  /** `order` is one of the orders in which draining the table can yield its ids. */
  predicate Lists(order: seq<Id>, ids: set<Id>) {
    && (forall i, j :: 0 <= i < j < |order| ==> order[i] != order[j])
    && (forall id | id in order :: id in ids)
    && (forall id | id in ids :: id in order)
  }

  function Failures(order: seq<Id>): seq<Obs> {
    if order == [] then [] else [Failed(order[0])] + Failures(order[1..])
  }

  lemma SplitFailures(log: seq<Obs>, order: seq<Id>)
    ensures order == [] ==> log + Failures(order) == log
    ensures order != [] ==> log + Failures(order) == (log + [Failed(order[0])]) + Failures(order[1..])
  {
  }

  function Flush(s: State, order: seq<Id>): State {
    s.(inFlight := {}, log := s.log + Failures(order))
  }

  /** `connect`: whether it succeeds, and the socket it leaves behind. */
  function Connect(replay: seq<Line>, dial: Dial): (bool, Conn)
    requires replay == [] || |replay| == 2
  {
    if dial.NoStream? then
      (false, Conn([], [], 0, false))
    else if replay == [] then
      (true, Conn([], [], 0, true))
    else if !dial.initializeSent then
      (false, Conn([], [], 0, false))
    else if dial.reply.None? then
      (false, Conn([replay[0]], [], 0, false))
    else if !AcceptsInitialize(replay[0], dial.reply.value) || !dial.initializedSent then
      (false, Conn([replay[0]], [dial.reply.value], 1, false))
    else
      (true, Conn(replay, [dial.reply.value], 1, true))
  }

  function Reconnect(s: State, dial: Dial): State {
    var (ok, conn) := Connect(s.handshake.Replay(), dial);
    var g := s.generation + 1;
    var dialed := s.(generation := g, conns := s.conns + [conn]);
    if ok then dialed.(connection := Some(g), log := s.log + [Opened(g)]) else dialed
  }

  predicate WellFormed(s: State) {
    && 1 <= s.generation
    && |s.conns| == s.generation + 1
    && (s.connection.Some? ==> s.connection.value == s.generation)
    && (forall g :: 0 <= g < |s.conns| ==> s.conns[g].skipped <= |s.conns[g].got|)
  }

  function Write(s: State, line: Line, ok: bool, order: seq<Id>): State
    requires WellFormed(s) && s.connection.Some?
  {
    var g := s.connection.value;
    var wrote := s.(conns := s.conns[g := s.conns[g].(sent := s.conns[g].sent + [line])],
                    log := s.log + [Wrote(g, line, ok)]);
    if ok then wrote else Flush(wrote.(connection := None), order)
  }

  /** What every iteration that read a line does first: observe it and track its id. */
  function Noted(s: State, line: Line): State {
    s.(handshake := s.handshake.Observe(line), inFlight := Track(s.inFlight, line), log := s.log + [Read(line)])
  }

  function OnClientLine(s: State, line: Line, dial: Dial, writeOk: bool, order: seq<Id>): State
    requires WellFormed(s)
  {
    var noted := Noted(s, line);
    var ready := if noted.connection.None? then Reconnect(noted, dial) else noted;
    if ready.connection.None?
    then Flush(ready.(log := ready.log + [Refused(line)]), order)
    else Write(ready, line, writeOk, order)
  }

  function OnEvent(s: State, order: seq<Id>): State
    requires s.queue != []
  {
    var event, rest := s.queue[0], s.(queue := s.queue[1..]);
    if event.generation != s.generation then
      rest
    else match event
      case EventLine(g, line) =>
        rest.(inFlight := Clear(s.inFlight, line), log := s.log + [Forwarded(g, line)])
      case EventClosed(_) =>
        Flush(rest.(connection := None), order)
  }

  function OnReaderLine(s: State, g: nat, line: Line): State
    requires g < |s.conns|
  {
    s.(conns := s.conns[g := s.conns[g].(got := s.conns[g].got + [line])],
       queue := s.queue + [EventLine(g, line)])
  }

  function OnReaderClosed(s: State, g: nat): State
    requires g < |s.conns|
  {
    s.(conns := s.conns[g := s.conns[g].(reading := false)], queue := s.queue + [EventClosed(g)])
  }

  predicate Enabled(s: State, a: Action) {
    && WellFormed(s)
    && match a
       case ClientLine(line, _, _, order) => Lists(order, Track(s.inFlight, line))
       case ReaderLine(g, _) => g < |s.conns| && s.conns[g].reading
       case ReaderClosed(g) => g < |s.conns| && s.conns[g].reading
       case TakeEvent(order) => s.queue != [] && Lists(order, s.inFlight)
  }

  function Apply(s: State, a: Action): State
    requires Enabled(s, a)
  {
    match a
    case ClientLine(line, dial, writeOk, order) => OnClientLine(s, line, dial, writeOk, order)
    case ReaderLine(g, line) => OnReaderLine(s, g, line)
    case ReaderClosed(g) => OnReaderClosed(s, g)
    case TakeEvent(order) => OnEvent(s, order)
  }

  /** After the first `connect`, which replays nothing and whose failure ends the proxy. */
  const Init: State :=
    State(Some(1), 1, Handshake(None, None), {}, [], [Conn([], [], 0, false), Conn([], [], 0, true)], [Opened(1)])

  predicate Legal(run: seq<Action>)
    decreases |run|, 0
  {
    run == [] || (Legal(run[..|run| - 1]) && Enabled(After(run[..|run| - 1]), run[|run| - 1]))
  }

  function After(run: seq<Action>): State
    requires Legal(run)
    decreases |run|, 1
  {
    if run == [] then Init else Apply(After(run[..|run| - 1]), run[|run| - 1])
  }

  // ------------------------------------------------- shape and generation isolation

  /** A live connection carries the current generation, and without one nothing is in flight. */
  predicate Shape(s: State) {
    && WellFormed(s)
    && (s.connection.None? ==> s.inFlight == {})
    && (forall i :: 0 <= i < |s.queue| ==> 1 <= s.queue[i].generation <= s.generation)
    && !s.conns[0].reading
  }

  lemma ShapeClientLine(s: State, line: Line, dial: Dial, writeOk: bool, order: seq<Id>)
    requires Shape(s)
    ensures Shape(OnClientLine(s, line, dial, writeOk, order))
  {
    hide Failures;
  }

  lemma ShapeEvent(s: State, order: seq<Id>)
    requires Shape(s) && s.queue != []
    ensures Shape(OnEvent(s, order))
  {
    hide Failures;
  }

  lemma ShapeStep(s: State, a: Action)
    requires Shape(s) && Enabled(s, a)
    ensures Shape(Apply(s, a))
  {
    match a
    case ClientLine(line, dial, writeOk, order) =>
      hide OnClientLine;
      ShapeClientLine(s, line, dial, writeOk, order);
    case TakeEvent(order) =>
      hide OnEvent;
      ShapeEvent(s, order);
    case _ =>
  }

  lemma {:induction false} ShapeAlways(run: seq<Action>)
    requires Legal(run)
    ensures Shape(After(run))
    decreases |run|
  {
    if run != [] {
      ShapeAlways(run[..|run| - 1]);
      ShapeStep(After(run[..|run| - 1]), run[|run| - 1]);
    }
  }
}
