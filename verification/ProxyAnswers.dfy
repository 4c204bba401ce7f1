/** When a request id can be answered twice on stdout, and when it cannot. */
module ProxyAnswers {
  import opened Wrappers
  import opened McpProxy
  import opened ProxyConservation

  ghost predicate AnsweredOnce(log: seq<Obs>) {
    forall i, j, id :: 0 <= i < j < |log| && Answers(log[i], id) ==> !Answers(log[j], id)
  }

  predicate WritesRequest(o: Obs, g: nat, id: Id) {
    o.Wrote? && o.generation == g && o.line.IsRequest() && o.line.id == Some(id)
  }

  ghost predicate RequestedOn(log: seq<Obs>, g: nat, id: Id) {
    exists i :: 0 <= i < |log| && WritesRequest(log[i], g, id)
  }

  predicate RespondsTo(line: Line, id: Id) { line.IsResponse() && line.id == Some(id) }

  ghost predicate Responded(lines: seq<Line>, id: Id) {
    exists k :: 0 <= k < |lines| && RespondsTo(lines[k], id)
  }

  /** The daemon answers, once, only requests it received on the same connection. */
  ghost predicate HonestStep(s: State, a: Action)
    requires Enabled(s, a)
  {
    a.ReaderLine? && a.line.IsResponse() ==>
      && RequestedOn(s.log, a.generation, a.line.id.value)
      && !Responded(s.conns[a.generation].Reported(), a.line.id.value)
  }

  ghost predicate Honest(run: seq<Action>)
    requires Legal(run)
  {
    run == [] || (Honest(run[..|run| - 1]) && HonestStep(After(run[..|run| - 1]), run[|run| - 1]))
  }

  /** A response of the current generation reaches stdout after its connection was dropped. */
  predicate LateStep(s: State, a: Action)
    requires Enabled(s, a)
  {
    && a.TakeEvent?
    && s.connection.None?
    && s.queue[0].EventLine?
    && s.queue[0].generation == s.generation
    && s.queue[0].line.IsResponse()
  }

  ghost predicate NeverLate(run: seq<Action>)
    requires Legal(run)
  {
    run == [] || (NeverLate(run[..|run| - 1]) && !LateStep(After(run[..|run| - 1]), run[|run| - 1]))
  }

  ghost predicate WritesSucceed(run: seq<Action>) {
    forall i :: 0 <= i < |run| && run[i].ClientLine? ==> run[i].writeOk
  }

  // ------------------------------------------------------------ the log only grows

  lemma LogGrows(s: State, a: Action)
    requires Enabled(s, a)
    ensures s.log <= Apply(s, a).log
  {
  }

  // --------------------------------------------- what an honest daemon's run keeps

  ghost predicate WritesFollowAsks(log: seq<Obs>) {
    forall j, g, id :: 0 <= j < |log| && WritesRequest(log[j], g, id) ==> AskedBefore(log, j, id)
  }

  predicate QueuedResponse(queue: seq<Event>, i: nat, id: Id)
    requires i < |queue|
  {
    queue[i].EventLine? && RespondsTo(queue[i].line, id)
  }

  /** Every queued line was reported by the connection it names. */
  ghost predicate QueueReported(s: State)
    requires WellFormed(s)
  {
    forall i :: 0 <= i < |s.queue| && s.queue[i].EventLine? ==>
      && s.queue[i].generation < |s.conns|
      && s.queue[i].line in s.conns[s.queue[i].generation].Reported()
  }

  /** Queued responses answer ids asked before. */
  ghost predicate QueueAsked(s: State) {
    forall i, id :: 0 <= i < |s.queue| && QueuedResponse(s.queue, i, id) ==> AskedBefore(s.log, |s.log|, id)
  }

  /** On the live connection a written request is in flight or its response was reported. */
  ghost predicate OwedOrReported(s: State)
    requires WellFormed(s)
  {
    s.connection.Some? ==>
      forall id :: RequestedOn(s.log, s.generation, id) ==>
        id in s.inFlight || Responded(s.conns[s.generation].Reported(), id)
  }

  /** Responses of the live connection still in the channel are in flight and distinct. */
  ghost predicate QueuedAreOwed(s: State) {
    s.connection.Some? ==>
      && (forall i, id :: 0 <= i < |s.queue| && s.queue[i].generation == s.generation && QueuedResponse(s.queue, i, id) ==>
            id in s.inFlight)
      && (forall i, j, id :: (&& 0 <= i < j < |s.queue|
                              && s.queue[i].generation == s.generation == s.queue[j].generation
                              && QueuedResponse(s.queue, i, id)) ==> !QueuedResponse(s.queue, j, id))
  }

  ghost predicate LogBounded(s: State) {
    forall i :: 0 <= i < |s.log| && s.log[i].Wrote? ==> s.log[i].generation <= s.generation
  }

  ghost predicate QueueBounded(s: State) {
    forall i :: 0 <= i < |s.queue| ==> s.queue[i].generation <= s.generation
  }

  ghost predicate InFlightAsked(s: State) {
    forall id :: id in s.inFlight ==> AskedBefore(s.log, |s.log|, id)
  }

  ghost predicate HonestInv(s: State) {
    && WellFormed(s)
    && QueueBounded(s)
    && LogBounded(s)
    && InFlightAsked(s)
    && WritesFollowAsks(s.log)
    && AnswersFollow(s.log)
    && QueueReported(s)
    && QueueAsked(s)
    && OwedOrReported(s)
    && QueuedAreOwed(s)
  }

  lemma AppendFollows(log: seq<Obs>, o: Obs)
    requires WritesFollowAsks(log) && AnswersFollow(log)
    requires forall g, id :: WritesRequest(o, g, id) ==> AskedBefore(log, |log|, id)
    requires forall id :: Answers(o, id) ==> AskedBefore(log, |log|, id)
    ensures WritesFollowAsks(log + [o]) && AnswersFollow(log + [o])
    ensures forall j, id :: 0 <= j <= |log| && AskedBefore(log, j, id) ==> AskedBefore(log + [o], j, id)
    ensures forall id :: AskedBefore(log, |log|, id) ==> AskedBefore(log + [o], |log| + 1, id)
  {
    var more := log + [o];
    forall j, id | 0 <= j <= |log| && AskedBefore(log, j, id)
      ensures AskedBefore(more, j, id) && AskedBefore(more, |log| + 1, id)
    {
      var i :| 0 <= i < j && Asks(log[i], id);
      assert Asks(more[i], id);
    }
    forall j, g, id | 0 <= j < |more| && WritesRequest(more[j], g, id) ensures AskedBefore(more, j, id) {
      if j < |log| { assert more[j] == log[j] && AskedBefore(log, j, id); }
    }
    forall j, id | 0 <= j < |more| && Answers(more[j], id) ensures AskedBefore(more, j, id) {
      if j < |log| { assert more[j] == log[j] && AskedBefore(log, j, id); }
    }
  }

  lemma RequestedAppend(log: seq<Obs>, o: Obs, g: nat, id: Id)
    ensures RequestedOn(log + [o], g, id) <==> RequestedOn(log, g, id) || WritesRequest(o, g, id)
  {
    var more := log + [o];
    assert more[|log|] == o;
    if RequestedOn(log, g, id) {
      var i :| 0 <= i < |log| && WritesRequest(log[i], g, id);
      assert WritesRequest(more[i], g, id);
    }
    if RequestedOn(more, g, id) {
      var i :| 0 <= i < |more| && WritesRequest(more[i], g, id);
      if i < |log| { assert WritesRequest(log[i], g, id); }
    }
  }

  lemma NotedKeeps(s: State, line: Line)
    requires HonestInv(s)
    ensures HonestInv(Noted(s, line))
    ensures line.IsRequest() ==> AskedBefore(Noted(s, line).log, |Noted(s, line).log|, line.id.value)
  {
    var t := Noted(s, line);
    AppendFollows(s.log, Read(line));
    assert t.log[|s.log|] == Read(line);
    if line.IsRequest() { assert Asks(t.log[|s.log|], line.id.value); }
    forall g, id ensures RequestedOn(t.log, g, id) == RequestedOn(s.log, g, id) {
      RequestedAppend(s.log, Read(line), g, id);
    }
  }

  lemma ReconnectKeeps(s: State, dial: Dial)
    requires HonestInv(s) && s.connection.None?
    ensures HonestInv(Reconnect(s, dial))
  {
    var t := Reconnect(s, dial);
    AppendFollows(s.log, Opened(t.generation));
    forall id ensures !RequestedOn(s.log, t.generation, id) && !RequestedOn(s.log + [Opened(t.generation)], t.generation, id) {
      RequestedAppend(s.log, Opened(t.generation), t.generation, id);
    }
  }

  /** What a disconnected proxy logs keeps the invariant, an answer to an id asked before
      included. */
  lemma EntryKeeps(s: State, o: Obs)
    requires HonestInv(s) && s.connection.None? && (o.Refused? || o.Failed?)
    requires o.Failed? ==> AskedBefore(s.log, |s.log|, o.id)
    ensures HonestInv(s.(log := s.log + [o]))
    ensures forall id :: AskedBefore(s.log, |s.log|, id) ==> AskedBefore(s.log + [o], |s.log| + 1, id)
  {
    hide WritesFollowAsks, AnswersFollow, AskedBefore;
    AppendFollows(s.log, o);
  }

  lemma {:induction false} FailuresFollow(s: State, order: seq<Id>)
    requires HonestInv(s) && s.connection.None?
    requires forall id :: id in order ==> AskedBefore(s.log, |s.log|, id)
    ensures HonestInv(s.(inFlight := {}, log := s.log + Failures(order)))
    decreases order
  {
    SplitFailures(s.log, order);
    if order == [] {
      assert s.(inFlight := {}, log := s.log + Failures(order)) == s.(inFlight := {});
      return;
    }
    hide HonestInv, AskedBefore;
    EntryKeeps(s, Failed(order[0]));
    assert order[0] in order && forall id :: id in order[1..] ==> id in order;
    FailuresFollow(s.(log := s.log + [Failed(order[0])]), order[1..]);
  }

  lemma DroppedWriteKeeps(s: State, line: Line)
    requires HonestInv(s) && s.connection.Some?
    requires line.IsRequest() ==> line.id.value in s.inFlight
    ensures HonestInv(Write(s, line, true, []).(log := s.log + [Wrote(s.generation, line, false)], connection := None))
  {
    var t := Write(s, line, true, []);
    AppendFollows(s.log, Wrote(s.generation, line, false));
    assert forall h :: 0 <= h < |t.conns| ==> t.conns[h].Reported() == s.conns[h].Reported();
  }

  lemma WroteKeeps(s: State, line: Line)
    requires HonestInv(s) && s.connection.Some?
    requires line.IsRequest() ==> line.id.value in s.inFlight
    ensures HonestInv(Write(s, line, true, []))
  {
    var g := s.generation;
    var t := Write(s, line, true, []);
    AppendFollows(s.log, Wrote(g, line, true));
    forall h, id ensures RequestedOn(t.log, h, id) ==> RequestedOn(s.log, h, id) || (h == g && line.IsRequest() && line.id == Some(id)) {
      RequestedAppend(s.log, Wrote(g, line, true), h, id);
    }
    assert forall h :: 0 <= h < |t.conns| ==> t.conns[h].Reported() == s.conns[h].Reported();
  }

  lemma ClientLineKeeps(s: State, a: Action)
    requires Enabled(s, a) && a.ClientLine? && HonestInv(s)
    ensures HonestInv(Apply(s, a))
  {
    var noted := Noted(s, a.line);
    NotedKeeps(s, a.line);
    var ready := if noted.connection.None? then Reconnect(noted, a.dial) else noted;
    if noted.connection.None? { ReconnectKeeps(noted, a.dial); }
    if ready.connection.None? {
      EntryKeeps(ready, Refused(a.line));
      FailuresFollow(ready.(log := ready.log + [Refused(a.line)]), a.order);
    } else {
      if a.writeOk {
        WroteKeeps(ready, a.line);
      } else {
        DroppedWriteKeeps(ready, a.line);
        var failed := Write(ready, a.line, true, []).(log := ready.log + [Wrote(ready.generation, a.line, false)], connection := None);
        FailuresFollow(failed, a.order);
      }
    }
  }

  lemma ReaderLineKeeps(s: State, g: nat, line: Line)
    requires HonestInv(s) && g < |s.conns|
    requires line.IsResponse() ==>
      RequestedOn(s.log, g, line.id.value) && !Responded(s.conns[g].Reported(), line.id.value)
    ensures HonestInv(OnReaderLine(s, g, line))
  {
    var t := OnReaderLine(s, g, line);
    var was, now := s.conns[g].Reported(), t.conns[g].Reported();
    assert now == was + [line];
    assert forall k :: 0 <= k < |was| ==> now[k] == was[k];
    assert now[|was|] == line;
    assert t.queue == s.queue + [EventLine(g, line)];
    assert QueueReported(t) by {
      forall i | 0 <= i < |t.queue| && t.queue[i].EventLine?
        ensures t.queue[i].generation < |t.conns| && t.queue[i].line in t.conns[t.queue[i].generation].Reported()
      {
        if i < |s.queue| { assert t.queue[i] == s.queue[i]; }
      }
    }
    forall i, id | 0 <= i < |t.queue| && QueuedResponse(t.queue, i, id) ensures AskedBefore(s.log, |s.log|, id) {
      if i < |s.queue| {
        assert t.queue[i] == s.queue[i] && QueuedResponse(s.queue, i, id);
      } else {
        var j :| 0 <= j < |s.log| && WritesRequest(s.log[j], g, id);
        assert AskedBefore(s.log, j, id);
      }
    }
    forall id | Responded(was, id) ensures Responded(now, id) {
      var k :| 0 <= k < |was| && RespondsTo(was[k], id);
      assert RespondsTo(now[k], id);
    }
    assert QueuedAreOwed(t) by { ReaderLineOwed(s, g, line); }
  }

  lemma ReaderLineOwed(s: State, g: nat, line: Line)
    requires HonestInv(s) && g < |s.conns|
    requires line.IsResponse() ==>
      RequestedOn(s.log, g, line.id.value) && !Responded(s.conns[g].Reported(), line.id.value)
    ensures QueuedAreOwed(OnReaderLine(s, g, line))
  {
    var queue := s.queue + [EventLine(g, line)];
    forall i, id | 0 <= i < |s.queue| && s.queue[i].generation == g && QueuedResponse(s.queue, i, id)
      ensures Responded(s.conns[g].Reported(), id)
    {
      assert s.queue[i].line in s.conns[g].Reported();
    }
    forall i, id | 0 <= i < |queue| && QueuedResponse(queue, i, id)
      ensures if i < |s.queue| then QueuedResponse(s.queue, i, id) else line.IsResponse() && line.id == Some(id)
    {
      if i < |s.queue| { assert queue[i] == s.queue[i]; }
    }
  }

  lemma ReaderClosedKeeps(s: State, g: nat)
    requires HonestInv(s) && g < |s.conns|
    ensures HonestInv(OnReaderClosed(s, g))
  {
    var t := OnReaderClosed(s, g);
    assert forall h :: 0 <= h < |s.conns| ==> t.conns[h].Reported() == s.conns[h].Reported();
    forall i, id | 0 <= i < |t.queue| && QueuedResponse(t.queue, i, id)
      ensures i < |s.queue| && QueuedResponse(s.queue, i, id)
    {
      assert i < |s.queue| ==> t.queue[i] == s.queue[i];
    }
  }

  lemma DequeueKeeps(s: State)
    requires HonestInv(s) && s.queue != []
    ensures HonestInv(s.(queue := s.queue[1..]))
  {
    var rest := s.queue[1..];
    assert forall i :: 0 <= i < |rest| ==> rest[i] == s.queue[i + 1];
    assert forall i, id :: 0 <= i < |rest| ==> QueuedResponse(rest, i, id) == QueuedResponse(s.queue, i + 1, id);
  }

  lemma ForwardKeeps(s: State, a: Action)
    requires Enabled(s, a) && a.TakeEvent? && HonestInv(s)
    requires s.queue[0].generation == s.generation && s.queue[0].EventLine?
    ensures HonestInv(Apply(s, a))
  {
    var e, rest, t := s.queue[0], s.queue[1..], Apply(s, a);
    assert forall i :: 0 <= i < |rest| ==> rest[i] == s.queue[i + 1];
    assert forall i, id :: 0 <= i < |rest| ==> QueuedResponse(rest, i, id) == QueuedResponse(s.queue, i + 1, id);
    forall id | Answers(Forwarded(e.generation, e.line), id) ensures AskedBefore(s.log, |s.log|, id) {
      assert QueuedResponse(s.queue, 0, id);
    }
    AppendFollows(s.log, Forwarded(e.generation, e.line));
    forall id ensures RequestedOn(t.log, s.generation, id) == RequestedOn(s.log, s.generation, id) {
      RequestedAppend(s.log, Forwarded(e.generation, e.line), s.generation, id);
    }
  }

  lemma DropKeeps(s: State)
    requires HonestInv(s)
    ensures HonestInv(s.(connection := None))
    ensures forall id :: id in s.inFlight ==> AskedBefore(s.log, |s.log|, id)
  {
  }

  lemma TakeEventKeeps(s: State, a: Action)
    requires Enabled(s, a) && a.TakeEvent? && HonestInv(s)
    ensures HonestInv(Apply(s, a))
  {
    hide HonestInv;
    var e, rest := s.queue[0], s.(queue := s.queue[1..]);
    if e.generation == s.generation && e.EventLine? {
      ForwardKeeps(s, a);
    } else {
      DequeueKeeps(s);
      if e.generation == s.generation {
        DropKeeps(rest);
        FailuresFollow(rest.(connection := None), a.order);
      }
    }
  }

  lemma {:induction false} HonestAlways(run: seq<Action>)
    requires Legal(run) && Honest(run)
    ensures HonestInv(After(run))
    decreases |run|
  {
    if run != [] {
      var s, a := After(run[..|run| - 1]), run[|run| - 1];
      HonestAlways(run[..|run| - 1]);
      match a
      case ClientLine(_, _, _, _) => ClientLineKeeps(s, a);
      case ReaderLine(_, _) => ReaderLineKeeps(s, a.generation, a.line);
      case ReaderClosed(_) => ReaderClosedKeeps(s, a.generation);
      case TakeEvent(_) => TakeEventKeeps(s, a);
    }
  }

  /** An honest daemon never answers before the question. */
  lemma HonestAnswersFollow(run: seq<Action>)
    requires Legal(run) && Honest(run)
    ensures AnswersFollow(After(run).log)
  {
    HonestAlways(run);
  }

  // ----------------------------------------------------------- at most one answer

  ghost predicate Unanswerable(log: seq<Obs>, id: Id) {
    forall j :: 0 <= j < |log| ==> !Answers(log[j], id)
  }

  lemma AnsweredOnceAppend(log: seq<Obs>, o: Obs)
    requires AnsweredOnce(log)
    requires forall id :: Answers(o, id) ==> Unanswerable(log, id)
    ensures AnsweredOnce(log + [o])
  {
  }

  lemma {:induction false} FailuresOnce(log: seq<Obs>, order: seq<Id>)
    requires AnsweredOnce(log)
    requires forall i, j :: 0 <= i < j < |order| ==> order[i] != order[j]
    requires forall id :: id in order ==> Unanswerable(log, id)
    ensures AnsweredOnce(log + Failures(order))
    decreases order
  {
    if order == [] {
      assert log + Failures(order) == log;
    } else {
      var o := Failed(order[0]);
      AnsweredOnceAppend(log, o);
      hide AnsweredOnce, Unanswerable, Failures;
      SplitFailures(log, order);
      forall id | id in order[1..] ensures Unanswerable(log + [o], id) {
        assert id in order;
        OtherFailure(log, order[0], id);
      }
      FailuresOnce(log + [o], order[1..]);
    }
  }

  lemma OtherFailure(log: seq<Obs>, failed: Id, id: Id)
    requires Unanswerable(log, id) && failed != id
    ensures Unanswerable(log + [Failed(failed)], id)
  {
  }

  lemma FreshPrefix(log: seq<Obs>, more: seq<Obs>)
    requires log <= more && Fresh(more)
    ensures Fresh(log)
  {
    assert forall i :: 0 <= i < |log| ==> log[i] == more[i];
  }

  lemma OutstandingUnanswerable(log: seq<Obs>, id: Id)
    requires Fresh(log) && AnswersFollow(log) && Outstanding(log, id)
    ensures Unanswerable(log, id)
  {
    forall j: nat | j < |log| ensures !Answers(log[j], id) {
      OutstandingNeverAnswered(log, id, j);
    }
  }

  lemma AnsweredOnceClientLine(s: State, a: Action)
    requires WellFormed(s) && Enabled(s, a) && a.ClientLine? && Conserved(s)
    requires AnswersFollow(s.log) && AnsweredOnce(s.log) && Fresh(Apply(s, a).log)
    ensures AnsweredOnce(Apply(s, a).log)
  {
    var noted := Noted(s, a.line);
    var ready := if noted.connection.None? then Reconnect(noted, a.dial) else noted;
    var last := if ready.connection.None? then Refused(a.line) else Wrote(ready.generation, a.line, a.writeOk);
    var flushed := ready.connection.None? || !a.writeOk;
    var final := Apply(s, a).log;
    assert final == ready.log + [last] + (if flushed then Failures(a.order) else []);
    assert s.log + [Read(a.line)] <= final;
    hide Conserved, AnswersFollow, AnsweredOnce, Unanswerable, Apply, Fresh;
    QuietlyOnce(s.log, Read(a.line));
    QuietlyOnce(noted.log, Opened(s.generation + 1));
    QuietlyOnce(ready.log, last);
    if flushed {
      forall id | id in a.order ensures Unanswerable(ready.log + [last], id) {
        TrackedUnanswerable(s, a.line, id, final);
        QuietlyUnanswerable(s.log, Read(a.line), id);
        QuietlyUnanswerable(noted.log, Opened(s.generation + 1), id);
        QuietlyUnanswerable(ready.log, last, id);
      }
      FailuresOnce(ready.log + [last], a.order);
    } else {
      assert final == ready.log + [last];
    }
  }

  lemma QuietlyOnce(log: seq<Obs>, o: Obs)
    requires AnsweredOnce(log) && !o.Forwarded? && !o.Failed?
    ensures AnsweredOnce(log + [o])
  {
    AnsweredOnceAppend(log, o);
  }

  lemma QuietlyUnanswerable(log: seq<Obs>, o: Obs, id: Id)
    requires Unanswerable(log, id) && !o.Forwarded? && !o.Failed?
    ensures Unanswerable(log + [o], id)
  {
  }

  lemma AnsweredOnceTakeEvent(s: State, a: Action)
    requires Enabled(s, a) && a.TakeEvent? && Conserved(s) && QueuedAreOwed(s) && AnswersFollow(s.log)
    requires AnsweredOnce(s.log) && Fresh(s.log) && !LateStep(s, a)
    ensures AnsweredOnce(Apply(s, a).log)
  {
    hide AnswersFollow, AnsweredOnce, Unanswerable, Fresh, Outstanding;
    var e := s.queue[0];
    if e.generation == s.generation && e.EventClosed? {
      forall id | id in a.order ensures Unanswerable(s.log, id) { OutstandingUnanswerable(s.log, id); }
      FailuresOnce(s.log, a.order);
    } else if e.generation == s.generation {
      forall id | Answers(Forwarded(e.generation, e.line), id) ensures Unanswerable(s.log, id) {
        assert QueuedResponse(s.queue, 0, id);
        OutstandingUnanswerable(s.log, id);
      }
      AnsweredOnceAppend(s.log, Forwarded(e.generation, e.line));
    }
  }

  /** An id in flight once `line` is noted has never been answered. */
  lemma TrackedUnanswerable(s: State, line: Line, id: Id, final: seq<Obs>)
    requires Conserved(s) && AnswersFollow(s.log) && id in Track(s.inFlight, line)
    requires s.log + [Read(line)] <= final && Fresh(final)
    ensures Unanswerable(s.log, id)
  {
    FreshPrefix(s.log, final);
    if id in s.inFlight {
      OutstandingUnanswerable(s.log, id);
    } else {
      assert final[|s.log|] == Read(line) && Asks(final[|s.log|], id);
      forall j: nat | j < |s.log| ensures !Answers(s.log[j], id) {
        assert forall i :: 0 <= i < |s.log| ==> final[i] == s.log[i];
      }
    }
  }

  lemma {:induction false} AnsweredOnceAlways(run: seq<Action>)
    requires Legal(run) && Honest(run) && Fresh(After(run).log) && NeverLate(run)
    ensures AnsweredOnce(After(run).log)
    decreases |run|
  {
    if run != [] {
      var front, a := run[..|run| - 1], run[|run| - 1];
      LogGrows(After(front), a);
      FreshPrefix(After(front).log, After(run).log);
      AnsweredOnceAlways(front);
      ShapeAlways(front);
      ConservedAlways(front);
      HonestAlways(front);
      hide Legal, Honest, NeverLate;
      match a
      case ClientLine(_, _, _, _) => AnsweredOnceClientLine(After(front), a);
      case TakeEvent(_) => AnsweredOnceTakeEvent(After(front), a);
      case _ =>
    }
  }

  /** A late response answers an id that a flush had already answered. */
  lemma LateAnswersTwice(s: State, a: Action)
    requires Shape(s) && Enabled(s, a) && Conserved(s) && HonestInv(s) && LateStep(s, a)
    ensures !AnsweredOnce(Apply(s, a).log)
  {
    var id := s.queue[0].line.id.value;
    assert QueuedResponse(s.queue, 0, id);
    var i :| 0 <= i < |s.log| && Asks(s.log[i], id);
    assert !Outstanding(s.log, id);
    var j :| i < j < |s.log| && Answers(s.log[j], id);
    var log := Apply(s, a).log;
    assert log[j] == s.log[j] && Answers(log[|s.log|], id);
  }

  lemma {:induction false} AnsweredOnceNeverLate(run: seq<Action>)
    requires Legal(run) && Honest(run) && AnsweredOnce(After(run).log)
    ensures NeverLate(run)
    decreases |run|
  {
    if run != [] {
      var front, a := run[..|run| - 1], run[|run| - 1];
      LogGrows(After(front), a);
      assert forall i :: 0 <= i < |After(front).log| ==> After(run).log[i] == After(front).log[i];
      AnsweredOnceNeverLate(front);
      ShapeAlways(front);
      ConservedAlways(front);
      HonestAlways(front);
      if LateStep(After(front), a) { LateAnswersTwice(After(front), a); }
    }
  }

  /** With fresh ids and an honest daemon, no id gets two answers exactly when no response
      of a dropped connection was still queued when its turn came. */
  lemma AtMostOneAnswerIffNeverLate(run: seq<Action>)
    requires Legal(run) && Honest(run) && Fresh(After(run).log)
    ensures AnsweredOnce(After(run).log) <==> NeverLate(run)
  {
    if NeverLate(run) { AnsweredOnceAlways(run); }
    if AnsweredOnce(After(run).log) { AnsweredOnceNeverLate(run); }
  }

  // ------------------------------------------------- connections that end by Closed

  /** `EventClosed` is the last event of its generation. */
  ghost predicate ClosedIsLast(s: State)
    requires WellFormed(s)
  {
    forall i :: 0 <= i < |s.queue| && s.queue[i].EventClosed? ==>
      && s.queue[i].generation < |s.conns|
      && !s.conns[s.queue[i].generation].reading
      && Quiet(s.queue[i + 1..], s.queue[i].generation)
  }

  ghost predicate Quiet(queue: seq<Event>, g: nat) {
    forall i :: 0 <= i < |queue| ==> queue[i].generation != g
  }

  ghost predicate SilentWhenDown(s: State)
    requires WellFormed(s)
  {
    s.connection.None? ==> !s.conns[s.generation].reading && Quiet(s.queue, s.generation)
  }

  lemma ClosedStep(s: State, a: Action)
    requires Shape(s) && Enabled(s, a) && ClosedIsLast(s)
    ensures WellFormed(Apply(s, a)) && ClosedIsLast(Apply(s, a))
  {
    ShapeStep(s, a);
    var t := Apply(s, a);
    match a
    case ClientLine(_, _, _, _) =>
      assert t.queue == s.queue;
      assert forall h :: 0 <= h < |s.conns| ==> t.conns[h].reading == s.conns[h].reading;
    case TakeEvent(_) =>
      assert t.conns == s.conns && t.queue == s.queue[1..];
      assert forall i :: 0 <= i < |t.queue| ==> t.queue[i] == s.queue[i + 1] && t.queue[i + 1..] == s.queue[i + 2..];
    case ReaderLine(g, line) => ClosedAppend(s, EventLine(g, line), t);
    case ReaderClosed(g) => ClosedAppend(s, EventClosed(g), t);
  }

  lemma ClosedAppend(s: State, e: Event, t: State)
    requires WellFormed(s) && WellFormed(t) && ClosedIsLast(s)
    requires e.generation < |s.conns| == |t.conns| && s.conns[e.generation].reading
    requires t.queue == s.queue + [e]
    requires forall h :: 0 <= h < |s.conns| ==>
      t.conns[h].reading == (if h == e.generation && e.EventClosed? then false else s.conns[h].reading)
    ensures ClosedIsLast(t)
  {
    forall i | 0 <= i < |t.queue| && t.queue[i].EventClosed?
      ensures !t.conns[t.queue[i].generation].reading && Quiet(t.queue[i + 1..], t.queue[i].generation)
    {
      if i < |s.queue| {
        assert t.queue[i] == s.queue[i] && t.queue[i + 1..] == s.queue[i + 1..] + [e];
      }
    }
  }

  lemma SilentStep(s: State, a: Action)
    requires Shape(s) && Enabled(s, a) && ClosedIsLast(s) && SilentWhenDown(s)
    requires a.ClientLine? ==> a.writeOk
    ensures SilentWhenDown(Apply(s, a))
  {
  }

  lemma {:induction false} WritesSucceedSilent(run: seq<Action>)
    requires Legal(run) && WritesSucceed(run)
    ensures Shape(After(run)) && ClosedIsLast(After(run)) && SilentWhenDown(After(run)) && NeverLate(run)
    decreases |run|
  {
    if run != [] {
      var front, a := run[..|run| - 1], run[|run| - 1];
      assert forall i :: 0 <= i < |front| ==> front[i] == run[i];
      WritesSucceedSilent(front);
      ShapeStep(After(front), a);
      ClosedStep(After(front), a);
      SilentStep(After(front), a);
    }
  }

  /** When every connection ends by `Closed`, that is when no write fails, no id is
      answered twice. */
  lemma AtMostOneAnswerWhenClosed(run: seq<Action>)
    requires Legal(run) && Honest(run) && Fresh(After(run).log) && WritesSucceed(run)
    ensures AnsweredOnce(After(run).log)
  {
    WritesSucceedSilent(run);
    AnsweredOnceAlways(run);
  }

  // --------------------------------------------------------- the write-failure run

  const Ask1 := Line("ask 1", Named("tools/list"), Some("1"), false, false)
  const Ask2 := Line("ask 2", Named("tools/call"), Some("2"), false, false)
  const Reply1 := Line("reply 1", NoVerb, Some("1"), true, false)

  /** The reply to 1 is queued when writing request 2 fails: the flush answers 1, and
      the queued reply, whose generation is still current, answers it again. */
  const WriteFailureRun: seq<Action> :=
    [ClientLine(Ask1, NoStream, true, ["1"]),
     ReaderLine(1, Reply1),
     ClientLine(Ask2, NoStream, false, ["1", "2"]),
     TakeEvent([])]

  /** The state after two actions: request 1 is in flight and its reply is queued. */
  const ReplyQueued: State :=
    State(Some(1), 1, Handshake(None, None), {"1"}, [EventLine(1, Reply1)],
          [Conn([], [], 0, false), Conn([Ask1], [Reply1], 0, true)],
          [Opened(1), Read(Ask1), Wrote(1, Ask1, true)])

  /** The state after the failed write: both requests are answered, the reply is still queued. */
  const WriteFailed: State :=
    State(None, 1, Handshake(None, None), {}, [EventLine(1, Reply1)],
          [Conn([], [], 0, false), Conn([Ask1, Ask2], [Reply1], 0, true)],
          [Opened(1), Read(Ask1), Wrote(1, Ask1, true), Read(Ask2), Wrote(1, Ask2, false), Failed("1"), Failed("2")])

  lemma ReplyQueuedReached()
    ensures var run := WriteFailureRun[..2]; Legal(run) && Honest(run) && After(run) == ReplyQueued
  {
    var first := ClientLine(Ask1, NoStream, true, ["1"]);
    assert Track({}, Ask1) == {"1"};
    Extend([], first);
    assert [] + [first] == [first];
    var s := After([first]);
    assert s.log == [Opened(1), Read(Ask1), Wrote(1, Ask1, true)];
    assert s.conns[0] == ReplyQueued.conns[0] && s.conns[1] == Conn([Ask1], [], 0, true);
    assert WritesRequest(s.log[2], 1, "1");
    Extend([first], ReaderLine(1, Reply1));
    var t := OnReaderLine(s, 1, Reply1);
    assert t.conns[0] == ReplyQueued.conns[0] && t.conns[1] == ReplyQueued.conns[1];
    assert t.conns == ReplyQueued.conns && t.queue == ReplyQueued.queue && t.log == ReplyQueued.log;
    assert WriteFailureRun[..2] == [first] + [ReaderLine(1, Reply1)];
  }

  lemma WriteFailedNext()
    ensures OnClientLine(ReplyQueued, Ask2, NoStream, false, ["1", "2"]) == WriteFailed
  {
    var t := OnClientLine(ReplyQueued, Ask2, NoStream, false, ["1", "2"]);
    assert Failures(["1", "2"]) == [Failed("1"), Failed("2")];
    assert t.log == WriteFailed.log;
    assert t.conns[0] == WriteFailed.conns[0] && t.conns[1] == WriteFailed.conns[1];
    assert t.conns == WriteFailed.conns;
  }

  const Twice: seq<Obs> := WriteFailed.log + [Forwarded(1, Reply1)]

  lemma TwiceIsTwice()
    ensures Fresh(Twice) && !AnsweredOnce(Twice)
  {
    assert Twice == [Opened(1), Read(Ask1), Wrote(1, Ask1, true), Read(Ask2), Wrote(1, Ask2, false), Failed("1"), Failed("2"), Forwarded(1, Reply1)];
    assert Answers(Twice[5], "1") && Answers(Twice[7], "1");
  }

  lemma FailAndForward(run: seq<Action>)
    requires Legal(run) && Honest(run) && After(run) == ReplyQueued
    ensures var more := run + [ClientLine(Ask2, NoStream, false, ["1", "2"])] + [TakeEvent([])];
            Legal(more) && Honest(more) && After(more).log == Twice
  {
    WriteFailedNext();
    var failing := ClientLine(Ask2, NoStream, false, ["1", "2"]);
    assert Track({"1"}, Ask2) == {"1", "2"};
    assert OnEvent(WriteFailed, []).log == Twice;
    hide Legal, Honest, After;
    Extend(run, failing);
    Extend(run + [failing], TakeEvent([]));
  }

  lemma WriteFailureAnswersTwice()
    ensures Legal(WriteFailureRun) && Honest(WriteFailureRun)
    ensures Fresh(After(WriteFailureRun).log)
    ensures !AnsweredOnce(After(WriteFailureRun).log)
  {
    hide Legal, Honest, After, Fresh, AnsweredOnce, Enabled, HonestStep;
    ReplyQueuedReached();
    FailAndForward(WriteFailureRun[..2]);
    TwiceIsTwice();
    assert WriteFailureRun == WriteFailureRun[..2] + [ClientLine(Ask2, NoStream, false, ["1", "2"])] + [TakeEvent([])];
  }

  lemma Extend(run: seq<Action>, a: Action)
    requires Legal(run) && Honest(run) && Enabled(After(run), a) && HonestStep(After(run), a)
    ensures Legal(run + [a]) && Honest(run + [a]) && After(run + [a]) == Apply(After(run), a)
  {
    assert (run + [a])[..|run|] == run;
  }
}
