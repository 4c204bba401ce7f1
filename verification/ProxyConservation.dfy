/** Every request the proxy accepts is either in flight or answered on stdout. */
module ProxyConservation {
  import opened Wrappers
  import opened McpProxy

  /** A line with a method and this id was read. */
  predicate Asks(o: Obs, id: Id) { o.Read? && o.line.verb != NoVerb && o.line.id == Some(id) }

  /** A line with a result or an error and this id went to stdout, or the proxy's own error did. */
  predicate Answers(o: Obs, id: Id) {
    (o.Forwarded? && (o.line.hasResult || o.line.hasError) && o.line.id == Some(id)) || (o.Failed? && o.id == id)
  }

  /** `id` was asked at some point and nothing on stdout has answered it since. */
  predicate Outstanding(log: seq<Obs>, id: Id) {
    exists i :: 0 <= i < |log| && Asks(log[i], id) && Unanswered(log, i, id)
  }

  predicate Unanswered(log: seq<Obs>, i: nat, id: Id) {
    forall j :: i < j < |log| ==> !Answers(log[j], id)
  }

  lemma OutstandingAppend(log: seq<Obs>, o: Obs, id: Id)
    ensures Outstanding(log + [o], id) <==> Asks(o, id) || (Outstanding(log, id) && !Answers(o, id))
  {
    var more := log + [o];
    if Outstanding(more, id) {
      var i :| 0 <= i < |more| && Asks(more[i], id) && Unanswered(more, i, id);
      if i < |log| {
        assert more[|log|] == o;
        assert forall j :: i < j < |log| ==> more[j] == log[j];
        assert Asks(log[i], id) && Unanswered(log, i, id);
      }
    }
    if Asks(o, id) {
      assert Asks(more[|log|], id) && Unanswered(more, |log|, id);
    } else if Outstanding(log, id) && !Answers(o, id) {
      var i :| 0 <= i < |log| && Asks(log[i], id) && Unanswered(log, i, id);
      assert Asks(more[i], id) && Unanswered(more, i, id);
    }
  }

  lemma {:induction false} OutstandingFailures(log: seq<Obs>, order: seq<Id>, id: Id)
    ensures Outstanding(log + Failures(order), id) <==> Outstanding(log, id) && id !in order
    decreases order
  {
    if order == [] {
      assert log + Failures(order) == log;
    } else {
      assert log + Failures(order) == (log + [Failed(order[0])]) + Failures(order[1..]);
      OutstandingFailures(log + [Failed(order[0])], order[1..], id);
      OutstandingAppend(log, Failed(order[0]), id);
    }
  }

  ghost predicate Conserved(s: State) {
    forall id :: id in s.inFlight <==> Outstanding(s.log, id)
  }

  lemma FlushConserves(s: State, order: seq<Id>)
    requires forall id :: Outstanding(s.log, id) ==> id in order
    ensures Conserved(Flush(s, order))
  {
    forall id ensures !Outstanding(Flush(s, order).log, id) {
      OutstandingFailures(s.log, order, id);
    }
  }

  lemma ConservedStep(s: State, a: Action)
    requires Shape(s) && Enabled(s, a) && Conserved(s)
    ensures Conserved(Apply(s, a))
  {
    match a
    case ClientLine(line, dial, writeOk, order) =>
      var noted := Noted(s, line);
      forall id ensures id in noted.inFlight <==> Outstanding(noted.log, id) {
        OutstandingAppend(s.log, Read(line), id);
      }
      var ready := if noted.connection.None? then Reconnect(noted, dial) else noted;
      forall id ensures id in ready.inFlight <==> Outstanding(ready.log, id) {
        OutstandingAppend(noted.log, Opened(s.generation + 1), id);
      }
      if ready.connection.None? {
        var refused := ready.(log := ready.log + [Refused(line)]);
        forall id ensures id in refused.inFlight <==> Outstanding(refused.log, id) {
          OutstandingAppend(ready.log, Refused(line), id);
        }
        FlushConserves(refused, order);
      } else {
        var wrote := Write(ready, line, true, order);
        var failed := wrote.(log := ready.log + [Wrote(ready.connection.value, line, false)], connection := None);
        forall id ensures (id in ready.inFlight <==> Outstanding(wrote.log, id))
                       && (id in ready.inFlight <==> Outstanding(failed.log, id)) {
          OutstandingAppend(ready.log, Wrote(ready.connection.value, line, true), id);
          OutstandingAppend(ready.log, Wrote(ready.connection.value, line, false), id);
        }
        FlushConserves(failed, order);
      }
    case TakeEvent(order) =>
      var event := s.queue[0];
      if event.generation == s.generation && event.EventLine? {
        forall id ensures id in Apply(s, a).inFlight <==> Outstanding(Apply(s, a).log, id) {
          OutstandingAppend(s.log, Forwarded(event.generation, event.line), id);
        }
      } else if event.generation == s.generation {
        FlushConserves(s.(queue := s.queue[1..], connection := None), order);
      }
    case _ =>
  }

  /** No assumption on the client or the daemon: in every run the in-flight table holds
      exactly the ids that were asked and not answered since. */
  lemma {:induction false} ConservedAlways(run: seq<Action>)
    requires Legal(run)
    ensures Conserved(After(run))
    decreases |run|
  {
    if run == [] {
      forall id ensures !Outstanding(Init.log, id) {
        OutstandingAppend([], Opened(1), id);
        assert Init.log == [] + [Opened(1)];
      }
    } else {
      ConservedAlways(run[..|run| - 1]);
      ShapeAlways(run[..|run| - 1]);
      ConservedStep(After(run[..|run| - 1]), run[|run| - 1]);
    }
  }

  /** While the proxy has no connection, every request read so far has its answer. */
  lemma NothingHangsDisconnected(run: seq<Action>, i: nat, id: Id)
    requires Legal(run) && After(run).connection.None?
    requires i < |After(run).log| && Asks(After(run).log[i], id)
    ensures exists j :: i < j < |After(run).log| && Answers(After(run).log[j], id)
  {
    ShapeAlways(run);
    ConservedAlways(run);
    assert !Outstanding(After(run).log, id);
  }

  // ------------------------------------------------------------------ fresh ids

  function AskedIds(log: seq<Obs>): set<Id> {
    set i | 0 <= i < |log| && log[i].Read? && log[i].line.IsRequest() :: log[i].line.id.value
  }

  function AnsweredIds(log: seq<Obs>): set<Id> {
    (set i | 0 <= i < |log| && log[i].Forwarded? && log[i].line.IsResponse() :: log[i].line.id.value)
    + (set i | 0 <= i < |log| && log[i].Failed? :: log[i].id)
  }

  /** The client never reuses a request id. */
  ghost predicate Fresh(log: seq<Obs>) {
    forall i, j, id :: 0 <= i < j < |log| && Asks(log[i], id) ==> !Asks(log[j], id)
  }

  ghost predicate AskedBefore(log: seq<Obs>, j: nat, id: Id)
    requires j <= |log|
  {
    exists i :: 0 <= i < j && Asks(log[i], id)
  }

  /** Nothing is answered before it was asked. */
  ghost predicate AnswersFollow(log: seq<Obs>) {
    forall j, id :: 0 <= j < |log| && Answers(log[j], id) ==> AskedBefore(log, j, id)
  }

  lemma OutstandingNeverAnswered(log: seq<Obs>, id: Id, j: nat)
    requires Fresh(log) && AnswersFollow(log) && Outstanding(log, id) && j < |log|
    ensures !Answers(log[j], id)
  {
    var i :| 0 <= i < |log| && Asks(log[i], id) && Unanswered(log, i, id);
  }

  lemma AskedIdsHold(log: seq<Obs>, id: Id)
    ensures id in AskedIds(log) <==> exists i :: 0 <= i < |log| && Asks(log[i], id)
  {
  }

  lemma AnsweredIdsHold(log: seq<Obs>, id: Id)
    ensures id in AnsweredIds(log) <==> exists j :: 0 <= j < |log| && Answers(log[j], id)
  {
  }

  /** Such an id was asked exactly when it is outstanding or answered, and never both. */
  lemma AskedSplits(log: seq<Obs>, id: Id)
    requires Fresh(log) && AnswersFollow(log)
    ensures id in AskedIds(log) <==> Outstanding(log, id) || id in AnsweredIds(log)
    ensures !(Outstanding(log, id) && id in AnsweredIds(log))
  {
    AskedIdsHold(log, id);
    AnsweredIdsHold(log, id);
    hide AskedIds, AnsweredIds, Asks, Answers, Fresh;
    if Outstanding(log, id) {
      forall j: nat | j < |log| ensures !Answers(log[j], id) { OutstandingNeverAnswered(log, id, j); }
    } else if exists i :: 0 <= i < |log| && Asks(log[i], id) {
      var i :| 0 <= i < |log| && Asks(log[i], id);
      assert !Unanswered(log, i, id);
    } else {
      forall j | 0 <= j < |log| ensures !Answers(log[j], id) { assert !AskedBefore(log, j, id); }
    }
  }

  /** With fresh ids and no answer before its question, the accepted ids are the disjoint
      union of the in-flight table and the ids answered on stdout. */
  lemma AcceptedIsInFlightOrAnswered(run: seq<Action>)
    requires Legal(run)
    requires Fresh(After(run).log) && AnswersFollow(After(run).log)
    ensures AskedIds(After(run).log) == After(run).inFlight + AnsweredIds(After(run).log)
    ensures After(run).inFlight !! AnsweredIds(After(run).log)
  {
    hide AskedIds, AnsweredIds, Outstanding, Fresh, AnswersFollow, After, Legal;
    var s := After(run);
    ConservedAlways(run);
    forall id ensures id in AskedIds(s.log) <==> id in s.inFlight || id in AnsweredIds(s.log) { AskedSplits(s.log, id); }
    forall id | id in s.inFlight ensures id !in AnsweredIds(s.log) { AskedSplits(s.log, id); }
  }
}
