/** What becomes of each client line and of each event, in every run. */
module ProxyOutcomes {
  import opened Wrappers
  import opened McpProxy
  import opened ProxyOrder
  import opened ProxyHandshake

  /** One error answer for each of the ids, and nothing else. */
  ghost predicate FailsEach(answers: seq<Obs>, ids: set<Id>) {
    && |answers| == |ids|
    && (forall o :: o in answers ==> o.Failed? && o.id in ids)
    && (forall id :: id in ids ==> Failed(id) in answers)
  }

  lemma {:induction false} FailuresFailEach(order: seq<Id>, ids: set<Id>)
    requires Lists(order, ids)
    ensures FailsEach(Failures(order), ids)
    decreases order
  {
    if order == [] {
      assert ids == {};
      return;
    }
    var id := order[0];
    forall other | other in ids - {id} ensures other in order[1..] {
      assert other in order;
    }
    FailuresFailEach(order[1..], ids - {id});
    assert Failures(order) == [Failed(id)] + Failures(order[1..]);
    assert ids == ids - {id} + {id};
  }

  lemma {:induction false} PrefixIsLegal(run: seq<Action>, i: nat)
    requires Legal(run) && i <= |run|
    ensures Legal(run[..i])
    ensures i < |run| ==> Enabled(After(run[..i]), run[i]) && Legal(run[..i + 1]) && After(run[..i + 1]) == Apply(After(run[..i]), run[i])
    decreases |run|
  {
    if i == |run| {
      assert run[..i] == run;
    } else if i + 1 == |run| {
      assert run[..i + 1] == run;
    } else {
      var shorter := run[..|run| - 1];
      PrefixIsLegal(shorter, i);
      assert shorter[..i] == run[..i] && shorter[..i + 1] == run[..i + 1];
    }
  }

  // ------------------------------------------------------------------ client lines

  lemma DialOutcome(s: State, dial: Dial)
    requires WellFormed(s) && Remembers(s) && s.connection.None?
    ensures var t, g := Reconnect(s, dial), s.generation + 1;
            && t.generation == g && t.inFlight == s.inFlight && t.queue == s.queue && t.handshake == s.handshake
            && (LetsIn(dial, LatestInitialize(s.log), LatestInitialized(s.log))
                ==> t.connection == Some(g) && t.log == s.log + [Opened(g)])
            && (!LetsIn(dial, LatestInitialize(s.log), LatestInitialized(s.log)) ==> t.connection == None && t.log == s.log)
  {
  }

  /** The line is written to connection `g`; if that fails the connection is dropped. */
  ghost predicate Written(before: seq<Obs>, t: State, asked: set<Id>, g: nat, line: Line, writeOk: bool) {
    && t.generation == g
    && (writeOk ==> t.log == before + [Wrote(g, line, true)] && t.connection == Some(g) && t.inFlight == asked)
    && (!writeOk ==>
          && t.connection == None && t.inFlight == {}
          && |before| < |t.log| && t.log[..|before| + 1] == before + [Wrote(g, line, false)]
          && FailsEach(t.log[|before| + 1..], asked))
  }

  /** The line is dropped: there is no connection, and everything asked has failed. */
  ghost predicate Dropped(before: seq<Obs>, t: State, asked: set<Id>, line: Line) {
    && t.connection == None && t.inFlight == {}
    && |before| < |t.log| && t.log[..|before| + 1] == before + [Refused(line)]
    && FailsEach(t.log[|before| + 1..], asked)
  }

  lemma WriteOutcome(s: State, line: Line, writeOk: bool, order: seq<Id>)
    requires WellFormed(s) && s.connection.Some? && Lists(order, s.inFlight)
    ensures Written(s.log, Write(s, line, writeOk, order), s.inFlight, s.generation, line, writeOk)
  {
    hide FailsEach, Failures, Lists;
    FailuresFailEach(order, s.inFlight);
  }

  lemma DropOutcome(s: State, line: Line, order: seq<Id>)
    requires s.connection.None? && Lists(order, s.inFlight)
    ensures Dropped(s.log, Flush(s.(log := s.log + [Refused(line)]), order), s.inFlight, line)
  {
    hide FailsEach, Failures, Lists;
    FailuresFailEach(order, s.inFlight);
  }

  lemma WriteKeepsQueue(s: State, line: Line, writeOk: bool, order: seq<Id>)
    requires WellFormed(s) && s.connection.Some?
    ensures Write(s, line, writeOk, order).queue == s.queue
  {
  }

  /** The line went to the live connection, or to the next generation when there was none and
      the daemon lets the proxy in, and was dropped when it does not. */
  ghost predicate Settles(s: State, t: State, line: Line, dial: Dial, writeOk: bool) {
    var read, next := s.log + [Read(line)], s.generation + 1;
    var asked := s.inFlight + (if line.verb != NoVerb && line.id.Some? then {line.id.value} else {});
    var letIn := LetsIn(dial, LatestInitialize(read), LatestInitialized(read));
    && t.queue == s.queue
    && (s.connection.Some? ==> Written(read, t, asked, s.generation, line, writeOk))
    && (s.connection.None? && letIn ==> Written(read + [Opened(next)], t, asked, next, line, writeOk))
    && (s.connection.None? && !letIn ==> Dropped(read, t, asked, line) && t.generation == next)
  }

  lemma LineSettles(s: State, line: Line, dial: Dial, writeOk: bool, order: seq<Id>)
    requires WellFormed(s) && AllGreeted(s) && Lists(order, Track(s.inFlight, line))
    ensures Settles(s, OnClientLine(s, line, dial, writeOk, order), line, dial, writeOk)
  {
    hide LatestInitialize, LatestInitialized, Reconnect, Write, Flush, Written, Dropped, LetsIn, Lists, AllGreeted, Line.EnsureNewline;
    var noted := Noted(s, line);
    NotedGreeted(s, line);
    assert noted.inFlight == s.inFlight + (if line.verb != NoVerb && line.id.Some? then {line.id.value} else {});
    if noted.connection.Some? {
      WriteOutcome(noted, line, writeOk, order);
      WriteKeepsQueue(noted, line, writeOk, order);
    } else {
      GreetedRemembers(noted);
      DialOutcome(noted, dial);
      var ready := Reconnect(noted, dial);
      ReconnectWellFormed(noted, dial);
      if ready.connection.Some? {
        WriteOutcome(ready, line, writeOk, order);
        WriteKeepsQueue(ready, line, writeOk, order);
      } else {
        DropOutcome(ready, line, order);
        FlushKeepsQueue(ready.(log := ready.log + [Refused(line)]), order);
      }
    }
  }

  lemma ReconnectWellFormed(s: State, dial: Dial)
    requires WellFormed(s) && s.connection.None?
    ensures WellFormed(Reconnect(s, dial))
  {
  }

  lemma GreetedRemembers(s: State)
    requires WellFormed(s) && AllGreeted(s)
    ensures Remembers(s)
  {
  }

  lemma FlushKeepsQueue(s: State, order: seq<Id>)
    ensures Flush(s, order).queue == s.queue && Flush(s, order).generation == s.generation
  {
  }

  /** Every line the client sends is written to the live connection; with none, it is
      written to the next generation if the daemon lets the proxy in, which takes the whole
      handshake once both messages have been seen, and refused otherwise. */
  lemma LineOutcome(run: seq<Action>, i: nat)
    requires Legal(run) && i < |run| && run[i].ClientLine?
    ensures Legal(run[..i]) && Legal(run[..i + 1])
    ensures Settles(After(run[..i]), After(run[..i + 1]), run[i].line, run[i].dial, run[i].writeOk)
  {
    hide Settles, AllGreeted, OnClientLine, Lists;
    PrefixIsLegal(run, i);
    GreetedAlways(run[..i]);
    LineSettles(After(run[..i]), run[i].line, run[i].dial, run[i].writeOk, run[i].order);
  }

  lemma WrittenRefusesNothing(log: seq<Obs>, more: seq<Obs>, t: State, g: nat, line: Line, writeOk: bool)
    requires exists asked :: Written(log + more, t, asked, g, line, writeOk)
    requires forall o :: o in more ==> !o.Refused?
    ensures |log| <= |t.log| && forall o :: o in t.log[|log|..] ==> !o.Refused?
  {
    var asked :| Written(log + more, t, asked, g, line, writeOk);
    var tail := t.log[|log + more| + 1..];
    assert forall o :: o in tail ==> !o.Refused?;
    assert t.log == log + more + [Wrote(g, line, writeOk)] + tail;
    assert t.log[|log|..] == more + [Wrote(g, line, writeOk)] + tail;
  }

  lemma DroppedRefuses(before: seq<Obs>, t: State, line: Line)
    requires exists asked :: Dropped(before, t, asked, line)
    ensures |before| < |t.log| && before <= t.log && t.log[|before|] == Refused(line)
  {
    var asked :| Dropped(before, t, asked, line);
    assert t.log[|before|] == t.log[..|before| + 1][|before|];
  }

  /** The log of `t` goes on from that of `s`, and says so since. */
  ghost predicate Since(s: State, t: State, o: Obs) { s.log <= t.log && o in t.log[|s.log|..] }

  lemma SettlingRefuses(s: State, t: State, line: Line, dial: Dial, writeOk: bool)
    requires Settles(s, t, line, dial, writeOk)
    ensures var read := s.log + [Read(line)];
            Since(s, t, Refused(line)) <==>
            s.connection.None? && !LetsIn(dial, LatestInitialize(read), LatestInitialized(read))
  {
    hide LatestInitialize, LatestInitialized, LetsIn, Written, Dropped;
    var read, next := s.log + [Read(line)], s.generation + 1;
    if s.connection.Some? {
      WrittenRefusesNothing(s.log, [Read(line)], t, s.generation, line, writeOk);
    } else if LetsIn(dial, LatestInitialize(read), LatestInitialized(read)) {
      assert read + [Opened(next)] == s.log + [Read(line), Opened(next)];
      WrittenRefusesNothing(s.log, [Read(line), Opened(next)], t, next, line, writeOk);
    } else {
      DroppedRefuses(read, t, line);
      assert t.log[|s.log|..][1] == Refused(line);
    }
  }

  /** A line is refused exactly when there is no connection and its dial lacks the stream or,
      with both handshake messages seen, a step of the handshake. */
  lemma RefusedIffNotLetIn(run: seq<Action>, i: nat)
    requires Legal(run) && i < |run| && run[i].ClientLine?
    ensures Legal(run[..i]) && Legal(run[..i + 1])
    ensures var s, t := After(run[..i]), After(run[..i + 1]);
            var read := s.log + [Read(run[i].line)];
            Since(s, t, Refused(run[i].line)) <==>
            s.connection.None? && !LetsIn(run[i].dial, LatestInitialize(read), LatestInitialized(read))
  {
    hide After, Legal, Since, Settles, LatestInitialize, LatestInitialized, LetsIn;
    LineOutcome(run, i);
    SettlingRefuses(After(run[..i]), After(run[..i + 1]), run[i].line, run[i].dial, run[i].writeOk);
  }

  // ------------------------------------------------------------------------ events

  /** Every event leaves the channel.  One of an older connection changes nothing else; a
      line of the live one goes to stdout and answers its id; its end drops the connection
      and answers every id still asked. */
  lemma EventOutcome(run: seq<Action>, i: nat)
    requires Legal(run) && i < |run| && run[i].TakeEvent?
    ensures Legal(run[..i]) && Legal(run[..i + 1]) && After(run[..i]).queue != []
    ensures var s, t := After(run[..i]), After(run[..i + 1]);
            var event := s.queue[0];
            && t.queue == s.queue[1..] && t.generation == s.generation && t.handshake == s.handshake && t.conns == s.conns
            && (event.generation != s.generation ==>
                  t.log == s.log && t.connection == s.connection && t.inFlight == s.inFlight)
            && (event.EventLine? && event.generation == s.generation ==>
                  && t.connection == s.connection
                  && t.log == s.log + [Forwarded(s.generation, event.line)]
                  && (forall id :: id in t.inFlight <==>
                        id in s.inFlight && !((event.line.hasResult || event.line.hasError) && event.line.id == Some(id))))
            && (event.EventClosed? && event.generation == s.generation ==>
                  && t.connection == None && t.inFlight == {}
                  && s.log <= t.log && FailsEach(t.log[|s.log|..], s.inFlight))
  {
    PrefixIsLegal(run, i);
    var s, a := After(run[..i]), run[i];
    FailuresFailEach(a.order, s.inFlight);
    hide After, Legal, FailsEach, Failures, Lists;
  }

  // ----------------------------------------------------------------------- readers

  /** A reader task of any socket still open reports what it read, in order, and then its
      end, after which it reports nothing. */
  lemma ReaderOutcome(run: seq<Action>, i: nat)
    requires Legal(run) && i < |run| && (run[i].ReaderLine? || run[i].ReaderClosed?)
    ensures Legal(run[..i]) && Legal(run[..i + 1])
    ensures var s, t, g := After(run[..i]), After(run[..i + 1]), run[i].generation;
            && g < |s.conns| == |t.conns| && s.conns[g].reading
            && t.queue == s.queue + [if run[i].ReaderLine? then EventLine(g, run[i].line) else EventClosed(g)]
            && (run[i].ReaderLine? ==> t.conns[g].got == s.conns[g].got + [run[i].line] && t.conns[g].reading)
            && (run[i].ReaderClosed? ==> t.conns[g].got == s.conns[g].got && !t.conns[g].reading)
            && t.conns[g].sent == s.conns[g].sent
            && t.log == s.log && t.connection == s.connection && t.generation == s.generation && t.inFlight == s.inFlight
  {
    PrefixIsLegal(run, i);
    hide After, Legal;
  }
}
