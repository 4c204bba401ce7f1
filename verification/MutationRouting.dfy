/**
 One store mutation sent to the daemon, and who ends up running it.

 The client side is `call_daemon_phased` / `call_cli_mutation` with its callers; the daemon
 side is one connection handler, which reads a frame, then refuses it or dispatches it, then
 replies.  A run interleaves their steps freely: the write may be cut after any byte, the
 deadline may fire at any moment, and either side may die.
 */
module MutationRouting {
  import opened Wrappers
  import opened Frames

  const DISPATCHED_ERROR_CODE := -32603

  /** What a response body says, once parsed.  `decodes` tells whether the result has the
      type the caller expects. */
  datatype Envelope = NotJson | ErrorReply(code: Option<int>) | ResultReply(decodes: bool) | NoResult

  datatype Verdict = Succeeded | Unstarted | Undetermined

  function ErrorCode(code: Option<int>): int {
    if code.Some? then code.value else DISPATCHED_ERROR_CODE
  }

  function Judge(e: Envelope): Verdict {
    match e
    case NotJson => Undetermined
    case ErrorReply(code) => if ErrorCode(code) == DISPATCHED_ERROR_CODE then Undetermined else Unstarted
    case ResultReply(decodes) => if decodes then Succeeded else Undetermined
    case NoResult => Undetermined
  }

  function JudgeResponse(r: Received, parse: seq<Byte> -> Envelope): Verdict {
    if r.Body? then Judge(parse(r.bytes)) else Undetermined
  }

  /** The verdict when the write did not end well. */
  function JudgeSend(delivered: bool): Verdict {
    if delivered then Undetermined else Unstarted
  }

  /** A reply by which the daemon declines before dispatch. */
  predicate IsRefusal(e: Envelope) {
    e.ErrorReply? && e.code.Some? && e.code.value != DISPATCHED_ERROR_CODE
  }

  lemma OnlyRefusalsAreUnstarted(e: Envelope)
    ensures Judge(e) == Unstarted <==> IsRefusal(e)
  {
  }

  // ---------------------------------------------------------------- the transitions

  /** Who sends the mutation: a CLI command (routed unless the daemon route is off) or a
      lifecycle hook (which may find no daemon here, and may require one). */
  datatype Caller = Cli(routed: bool) | Hook(reachable: bool, daemonRequired: bool) {
    predicate UsesDaemon() { if Cli? then routed else reachable }
  }

  datatype Client = Preparing | Sending | Awaiting | Judged(verdict: Verdict)

  datatype Daemon = Reading | Executing | Replied(body: seq<Byte>) | Gone

  /** How the caller ends: it ran the mutation here, could not get the writer lock, reported
      the daemon's success, gave up on an unknown outcome, or skipped the event. */
  datatype Ending = Open | RanHere | LockRefused | Reported | Abandoned | Skipped

  datatype World = World(
    client: Client,
    sent: nat,
    delivered: bool,
    received: nat,
    daemon: Daemon,
    daemonRuns: nat,
    localRuns: nat,
    ending: Ending)

  /** What stays fixed: the caller, the request body, and how replies are parsed. */
  datatype Setup = Setup(caller: Caller, body: seq<Byte>, parse: seq<Byte> -> Envelope) {
    predicate Sendable() { |body| < U32_LIMIT }

    function Wire(): seq<Byte> { if Sendable() then Frame(body) else [] }
  }

  datatype Step =
    | CannotStart                       // serialize, spawn or connect failed
    | Connect
    | Push(bytes: nat)                  // the socket took some bytes; the last one sets `delivered`
    | SendFails                         // write error, flush error, oversized body or deadline
    | SendDone
    | Pull(bytes: nat)                  // the daemon read some bytes
    | Refuse(reply: seq<Byte>)
    | Dispatch
    | Finish(reply: seq<Byte>)
    | DaemonGone
    | ReadAnswer(bytes: nat)            // the client got this much of the reply before the stream ended
    | AnswerTimeout
    | Settle(lockFree: bool)            // the caller acts on what it holds

  /** The caller may run the mutation in this process. */
  predicate MayRunHere(caller: Caller, client: Client) {
    match caller
    case Cli(routed) => !routed || client == Judged(Unstarted)
    case Hook(reachable, daemonRequired) => !daemonRequired && (!reachable || client == Judged(Unstarted))
  }

  /** The bytes the client can read back. */
  function ReplyWire(w: World): seq<Byte> {
    if w.daemon.Replied? && |w.daemon.body| < U32_LIMIT then Frame(w.daemon.body) else []
  }

  predicate Enabled(setup: Setup, w: World, step: Step) {
    match step
    case CannotStart => setup.caller.UsesDaemon() && w.client == Preparing
    case Connect => setup.caller.UsesDaemon() && w.client == Preparing
    case Push(n) => w.client == Sending && n >= 1 && w.sent + n <= |setup.Wire()|
    case SendFails => w.client == Sending
    case SendDone => w.client == Sending && w.delivered
    case Pull(n) => w.daemon == Reading && w.received + n <= w.sent
    case Refuse(reply) =>
      && w.daemon == Reading
      && w.received <= |setup.Wire()|
      && Decode(setup.Wire()[..w.received]).Message?
      && IsRefusal(setup.parse(reply))
    case Dispatch =>
      && w.daemon == Reading
      && w.received <= |setup.Wire()|
      && Decode(setup.Wire()[..w.received]).Message?
    case Finish(reply) => w.daemon == Executing && !IsRefusal(setup.parse(reply))
    case DaemonGone => true
    case ReadAnswer(n) => w.client == Awaiting && n <= |ReplyWire(w)|
    case AnswerTimeout => w.client == Awaiting
    case Settle(_) => w.ending == Open && (setup.caller.UsesDaemon() ==> w.client.Judged?)
  }

  function EndingOf(caller: Caller, client: Client, lockFree: bool): Ending {
    if MayRunHere(caller, client) then
      (if caller.Cli? && !lockFree then LockRefused else RanHere)
    else if client == Judged(Succeeded) then Reported
    else if caller.Hook? then Skipped
    else Abandoned
  }

  function Apply(setup: Setup, w: World, step: Step): World
    requires Enabled(setup, w, step)
  {
    match step
    case CannotStart => w.(client := Judged(Unstarted))
    case Connect => w.(client := Sending)
    case Push(n) => w.(sent := w.sent + n, delivered := w.sent + n == |setup.Wire()|)
    case SendFails => w.(client := Judged(JudgeSend(w.delivered)))
    case SendDone => w.(client := Awaiting)
    case Pull(n) => w.(received := w.received + n)
    case Refuse(reply) => w.(daemon := Replied(reply))
    case Dispatch => w.(daemon := Executing, daemonRuns := w.daemonRuns + 1)
    case Finish(reply) => w.(daemon := Replied(reply))
    case DaemonGone => w.(daemon := Gone)
    case ReadAnswer(n) => w.(client := Judged(JudgeResponse(ResponseIn(ReplyWire(w)[..n]), setup.parse)))
    case AnswerTimeout => w.(client := Judged(Undetermined))
    case Settle(lockFree) =>
      var ending := EndingOf(setup.caller, w.client, lockFree);
      w.(ending := ending, localRuns := w.localRuns + (if ending == RanHere then 1 else 0))
  }

  const Start := World(Preparing, 0, false, 0, Reading, 0, 0, Open)

  predicate Legal(setup: Setup, run: seq<Step>)
    decreases |run|, 0
  {
    run == [] ||
    (Legal(setup, run[..|run| - 1]) && Enabled(setup, After(setup, run[..|run| - 1]), run[|run| - 1]))
  }

  function After(setup: Setup, run: seq<Step>): World
    requires Legal(setup, run)
    decreases |run|, 1
  {
    if run == [] then Start else Apply(setup, After(setup, run[..|run| - 1]), run[|run| - 1])
  }

  // -------------------------------------------------------------------- invariants

  predicate DaemonKnows(setup: Setup, w: World) {
    && w.received <= w.sent <= |setup.Wire()|
    && (w.daemonRuns > 0 || w.daemon.Replied? ==> w.received == |setup.Wire()| > 0)
    && (w.daemon.Reading? ==> w.daemonRuns == 0)
    && (w.daemon.Executing? ==> w.daemonRuns == 1)
    && (w.daemon.Replied? ==> w.daemonRuns == (if IsRefusal(setup.parse(w.daemon.body)) then 0 else 1))
    && w.daemonRuns <= 1
  }

  predicate ClientKnows(setup: Setup, w: World) {
    && (w.delivered <==> w.sent == |setup.Wire()| > 0)
    && (w.client.Preparing? ==> w.sent == 0)
    && (w.client.Awaiting? ==> w.delivered)
    && (!setup.caller.UsesDaemon() ==> w.client.Preparing?)
    && (w.client == Judged(Unstarted) ==>
          !w.delivered || (w.daemonRuns == 0 && !w.daemon.Reading? && !w.daemon.Executing?))
    && w.localRuns == (if w.ending == RanHere then 1 else 0)
    && (w.ending != Open ==> w.ending in {EndingOf(setup.caller, w.client, true), EndingOf(setup.caller, w.client, false)})
    && (w.ending != Open && setup.caller.UsesDaemon() ==> w.client.Judged?)
  }

  lemma PrefixIsNoMessage(setup: Setup, cut: nat)
    requires cut <= |setup.Wire()| && Decode(setup.Wire()[..cut]).Message?
    ensures cut == |setup.Wire()| > 0
  {
    if setup.Sendable() && cut < |setup.Wire()| { CutFrameIsNoMessage(setup.body, cut); }
  }

  lemma KnowledgeStep(setup: Setup, w: World, step: Step)
    requires Enabled(setup, w, step) && DaemonKnows(setup, w) && ClientKnows(setup, w)
    ensures DaemonKnows(setup, Apply(setup, w, step)) && ClientKnows(setup, Apply(setup, w, step))
  {
    match step
    case Refuse(_) => PrefixIsNoMessage(setup, w.received);
    case Dispatch => PrefixIsNoMessage(setup, w.received);
    case ReadAnswer(n) =>
      if ResponseIn(ReplyWire(w)[..n]).Body? {
        ReadAnswerIsReply(w, n);
        OnlyRefusalsAreUnstarted(setup.parse(w.daemon.body));
      }
    case _ =>
  }

  lemma ReadAnswerIsReply(w: World, n: nat)
    requires n <= |ReplyWire(w)| && ResponseIn(ReplyWire(w)[..n]).Body?
    ensures w.daemon.Replied? && ResponseIn(ReplyWire(w)[..n]).bytes == w.daemon.body
  {
    if n < |ReplyWire(w)| {
      CutFrameIsNoMessage(w.daemon.body, n);
    } else {
      var body := w.daemon.body;
      HeaderRoundTrip(|body|);
      assert ReplyWire(w)[..n] == Frame(body) + [];
    }
  }

  lemma {:induction false} KnowledgeAlways(setup: Setup, run: seq<Step>)
    requires Legal(setup, run)
    ensures DaemonKnows(setup, After(setup, run)) && ClientKnows(setup, After(setup, run))
    decreases |run|
  {
    if run != [] {
      KnowledgeAlways(setup, run[..|run| - 1]);
      KnowledgeStep(setup, After(setup, run[..|run| - 1]), run[|run| - 1]);
    }
  }

  // ---------------------------------------------------------------------- theorems

  /** Single writer: in every run, daemon and client together execute the mutation at most once. */
  lemma AtMostOnce(setup: Setup, run: seq<Step>)
    requires Legal(setup, run)
    ensures After(setup, run).daemonRuns + After(setup, run).localRuns <= 1
  {
    KnowledgeAlways(setup, run);
  }

  /** A client that holds `Unstarted` knows the daemon has not run the mutation, and that
      it never will: this holds in every state after the verdict too. */
  lemma UnstartedMeansNeverDispatched(setup: Setup, run: seq<Step>)
    requires Legal(setup, run) && After(setup, run).client == Judged(Unstarted)
    ensures After(setup, run).daemonRuns == 0
  {
    KnowledgeAlways(setup, run);
  }

  lemma {:induction false} VerdictIsFinal(setup: Setup, run: seq<Step>, more: seq<Step>)
    requires Legal(setup, run + more)
    ensures Legal(setup, run)
    ensures After(setup, run).client.Judged? ==> After(setup, run + more).client == After(setup, run).client
    decreases more
  {
    if more == [] {
      assert run + more == run;
    } else {
      var front := run + more[..|more| - 1];
      assert (run + more)[..|run + more| - 1] == front;
      VerdictIsFinal(setup, run, more[..|more| - 1]);
    }
  }

  /** Once a client holds `Unstarted`, no continuation lets the daemon run the mutation. */
  lemma UnstartedForever(setup: Setup, run: seq<Step>, more: seq<Step>)
    requires Legal(setup, run) && Legal(setup, run + more) && After(setup, run).client == Judged(Unstarted)
    ensures After(setup, run + more).daemonRuns == 0
  {
    VerdictIsFinal(setup, run, more);
    UnstartedMeansNeverDispatched(setup, run + more);
  }

  /** A settled caller tried to run the mutation here exactly when it was allowed to: an
      unrouted command, a hook with no daemon here, or an `Unstarted` verdict, and never a
      hook whose repository requires the daemon. */
  lemma RunsHereExactlyWhenAllowed(setup: Setup, run: seq<Step>)
    requires Legal(setup, run) && After(setup, run).ending != Open
    ensures var w := After(setup, run);
            && (w.ending in {RanHere, LockRefused} <==>
                  && (setup.caller.Hook? ==> !setup.caller.daemonRequired)
                  && (!setup.caller.UsesDaemon() || w.client == Judged(Unstarted)))
            && (w.localRuns == 1 <==> w.ending == RanHere)
            && (setup.caller.Hook? ==> w.ending != LockRefused)
  {
    KnowledgeAlways(setup, run);
  }

  lemma {:induction false} PrefixIsLegal(setup: Setup, run: seq<Step>, i: nat)
    requires Legal(setup, run) && i < |run|
    ensures Legal(setup, run[..i]) && Legal(setup, run[..i + 1])
    ensures Enabled(setup, After(setup, run[..i]), run[i])
    ensures After(setup, run[..i + 1]) == Apply(setup, After(setup, run[..i]), run[i])
    decreases |run|
  {
    if i + 1 == |run| {
      assert run[..i + 1] == run;
    } else {
      var shorter := run[..|run| - 1];
      PrefixIsLegal(setup, shorter, i);
      assert shorter[..i] == run[..i] && shorter[..i + 1] == run[..i + 1];
    }
  }

  /** The caller is free to run the mutation here: nobody else was asked, or the daemon never
      started it, and no policy forbids it. */
  predicate Allowed(caller: Caller, client: Client) {
    match caller
    case Cli(routed) => routed ==> client == Judged(Unstarted)
    case Hook(reachable, daemonRequired) => !daemonRequired && (reachable ==> client == Judged(Unstarted))
  }

  /** What settling decides.  A command that is allowed to runs here if it gets the writer lock
      and fails if it does not; a hook that is allowed to runs here.  Otherwise a success is
      reported, a hook skips the rest, and a command gives up on it. */
  predicate Decided(caller: Caller, client: Client, lockFree: bool, ending: Ending) {
    && (ending == RanHere <==> Allowed(caller, client) && (caller.Cli? ==> lockFree))
    && (ending == LockRefused <==> Allowed(caller, client) && caller.Cli? && !lockFree)
    && (ending == Reported <==> client == Judged(Succeeded))
    && (ending == Abandoned <==> caller.Cli? && caller.routed && client == Judged(Undetermined))
    && (ending == Skipped <==> caller.Hook? && !Allowed(caller, client) && client != Judged(Succeeded))
  }

  lemma SettlingDecides(setup: Setup, w: World, lockFree: bool)
    requires Enabled(setup, w, Settle(lockFree)) && ClientKnows(setup, w)
    ensures var t := Apply(setup, w, Settle(lockFree));
            && t == w.(ending := t.ending, localRuns := t.localRuns)
            && Decided(setup.caller, w.client, lockFree, t.ending)
            && t.ending != Open && t.localRuns == (if t.ending == RanHere then 1 else 0)
  {
    if w.client.Judged? {
      assert w.client == Judged(w.client.verdict);
      match w.client.verdict { case Succeeded => case Unstarted => case Undetermined => }
    }
  }

  /** In every run, settling decides just that and changes nothing else. */
  lemma SettleOutcome(setup: Setup, run: seq<Step>, i: nat)
    requires Legal(setup, run) && i < |run| && run[i].Settle?
    ensures Legal(setup, run[..i]) && Legal(setup, run[..i + 1])
    ensures var w, t := After(setup, run[..i]), After(setup, run[..i + 1]);
            && w.ending == Open && t == w.(ending := t.ending, localRuns := t.localRuns)
            && Decided(setup.caller, w.client, run[i].lockFree, t.ending)
            && t.localRuns == (if t.ending == RanHere then 1 else 0)
  {
    hide After, Legal, DaemonKnows, ClientKnows, Decided, Apply;
    PrefixIsLegal(setup, run, i);
    KnowledgeAlways(setup, run[..i]);
    SettlingDecides(setup, After(setup, run[..i]), run[i].lockFree);
  }

  lemma SettledStays(setup: Setup, w: World, step: Step)
    requires Enabled(setup, w, step) && ClientKnows(setup, w) && w.ending != Open
    ensures var t := Apply(setup, w, step);
            !step.Settle? && t.ending == w.ending && t.client == w.client
  {
  }

  lemma OnlySettlingEnds(setup: Setup, w: World, step: Step)
    requires Enabled(setup, w, step) && w.ending == Open
    ensures Apply(setup, w, step).ending == Open <==> !step.Settle?
  {
  }

  lemma StartIsOpen(setup: Setup)
    ensures Legal(setup, []) && After(setup, []) == Start
  {
  }

  lemma LastStep(setup: Setup, run: seq<Step>)
    requires Legal(setup, run) && run != []
    ensures var last := |run| - 1;
            && Legal(setup, run[..last]) && Enabled(setup, After(setup, run[..last]), run[last])
            && After(setup, run) == Apply(setup, After(setup, run[..last]), run[last])
            && ClientKnows(setup, After(setup, run[..last]))
            && (forall i :: 0 <= i < last ==> run[..last][i] == run[i])
  {
    hide ClientKnows, Enabled, Apply, DaemonKnows;
    KnowledgeAlways(setup, run[..|run| - 1]);
  }

  lemma {:induction false} OpenUntilSettled(setup: Setup, run: seq<Step>)
    requires Legal(setup, run) && After(setup, run).ending == Open
    ensures forall i :: 0 <= i < |run| ==> !run[i].Settle?
    decreases |run|
  {
    if run == [] { return; }
    hide After, Legal, DaemonKnows, ClientKnows, Enabled, Apply;
    var last := |run| - 1;
    LastStep(setup, run);
    if After(setup, run[..last]).ending != Open {
      SettledStays(setup, After(setup, run[..last]), run[last]);
      assert false;
    }
    OnlySettlingEnds(setup, After(setup, run[..last]), run[last]);
    OpenUntilSettled(setup, run[..last]);
  }

  /** An ended caller settled exactly once, and the lock at that step and the verdict it still
      holds tell how it ended. */
  lemma {:induction false} EndedBySettling(setup: Setup, run: seq<Step>) returns (at: nat)
    requires Legal(setup, run) && After(setup, run).ending != Open
    ensures at < |run| && run[at].Settle? && (forall i :: 0 <= i < |run| && run[i].Settle? ==> i == at)
    ensures Decided(setup.caller, After(setup, run).client, run[at].lockFree, After(setup, run).ending)
    decreases |run|
  {
    hide After, Legal, Enabled, Apply, DaemonKnows, ClientKnows, Decided;
    StartIsOpen(setup);
    var last := |run| - 1;
    LastStep(setup, run);
    var w := After(setup, run[..last]);
    if w.ending != Open {
      at := EndedBySettling(setup, run[..last]);
      SettledStays(setup, w, run[last]);
    } else {
      at := last;
      OpenUntilSettled(setup, run[..last]);
      OnlySettlingEnds(setup, w, run[last]);
      SettlingDecides(setup, w, run[last].lockFree);
    }
  }

  /** The client got the daemon's reply to its last byte. */
  predicate GotReply(w: World, bytes: nat) {
    w.daemon.Replied? && 1 <= |w.daemon.body| <= MAX_MESSAGE_BYTES && bytes == 4 + |w.daemon.body|
  }

  /** The frame, its header and all of its body, is out. */
  predicate WholeFrameSent(setup: Setup, w: World) {
    |setup.body| < U32_LIMIT && w.sent == 4 + |setup.body|
  }

  /** Where verdicts come from.  `Unstarted`: the exchange could not start, a send failed
      before the last byte of the frame was out, or the whole reply is an error with a code
      other than the one for failures after dispatch.  `Succeeded`: the whole reply is a result
      of the expected type.  Anything else that ends the exchange is `Undetermined`. */
  lemma VerdictOutcome(setup: Setup, run: seq<Step>, i: nat)
    requires Legal(setup, run) && i < |run|
    ensures Legal(setup, run[..i]) && Legal(setup, run[..i + 1])
    ensures var w, t, step := After(setup, run[..i]), After(setup, run[..i + 1]), run[i];
            && (t.client.Judged? && !w.client.Judged? <==>
                  step.CannotStart? || step.SendFails? || step.ReadAnswer? || step.AnswerTimeout?)
            && (w.client.Judged? ==> t.client == w.client)
            && (t.client == Judged(Unstarted) && w.client != Judged(Unstarted) <==>
                  || step.CannotStart?
                  || (step.SendFails? && !WholeFrameSent(setup, w))
                  || (step.ReadAnswer? && GotReply(w, step.bytes)
                      && exists code :: code != -32603 && setup.parse(w.daemon.body) == ErrorReply(Some(code))))
            && (t.client == Judged(Succeeded) && w.client != Judged(Succeeded) <==>
                  step.ReadAnswer? && GotReply(w, step.bytes) && setup.parse(w.daemon.body) == ResultReply(true))
  {
    PrefixIsLegal(setup, run, i);
    KnowledgeAlways(setup, run[..i]);
    hide After, Legal;
    var w, step := After(setup, run[..i]), run[i];
    if step.ReadAnswer? {
      AnswerRead(setup, w, step.bytes);
      if GotReply(w, step.bytes) { RefusalCode(setup.parse(w.daemon.body)); }
    }
  }

  lemma RefusalCode(e: Envelope)
    ensures Judge(e) == Unstarted <==> exists code :: code != -32603 && e == ErrorReply(Some(code))
  {
  }

  lemma AnswerRead(setup: Setup, w: World, n: nat)
    requires n <= |ReplyWire(w)|
    ensures ResponseIn(ReplyWire(w)[..n]).Body? <==> GotReply(w, n)
    ensures GotReply(w, n) ==> ResponseIn(ReplyWire(w)[..n]).bytes == w.daemon.body
  {
    if ResponseIn(ReplyWire(w)[..n]).Body? {
      ReadAnswerIsReply(w, n);
      var body := w.daemon.body;
      if n < |ReplyWire(w)| { CutFrameIsNoMessage(body, n); }
      HeaderRoundTrip(|body|);
      assert ReplyWire(w)[..n] == Frame(body) + [];
    }
    if GotReply(w, n) {
      var body := w.daemon.body;
      assert ReplyWire(w)[..n] == Frame(body) + [];
      DecodeIffFrame(ReplyWire(w)[..n], body, []);
    }
  }

  /** `Undetermined` cannot be sharpened: when the deadline fires after delivery, the same
      client history is compatible with the daemon running the mutation later. */
  lemma TimeoutLeavesItOpen(setup: Setup)
    requires setup.caller.UsesDaemon() && 1 <= |setup.body| <= MAX_MESSAGE_BYTES
    ensures var run := [Connect, Push(|setup.Wire()|), SendDone, AnswerTimeout];
            && Legal(setup, run)
            && After(setup, run).client == Judged(Undetermined) && After(setup, run).daemonRuns == 0
            && Legal(setup, run + [Pull(|setup.Wire()|)] + [Dispatch])
            && After(setup, run + [Pull(|setup.Wire()|)] + [Dispatch]).daemonRuns == 1
  {
    var n := |setup.Wire()|;
    WireIsMessage(setup);
    StartIsOpen(setup);
    hide Legal, After, Decode;
    Extend(setup, [], Connect);
    var run1 := [] + [Connect];
    Extend(setup, run1, Push(n));
    Extend(setup, run1 + [Push(n)], SendDone);
    var run3 := run1 + [Push(n)] + [SendDone];
    Extend(setup, run3, AnswerTimeout);
    var run := run3 + [AnswerTimeout];
    assert run == [Connect, Push(n), SendDone, AnswerTimeout];
    Extend(setup, run, Pull(n));
    Extend(setup, run + [Pull(n)], Dispatch);
  }

  lemma WireIsMessage(setup: Setup)
    requires 1 <= |setup.body| <= MAX_MESSAGE_BYTES
    ensures var n := |setup.Wire()|; n == 4 + |setup.body| && Decode(setup.Wire()[..n]).Message?
  {
    var n := |setup.Wire()|;
    assert setup.Wire()[..n] == Frame(setup.body) + [];
    DecodeIffFrame(setup.Wire()[..n], setup.body, []);
  }

  /** The exchange up to the daemon's whole reply, read back. */
  function Exchange(setup: Setup, served: seq<Step>, reply: seq<Byte>): seq<Step> {
    [Connect, Push(|setup.Wire()|), SendDone, Pull(|setup.Wire()|)] + served + [ReadAnswer(4 + |reply|)]
  }

  lemma Delivered(setup: Setup)
    requires setup.caller.UsesDaemon() && 1 <= |setup.body| <= MAX_MESSAGE_BYTES
    ensures var run := [Connect, Push(|setup.Wire()|), SendDone, Pull(|setup.Wire()|)];
            && Legal(setup, run)
            && After(setup, run) == World(Awaiting, |setup.Wire()|, true, |setup.Wire()|, Reading, 0, 0, Open)
            && Decode(setup.Wire()[..|setup.Wire()|]).Message?
  {
    var n := |setup.Wire()|;
    WireIsMessage(setup);
    StartIsOpen(setup);
    hide Legal, After, Decode;
    Extend(setup, [], Connect);
    var run1 := [] + [Connect];
    Extend(setup, run1, Push(n));
    Extend(setup, run1 + [Push(n)], SendDone);
    var run3 := run1 + [Push(n)] + [SendDone];
    Extend(setup, run3, Pull(n));
    assert run3 + [Pull(n)] == [Connect, Push(n), SendDone, Pull(n)];
  }

  lemma ReplyRead(setup: Setup, w: World, reply: seq<Byte>)
    requires 1 <= |reply| <= MAX_MESSAGE_BYTES && w.client == Awaiting && w.daemon == Replied(reply)
    ensures Enabled(setup, w, ReadAnswer(4 + |reply|))
    ensures Apply(setup, w, ReadAnswer(4 + |reply|)) == w.(client := Judged(Judge(setup.parse(reply))))
  {
    assert GotReply(w, 4 + |reply|);
    AnswerRead(setup, w, 4 + |reply|);
  }

  /** A daemon that declines before dispatch leaves the command to its caller: it runs here
      when the lock is free, and only here. */
  lemma RefusedRunsHere(setup: Setup, reply: seq<Byte>, lockFree: bool)
    requires setup.caller == Cli(true) && 1 <= |setup.body| <= MAX_MESSAGE_BYTES
    requires 1 <= |reply| <= MAX_MESSAGE_BYTES && exists code :: code != -32603 && setup.parse(reply) == ErrorReply(Some(code))
    ensures var run := Exchange(setup, [Refuse(reply)], reply) + [Settle(lockFree)];
            && Legal(setup, run)
            && After(setup, run).ending == (if lockFree then RanHere else LockRefused)
            && After(setup, run).localRuns == (if lockFree then 1 else 0) && After(setup, run).daemonRuns == 0
  {
    hide Legal, After, Judge, Decode;
    var sent := [Connect, Push(|setup.Wire()|), SendDone, Pull(|setup.Wire()|)];
    Delivered(setup);
    RefusalCode(setup.parse(reply));
    Extend(setup, sent, Refuse(reply));
    ReplyRead(setup, After(setup, sent + [Refuse(reply)]), reply);
    Extend(setup, sent + [Refuse(reply)], ReadAnswer(4 + |reply|));
    Extend(setup, Exchange(setup, [Refuse(reply)], reply), Settle(lockFree));
  }

  /** A daemon that runs the mutation and says so is all there is to it: success is reported
      and nothing runs here, lock or no lock. */
  lemma ServedIsReported(setup: Setup, reply: seq<Byte>, lockFree: bool)
    requires setup.caller.UsesDaemon() && 1 <= |setup.body| <= MAX_MESSAGE_BYTES
    requires 1 <= |reply| <= MAX_MESSAGE_BYTES && setup.parse(reply) == ResultReply(true)
    ensures var run := Exchange(setup, [Dispatch, Finish(reply)], reply) + [Settle(lockFree)];
            && Legal(setup, run)
            && After(setup, run).ending == Reported
            && After(setup, run).localRuns == 0 && After(setup, run).daemonRuns == 1
  {
    hide Legal, After, Decode;
    var sent := [Connect, Push(|setup.Wire()|), SendDone, Pull(|setup.Wire()|)];
    Delivered(setup);
    Extend(setup, sent, Dispatch);
    Extend(setup, sent + [Dispatch], Finish(reply));
    var served := sent + [Dispatch] + [Finish(reply)];
    ReplyRead(setup, After(setup, served), reply);
    Extend(setup, served, ReadAnswer(4 + |reply|));
    assert served + [ReadAnswer(4 + |reply|)] == Exchange(setup, [Dispatch, Finish(reply)], reply);
    Extend(setup, Exchange(setup, [Dispatch, Finish(reply)], reply), Settle(lockFree));
  }

  lemma Extend(setup: Setup, run: seq<Step>, step: Step)
    requires Legal(setup, run) && Enabled(setup, After(setup, run), step)
    ensures Legal(setup, run + [step]) && After(setup, run + [step]) == Apply(setup, After(setup, run), step)
  {
    assert (run + [step])[..|run|] == run;
  }

  // ------------------------------------------------------------- the client's own code

  /** What came back is a whole reply that declines before dispatch. */
  ghost predicate Declined(incoming: seq<Byte>, parse: seq<Byte> -> Envelope) {
    ResponseIn(incoming).Body?
    && exists code :: code != -32603 && parse(ResponseIn(incoming).bytes) == ErrorReply(Some(code))
  }

  /** What came back is a whole reply with a result of the expected type. */
  ghost predicate Accepted(incoming: seq<Byte>, parse: seq<Byte> -> Envelope) {
    ResponseIn(incoming).Body? && parse(ResponseIn(incoming).bytes) == ResultReply(true)
  }

  /** `call_connected`: one request, one response, one verdict.  The stream's budget is how
      far the write gets before an error or the deadline; its incoming bytes end where the
      daemon's, or the deadline, ends them. */
  method CallConnected(stream: Stream, body: seq<Byte>, flushOk: bool, parse: seq<Byte> -> Envelope)
    returns (verdict: Verdict)
    modifies stream
    ensures |body| < U32_LIMIT ==>
      exists cut :: 0 <= cut <= |Frame(body)| && stream.outgoing == old(stream.outgoing) + Frame(body)[..cut]
    ensures verdict == Unstarted <==>
      || |body| >= U32_LIMIT
      || stream.outgoing != old(stream.outgoing) + Frame(body)
      || (flushOk && Declined(Flatten(old(stream.incoming)), parse))
    ensures verdict == Succeeded <==>
      && |body| < U32_LIMIT
      && stream.outgoing == old(stream.outgoing) + Frame(body)
      && flushOk && Accepted(Flatten(old(stream.incoming)), parse)
  {
    var ok, delivered := stream.SendRequest(body, flushOk);
    if !ok {
      return JudgeSend(delivered);
    }
    var response := stream.ReadResponse();
    if !response.Body? { return Undetermined; }
    var envelope := parse(response.bytes);
    match envelope {
      case NotJson => verdict := Undetermined;
      case ErrorReply(code) =>
        var effective := if code.Some? then code.value else DISPATCHED_ERROR_CODE;
        verdict := if effective == DISPATCHED_ERROR_CODE then Undetermined else Unstarted;
      case ResultReply(decodes) => verdict := if decodes then Succeeded else Undetermined;
      case NoResult => verdict := Undetermined;
    }
  }

  /** The routing block of `run_cli`: send, and on `Unstarted` alone take the writer lock
      and run the command here. */
  method RouteCli(routed: bool, reached: bool, stream: Stream, body: seq<Byte>, flushOk: bool,
                  parse: seq<Byte> -> Envelope, lockFree: bool)
    returns (ending: Ending, verdict: Option<Verdict>)
    modifies stream
    ensures verdict.Some? <==> routed
    ensures ending == RanHere <==> (routed ==> verdict == Some(Unstarted)) && lockFree
    ensures ending == LockRefused <==> (routed ==> verdict == Some(Unstarted)) && !lockFree
    ensures ending == Reported <==> verdict == Some(Succeeded)
    ensures ending == Abandoned <==> verdict == Some(Undetermined)
    ensures ending == EndingOf(Cli(routed), if routed then Judged(verdict.value) else Preparing, lockFree)
    ensures !routed || !reached ==> stream.outgoing == old(stream.outgoing)
    ensures routed && !reached ==> verdict == Some(Unstarted)
    ensures routed && reached ==>
      && (verdict == Some(Unstarted) <==>
            || |body| >= U32_LIMIT || stream.outgoing != old(stream.outgoing) + Frame(body)
            || (flushOk && Declined(Flatten(old(stream.incoming)), parse)))
      && (verdict == Some(Succeeded) <==>
            && |body| < U32_LIMIT && stream.outgoing == old(stream.outgoing) + Frame(body)
            && flushOk && Accepted(Flatten(old(stream.incoming)), parse))
  {
    verdict := None;
    if routed {
      var answer := Unstarted;
      if reached {
        answer := CallConnected(stream, body, flushOk, parse);
      }
      verdict := Some(answer);
      match answer {
        case Succeeded => return Reported, verdict;
        case Undetermined => return Abandoned, verdict;
        case Unstarted =>
      }
    }
    ending := if lockFree then RanHere else LockRefused;
  }

  /** The routing block of `run_hook`. */
  method RouteHook(reachable: bool, daemonRequired: bool, reached: bool, stream: Stream, body: seq<Byte>,
                   flushOk: bool, parse: seq<Byte> -> Envelope)
    returns (ending: Ending, verdict: Option<Verdict>)
    modifies stream
    ensures verdict.Some? <==> reachable
    ensures ending == RanHere <==> !daemonRequired && (reachable ==> verdict == Some(Unstarted))
    ensures ending == Reported <==> verdict == Some(Succeeded)
    ensures ending in {RanHere, Reported, Skipped}
    ensures ending == EndingOf(Hook(reachable, daemonRequired), if reachable then Judged(verdict.value) else Preparing, true)
    ensures !reachable || !reached ==> stream.outgoing == old(stream.outgoing)
    ensures reachable && !reached ==> verdict == Some(Unstarted)
    ensures reachable && reached ==>
      && (verdict == Some(Unstarted) <==>
            || |body| >= U32_LIMIT || stream.outgoing != old(stream.outgoing) + Frame(body)
            || (flushOk && Declined(Flatten(old(stream.incoming)), parse)))
      && (verdict == Some(Succeeded) <==>
            && |body| < U32_LIMIT && stream.outgoing == old(stream.outgoing) + Frame(body)
            && flushOk && Accepted(Flatten(old(stream.incoming)), parse))
  {
    if !reachable {
      return (if daemonRequired then Skipped else RanHere), None;
    }
    var answer := Unstarted;
    if reached {
      answer := CallConnected(stream, body, flushOk, parse);
    }
    verdict := Some(answer);
    match answer {
      case Succeeded => ending := Reported;
      case Unstarted => ending := if daemonRequired then Skipped else RanHere;
      case Undetermined => ending := Skipped;
    }
  }
}
