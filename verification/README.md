# Verification models for mdkb

Dafny models of the parts of mdkb whose correctness depends on several functions, several
processes or every input at once, with proofs of what those parts promise. `dafny verify
dfyconfig.toml` checks everything.

Code that updates state in place (the proxy loop, the socket code, the config collector) is
written as classes and methods with loops, each proved against a specification function; the
theorems are lemmas about those functions and about whole runs. Code that only computes is
written as functions.

## What is modelled

- **`McpProxy`, `ProxyConservation`, `ProxyAnswers`, `ProxyOrder`, `ProxyHandshake`,
  `ProxySockets`, `ProxyOutcomes`, `ProxyLoop`**: the stdio proxy of `mdkb mcp`. `McpProxy` is a transition system over client
  lines, reader tasks, connections numbered by generation, the event channel, the in-flight
  table and the stored handshake, with a log of everything read, written, forwarded and
  failed. A run is any sequence of enabled actions, so every schedule, every cut connection
  and every failed reconnect is covered. `ProxyLoop.Proxy` holds the same state in fields and
  is proved to take only runs of that system. Requests, notifications and responses are told
  apart as in sections 4, 4.1 and 5 of JSON-RPC 2.0.
- **`Frames`, `MutationRouting`**: the length-prefixed hook socket and the single-writer
  routing of a mutation. The client, the daemon's connection handler and the caller's
  fallback interleave freely: the write may be cut after any byte, the deadline may fire at
  any time, and the daemon may vanish at any time. The daemon side follows
  `src/daemon/ipc_server.rs:365-409`: it dispatches only after reading a whole frame. It also
  follows the rule stated at `src/daemon/hook_runtime.rs:73-84`: an error code other than
  the dispatched one means that nothing was dispatched.
- **`ShellWords`, `BareCommands`, `GrepPattern`**: how a shell command is unwrapped, split
  into pipeline sources, tokenized, and read as a `grep` or `rg` search. A printer that may
  quote each word in any way and put any run of blanks between words is defined in the model,
  and the readers are proved to undo it. `BareCommands` fixes one way to quote and says
  exactly which prints that are not wrapped pass for a wrapper.
- **`Anchoring`**: where a `.mdkb` store is anchored. Paths are component sequences and the
  file system is three functions (what `.git` is, whether there is a store, the children).
- **`GitLog`**: the two parsers of `git log` output and the printed forms they undo.
- **`SignTest`, `Wilson`, `CleanThreshold`, `RankFusion`**: the statistics of the recall
  evaluation, over exact integers and reals. The square root in `Wilson` is any non-negative
  real with the right square.
- **`CallResolution`**: the tier rule, the resolution query and the pair count of the
  call-graph measurement, over four tables with SQL's `NULL` as `None`.
- **`UnknownKeys`**: which keys of a config file no schema field reads.
- **`Bullets`**: the journal's bullet points and the list the importer prints.
- **`Text`, `Wrappers`**: Rust's `trim` and `lines`, and the option type.

## Where the code and its promises differ

- `src/cli/mcp_proxy.rs:127-131` answers what is in flight when a write fails, but the
  generation advances only at the next reconnect, so a reply that is still queued is forwarded
  as a second answer. `ProxyAnswers.AtMostOneAnswerIffNeverLate` says exactly when this
  happens, and `WriteFailureAnswersTwice` is a run in which it does.
- `src/git.rs:258-260` says nothing can collide with a commit hash. A file whose name is 40
  hex digits does; `GitLog.GroupsRoundTrip` holds if and only if there is none.
- `src/git.rs:535-541` promises that no anchor outside a repository over-anchors. The guard
  looks at the hint before a linked worktree collapses to its main root;
  `Anchoring.OutsideAnchorGuard` gives the exact exception and `HintedWorktreeCanBeTooWide`
  an instance.
- `src/cli/hook_logic.rs:562-592` can take a bare command such as `'a/zsh -c b'` for a shell
  wrapper. `ShellWords.UnwrapIff` says exactly which texts it takes for one, and every other
  bare command is read back, however it is quoted (`UnwrappedCommandIsRead`). For commands
  with every word in quotes `BareCommands.MistakenIff` gives the guard in terms of the words:
  the first token that holds a blank has no blank before it on the line, what precedes its own
  first blank is a path with a slash whose last part is a shell's name, and a command flag
  follows. Every command with arguments whose first word holds no blank, such as
  `'grep' 'foo bar' 'src'`, misses it (`BareInvocationIsRead`). A command that meets it is
  misread, if no filter token holds a slash (`BareCommandIsReadIff`). Inside a wrapper every
  command is read (`ShellWords.WrappedCommandIsRead`).
- `src/cli/journal.rs:151-155` slices two bytes off a line that starts with the three-byte
  round marker and panics there; `Bullets.ExtractPanicsIff` says exactly when.
- `scripts/eval-recall-options/lib.py:33` is meant to be the lowest grid step that admits no
  negative. Rounding to nine digits first can carry the value over a step it falls just short
  of; `CleanThreshold.LowestStepIff` gives the exact condition. The grid comes
  from the command line; on a negative one the threshold admits the highest negative
  (`ThresholdIsCleanIff`).
- `scripts/eval-recall-options/a3.py:10-17` lets a document that one leg lists twice overtake
  one listed above it (`RankFusion.RepetitionOvertakes`); repetitions do
  no harm when each occurrence of the lower one is matched by an earlier one of the higher
  (`DominanceIsKept`).
- `src/config.rs:361-365` joins keys with dots, so a quoted key that holds a dot can print like
  another path (`UnknownKeys.DottedKeysCollide`); `ReportedTextsDistinctIff` says exactly when.
- `src/git.rs:600-603` presents the root as immune to where it is resolved from. A root taken
  from a hint need not resolve to itself; `Anchoring.ResolveIsIdempotentIff` says exactly when.

## Model

| member | source | states |
|---|---|---|
| McpProxy.ShapeAlways | src/cli/mcp_proxy.rs:91-161 | In every run a live connection carries the current generation, no event is from a later one, and without a connection nothing is in flight. |
| ProxyConservation.ConservedAlways | src/cli/mcp_proxy.rs:99-152 | In every run, with no assumption on client or daemon, the in-flight table holds exactly the ids asked and not answered on stdout since. |
| ProxyConservation.AcceptedIsInFlightOrAnswered | src/cli/mcp_proxy.rs:266-337 | With fresh ids and no answer before its question, the accepted ids are the disjoint union of the in-flight table and the ids answered on stdout. |
| ProxyConservation.NothingHangsDisconnected | src/cli/mcp_proxy.rs:113-131 | Whenever there is no connection, every request read so far has an answer later in the output, so none hangs after a disconnect or a failed reconnect. |
| ProxyAnswers.HonestAnswersFollow | src/cli/mcp_proxy.rs:221-244 | A daemon that answers only requests it received on the same connection never makes the proxy answer before the question, in any run. |
| ProxyAnswers.AtMostOneAnswerIffNeverLate | src/cli/mcp_proxy.rs:127-157 | With fresh ids and an honest daemon, no id gets two answers if and only if no response of a dropped connection is still queued when its turn comes. |
| ProxyAnswers.AtMostOneAnswerWhenClosed | src/cli/mcp_proxy.rs:226-243 | When no write fails, so that every connection ends by its closing event, which is the last of its generation, no id is answered twice. |
| ProxyAnswers.WriteFailureAnswersTwice | src/cli/mcp_proxy.rs:127-147 | A legal run with an honest daemon and fresh ids in which one id is answered twice after a failed write. |
| ProxyOrder.EveryLineSettlesOnceInOrder | src/cli/mcp_proxy.rs:93-132 | In every run the lines the client sends, in order, are exactly the lines read and the lines written once to one connection or refused by a failed reconnect. |
| ProxyOrder.WritesAreASubsequence | src/cli/mcp_proxy.rs:102-132 | The client lines written over all connections are a subsequence of the input, and the number missing is the number refused. |
| ProxyOrder.OlderEventsChangeNothing | src/cli/mcp_proxy.rs:154-157 | In every run an event whose generation is not the current one is older, and taking it changes nothing but the channel. |
| ProxyOrder.ForwardedByConnection | src/cli/mcp_proxy.rs:138-147 | In every run the daemon lines on stdout are, connection by connection in opening order, prefixes of what each reader reported. |
| ProxyHandshake.ConnectionsStartWithHandshake | src/cli/mcp_proxy.rs:181-212 | Every connection opened after both handshake messages were seen starts with the latest initialize and initialized and then exactly the client lines written to it; the reply to the replay was a success and never reaches stdout. |
| ProxySockets.FailedDialsCarryNoClientLine | src/cli/mcp_proxy.rs:170-212 | A connection attempt that fails has sent at most the beginning of the greeting due then and no client line, and nothing it answered reaches stdout. |
| ProxyOutcomes.LineOutcome | src/cli/mcp_proxy.rs:93-133 | In every run a client line goes to the live connection or, with none, to the next generation if the daemon lets the proxy in, which takes the whole handshake once both messages were seen, and is refused otherwise; a failed write or a refusal leaves no connection and answers every id asked with one error. |
| ProxyOutcomes.RefusedIffNotLetIn | src/cli/mcp_proxy.rs:102-121 | In every run a line is refused if and only if there is no connection and its dial lacks the stream or, with both handshake messages seen, a step of the handshake. |
| ProxyOutcomes.EventOutcome | src/cli/mcp_proxy.rs:134-159 | In every run an event of the live connection puts its line on stdout and clears the id it answers, or drops the connection and answers every id asked with one error; one of an older connection changes nothing. |
| ProxyOutcomes.ReaderOutcome | src/cli/mcp_proxy.rs:221-244 | In every run a reader still open reports what it read, in order, on its own generation, and nothing after its end. |
| ProxyLoop.Proxy.TrackRequest | src/cli/mcp_proxy.rs:268-284 | The table gains exactly the id of a line with a method and a non-null id. |
| ProxyLoop.Proxy.ClearResponse | src/cli/mcp_proxy.rs:287-302 | The table loses exactly the id of a line with a result or an error. |
| ProxyLoop.Proxy.FlushPendingErrors | src/cli/mcp_proxy.rs:306-337 | Draining the table in some order answers each pending id once and leaves the table empty. |
| ProxyLoop.Proxy.ConnectSocket | src/cli/mcp_proxy.rs:164-219 | The attempt succeeds if and only if there is a stream and, when both handshake messages are stored, both replays go out and a reply with the request's id, a result and no error comes back; and what crosses the socket, for every way it can go. |
| ProxyLoop.Proxy.HandleClientLine | src/cli/mcp_proxy.rs:93-133 | The client branch of the loop takes exactly one client step of the transition system. |
| ProxyLoop.Proxy.HandleEvent | src/cli/mcp_proxy.rs:134-159 | The event branch of the loop takes exactly one event step of the transition system. |
| ProxyLoop.Proxy.ReaderTurn | src/cli/mcp_proxy.rs:221-244 | One turn of a reader task reports one line, or the end once and for all. |
| ProxyLoop.Proxy.RunProxyIo | src/cli/mcp_proxy.rs:78-162 | Under any schedule the loop in place performs a legal run of the transition system that does what the schedule asks for, in order, skipping only what is not possible; every scheduled client line is read and settled once, in order. |
| Frames.HeaderRoundTrip | src/cli/hook_client.rs:552-565 | Every length below 2^32 is read back from its little-endian header. |
| Frames.HeaderInjective | src/cli/hook_client.rs:563-565 | Every four bytes are the header of exactly the length they decode to. |
| Frames.DecodeIffFrame | src/cli/hook_client.rs:547-575 | A reader obtains a message if and only if the stream starts with the whole frame of a body of 1 byte to 4 MiB, and then obtains that body. |
| Frames.CutFrameIsNoMessage | src/cli/hook_client.rs:536-545 | No strict prefix of a frame, of any body, decodes to a message. |
| Frames.FramesRoundTrip | src/daemon/ipc_server.rs:371-385 | A stream of whole frames followed by one cut anywhere is read back as exactly the whole ones. |
| Frames.Stream.ReadResponse | src/cli/hook_client.rs:562-575 | However the bytes are chunked, the answer depends only on their concatenation and is the decoder's. |
| Frames.Stream.SendRequest | src/cli/hook_client.rs:547-558 | What goes out is always a prefix of the frame, and `delivered` is set if and only if it is the whole frame. |
| MutationRouting.AtMostOnce | src/cli/hook_client.rs:650-723 | In every interleaving, cut and timeout, daemon and client together execute the mutation at most once. |
| MutationRouting.UnstartedMeansNeverDispatched | src/cli/hook_client.rs:589-603 | A client holding `Unstarted` knows that the daemon has not dispatched the mutation. |
| MutationRouting.UnstartedForever | src/cli/hook_client.rs:592-597 | Nothing that can happen after that verdict makes the daemon dispatch it. |
| MutationRouting.VerdictIsFinal | src/cli/hook_client.rs:675-722 | Once reached, a verdict stays the same in every continuation. |
| MutationRouting.RunsHereExactlyWhenAllowed | src/cli/hook_client.rs:284-334 | A settled caller ran or tried to run the mutation in process exactly when unrouted, without a daemon here, or holding `Unstarted`, and never for a hook whose repository requires the daemon. |
| MutationRouting.SettleOutcome | src/main.rs:390-432 | In every run, settling makes an allowed command run here if and only if it gets the writer lock and fail if and only if it does not, an allowed hook run here, a success reported, any other hook skip and any other command give up; and nothing else changes. |
| MutationRouting.EndedBySettling | src/cli/hook_client.rs:284-334 | In every run an ended caller settled exactly once, and the lock at that step and the verdict it still holds decide how it ended. |
| MutationRouting.VerdictOutcome | src/cli/hook_client.rs:650-723 | In every run `Unstarted` is reached exactly by not starting, by a send that fails before the last byte of the frame, or by a whole reply with an error code other than -32603, and success exactly by a whole reply with a result of the expected type. |
| MutationRouting.RefusedRunsHere | src/main.rs:390-432 | A run in which the daemon declines ends with the command run here, and only here, when the lock is free, and with a lock failure when it is not. |
| MutationRouting.ServedIsReported | src/cli/hook_client.rs:286-334 | A run in which the daemon serves the mutation ends with it reported and run only there. |
| MutationRouting.TimeoutLeavesItOpen | src/cli/hook_client.rs:598-602 | `Undetermined` is necessary: after delivery and a timeout the daemon can still dispatch the mutation. |
| MutationRouting.CallConnected | src/cli/hook_client.rs:650-723 | The verdict is `Unstarted` if and only if the whole frame did not go out or the answer is a refusal, and success if and only if a well-typed result came back. |
| MutationRouting.RouteCli | src/main.rs:390-432 | An unrouted command, or one whose verdict is `Unstarted`, runs in process if and only if the writer lock is free and fails on the lock otherwise; a success is reported and an unknown outcome given up on. The verdict of a command that reached the daemon is as `CallConnected` says. |
| MutationRouting.RouteHook | src/cli/hook_client.rs:286-334 | A hook runs in process if and only if the repository does not require the daemon and none is here or the verdict is `Unstarted`; it reports if and only if the verdict is success, and otherwise skips. |
| ShellWords.TokenizeShell | src/cli/hook_logic.rs:386-420 | The character loop computes the recursive tokenizer on every input. |
| ShellWords.PipelineSources | src/cli/hook_logic.rs:513-560 | The character loop computes the recursive splitter on every input. |
| ShellWords.UnwrapShellC | src/cli/hook_logic.rs:566-592 | The flag loop computes the recursive unwrapping on every input. |
| ShellWords.ReadSources | src/cli/hook_logic.rs:598-606 | Unwrapping, splitting, trimming and tokenizing in that order yield the parse of the script the command carries. |
| ShellWords.PaddedStageIsRead | src/cli/hook_logic.rs:602-606 | A stage, its words quoted in any way and any blanks between and around them, is trimmed and tokenized back to its tokens, whatever they hold. |
| ShellWords.ParseUndoesPrint | src/cli/hook_logic.rs:506-560 | For any statements of any stages of any tokens, quoted in any way, with any blanks, joined by `;`, `&&` or `\|\|`, the parse is exactly the first stage of each statement in order. |
| ShellWords.OpenQuoteRunsOn | src/cli/hook_logic.rs:386-420 | A quote that is never closed runs to the end of the command, operators and blanks included, and its word loses only the blanks at the very end. |
| ShellWords.UnwrapIff | src/cli/hook_logic.rs:566-585 | A command is unwrapped if and only if it starts with the path of one of the five shells and flags up to one that carries a `c`, whatever the blanks. |
| ShellWords.UnwrapKeepsUnquoted | src/cli/hook_logic.rs:585-592 | A script that is not quoted as a whole comes back as it is, without the blanks around it. |
| ShellWords.UnwrapStripsExactly | src/cli/hook_logic.rs:562-592 | Any script at all comes back unchanged from any wrapper of the form `zsh -lc "..."`, with any shell path, flags, quote and runs of blanks. |
| ShellWords.WrappedCommandIsRead | src/cli/hook_logic.rs:598-606 | The whole front end reads a wrapped printed command as its first stages, without exception. |
| ShellWords.UnwrappedCommandIsRead | src/cli/hook_logic.rs:598-606 | So is every bare printed command, quoted in any way, that is not taken for a wrapper. |
| BareCommands.MistakenIff | src/cli/hook_logic.rs:566-592 | A bare command printed with every word in quotes is taken for a wrapper if and only if its first token with a blank has none before it on the line, begins with a slashed path of a shell up to its own first blank, and a command flag follows. |
| BareCommands.BareCommandIsRead | src/cli/hook_logic.rs:598-606 | Every other command so printed, of any statements, stages and tokens, is read as its first stages. |
| BareCommands.BareInvocationIsRead | src/cli/hook_logic.rs:598-606 | So is every one whose first stage has a first word without a blank and an argument, whatever else it holds. |
| BareCommands.BareWordsAreRead | src/cli/hook_logic.rs:598-606 | So is every one of whose tokens none holds a blank. |
| BareCommands.BareCommandIsReadIff | src/cli/hook_logic.rs:598-606 | When no filter token holds a slash, a command so printed is read back if and only if it is not taken for a wrapper. |
| BareCommands.QuotedTokenPassesForWrapper | src/cli/hook_logic.rs:567-590 | A family of bare commands, one quoted token each, that are mistaken for a wrapper. |
| GrepPattern.ExtractGrepPattern | src/cli/hook_logic.rs:430-504 | The index loop computes the recursive scan and its outcome on every token list. |
| GrepPattern.SearchIsRead | src/cli/hook_logic.rs:439-504 | In whatever order the arguments come, a tool searches if and only if it has a pattern and, unless recursive, a target; the pattern is the last one a flag gives and the path the first positional, or without such a flag the first and the second positional. |
| GrepPattern.FilterIsNoSearch | src/cli/hook_logic.rs:498-503 | A `grep` is no search exactly when it has no pattern, or one operand and no recursion. |
| GrepPattern.EveryTokensAreMeant | src/cli/hook_logic.rs:443-487 | Every token list at all is the print of such arguments, so the two theorems speak of every command. |
| Anchoring.FindGitRootLoop | src/git.rs:448-457 | The upward loop computes the recursive walk to the repository root. |
| Anchoring.FindStoreWithinLoop | src/git.rs:463-475 | The bounded upward loop computes the recursive walk. |
| Anchoring.FindProjectStoreAboveLoop | src/git.rs:562-578 | The guarded upward loop computes the recursive walk. |
| Anchoring.GitRootIsNearest | src/git.rs:445-457 | The repository root is the deepest directory at or above the start with a `.git`, and none is found only when there is none. |
| Anchoring.StoreWithinIsNearest | src/git.rs:459-475 | The store found is the deepest one between the boundary and the start, and none is found only when there is none. |
| Anchoring.ProjectStoreIsNearest | src/git.rs:554-578 | A store is adopted outside a repository if and only if it is the nearest one at or above and is neither at home or above nor beside a child with a `.git` of any kind. |
| Anchoring.LinkedWorktreeIff | src/git.rs:16-87 | A root collapses to a main root if and only if its `.git` file names the worktrees of a directory with a `.git` directory. |
| Anchoring.AnchorInsideRepository | src/git.rs:604-613 | Inside a repository the anchor lies between root and working directory and is the deepest store there, or the root itself. |
| Anchoring.DriftImmunity | src/git.rs:600-616 | Without a hint every directory between anchor and working directory has the same anchor and resolves to the same root. |
| Anchoring.ResolveIsIdempotentIff | src/git.rs:543-616 | Resolving a resolved root without a hint returns it, also after a linked worktree collapsed, if and only if the root was not taken from a hint, or that hint is a linked worktree or its own anchor. |
| Anchoring.ResolveIsIdempotent | src/git.rs:604-616 | So a root resolved without a hint always resolves to itself. |
| Anchoring.WorktreesShareTheMainRoot | src/git.rs:600-603 | A linked worktree without its own store resolves to what its main worktree resolves to. |
| Anchoring.OutsidePriority | src/git.rs:531-552 | Outside a repository the adopted store wins as it is; without one the hint, else the working directory, which is refused if and only if it is too wide and gives way to its main root if and only if it is a linked worktree. |
| Anchoring.OutsideAnchorGuard | src/git.rs:543-552 | Outside a repository a returned anchor is too wide if and only if no store was adopted and the hint is a linked worktree of a main root that is too wide. |
| Anchoring.OutsideAnchorNeverTooWide | src/git.rs:531-552 | With no hint, or one that is not a linked worktree, a returned anchor is never home or above nor a directory that holds repositories. |
| Anchoring.HintedWorktreeCanBeTooWide | src/git.rs:548-551 | A file system on which the exception occurs. |
| Anchoring.RegistersOnlyProjects | src/git.rs:618-630 | Without a hint a root is registered exactly when the working directory is in a repository or below an adopted store. |
| Anchoring.RegistersExactlyProjects | src/git.rs:618-630 | For every hint a root is registered if and only if the working directory is in a repository or below an adopted store, or the hint passes the guard and is in a repository or holds a store; what is registered is in a repository or holds a store. |
| Anchoring.DiscoverAncestorStores | src/git.rs:641-654 | The loop returns the first `max_depth` of all stores above, or all of them if there are fewer. |
| Anchoring.StoresAboveAreTheAncestors | src/git.rs:632-640 | The listing holds exactly the stores strictly above the primary. |
| Anchoring.StoresAboveNearestFirst | src/git.rs:635-636 | Each store listed later lies strictly above each one listed earlier. |
| GitLog.ParseNameOnlyLog | src/git.rs:261-281 | The line loop computes the recursive grouping. |
| GitLog.GroupsRoundTrip | src/git.rs:255-281 | With blank lines anywhere, the printed commits are read back as their file groups, empty ones included, if and only if no file name is 40 hex digits. |
| GitLog.NameOnlyLogRoundTrip | src/git.rs:261-281 | The same for the text, with or without a final newline. |
| GitLog.PathsChangedSince | src/git.rs:351-370 | The line loop computes the recursive change map. |
| GitLog.I64RoundTrip | src/git.rs:356-356 | Every 64-bit commit time is read back from its decimal form. |
| GitLog.ParseI64Iff | src/git.rs:356-356 | A text is read as a time if and only if it is an optional sign, any zeros and the decimal digits of a 64-bit number. |
| GitLog.HeaderTime | src/git.rs:355-358 | A header sets the commit time to the number in it, blanks aside, and to 0 if it holds none. |
| GitLog.ChangesAreNewest | src/git.rs:362-369 | With blank lines anywhere, the map holds exactly the listed paths, each with the maximum time of a commit listing it. |
| GitLog.ChangedPathsAreNewest | src/git.rs:351-370 | The same for the text, with or without a final newline. |
| GitLog.CommitOrderIsIrrelevant | src/git.rs:362-369 | Two logs of the same commits in any order and multiplicity give the same map. |
| SignTest.CombCounts | scripts/eval-recall-options/lib.py:21-21 | The binomial counts the outcomes with that many wins. |
| SignTest.CombIsFactorial | scripts/eval-recall-options/lib.py:21-21 | The triangle's binomial is the factorial quotient. |
| SignTest.PValueIsTheFraction | scripts/eval-recall-options/lib.py:16-22 | The returned p is the fraction of all 2^n outcomes with at most min(x, y) on one side, ties and no pairs included. |
| SignTest.SignTestIsTheFraction | scripts/eval-recall-options/lib.py:16-22 | The counts returned are those of the positions below both lengths where one sample hit and the other did not, together those that differ, and p is the fraction of outcomes of that many pairs at least as one-sided. |
| SignTest.ClampFiresOnlyOnTies | scripts/eval-recall-options/lib.py:21-22 | With pairs at all, the clamp acts if and only if x = y. |
| SignTest.PValueMonotone | scripts/eval-recall-options/lib.py:21-22 | Over equally many pairs p is monotone in min(x, y). |
| SignTest.PValueMonotoneInLosses | scripts/eval-recall-options/lib.py:21-22 | One more win for the losing side never lowers p. |
| SignTest.SwapKeepsP | scripts/eval-recall-options/lib.py:18-22 | Swapping the samples swaps the counts and keeps p, whatever their lengths. |
| Wilson.ScoreInterval | scripts/eval-recall-options/lib.py:14-14 | A rate q lies between the bounds if and only if the observed k/n is within z standard errors of q: (q - k/n)^2 is at most z^2/n times q(1 - q). |
| Wilson.EnclosesAndNeedsNoClamp | scripts/eval-recall-options/lib.py:12-15 | The bounds enclose k/n and lie in [0, 1], so the clamps never act. |
| Wilson.EnclosesIffNonNegative | scripts/eval-recall-options/lib.py:12-15 | For any z the bounds enclose k/n if and only if z is not negative. |
| Wilson.ClampedIsNearest | scripts/eval-recall-options/lib.py:13-15 | There is no interval if and only if there are no trials, and otherwise each bound is moved to the unit interval exactly when it lies outside. |
| Wilson.MissesMirrorHits | scripts/eval-recall-options/lib.py:14-15 | The interval for n-k is the mirror image of the one for k. |
| CleanThreshold.FloorOfRounded | scripts/eval-recall-options/lib.py:33-33 | Rounding to nine digits never loses a whole step and gains one exactly just short of it. |
| CleanThreshold.ThresholdIsCleanIff | scripts/eval-recall-options/lib.py:28-34 | On any grid, or none, no negative is admitted if and only if the grid is not below zero or there is no value. |
| CleanThreshold.ThresholdIsTight | scripts/eval-recall-options/lib.py:32-34 | Without a grid the threshold is the highest negative plus 1e-9; on a grid it is a whole step above it by at most one step and what rounding may carry. |
| CleanThreshold.NoNegativesNoThreshold | scripts/eval-recall-options/lib.py:30-31 | With no value to go by it is -1e18. |
| CleanThreshold.LowestStepIff | scripts/eval-recall-options/lib.py:33-33 | The threshold is the lowest grid step admitting none if and only if the rounding did not carry the highest negative over a step. |
| RankFusion.Rrf | scripts/eval-recall-options/a3.py:10-17 | The dictionary loops and the stable sort yield, per query, every contributing id with its total, by score and then first appearance. |
| RankFusion.FusionIsUnique | scripts/eval-recall-options/a3.py:16-16 | That determines the output, order of ties included. |
| RankFusion.FusionListsBothLegs | scripts/eval-recall-options/a3.py:14-16 | The output ids are, without repetition, exactly those at a rank below n in either leg, scores descending. |
| RankFusion.ScoreByRank | scripts/eval-recall-options/a3.py:14-15 | An id no leg repeats scores the sum of 1/(k + r + 1) over its ranks r below n. |
| RankFusion.TiesKeepTheirOrder | scripts/eval-recall-options/a3.py:14-16 | Equal scores stay in the order in which their ids first come up, reading the first n of one leg and then of the other. |
| RankFusion.SwapKeepsScores | scripts/eval-recall-options/a3.py:14-15 | Swapping the legs keeps every id and its score. |
| RankFusion.DominanceIsKept | scripts/eval-recall-options/a3.py:10-17 | If each occurrence of e in either top-n list has one of d of the same number before it, d precedes e in the output, repetitions included. |
| RankFusion.AgreementIsKept | scripts/eval-recall-options/a3.py:10-17 | So it does if d precedes e in every leg whose top n lists e, and no such list repeats e. |
| RankFusion.RepetitionOvertakes | scripts/eval-recall-options/a3.py:15-15 | With a repeated id it need not. |
| CallResolution.ResolvedAreTheNearestFits | scripts/remeasure-closing-review.py:103-113 | The resolved targets are exactly the candidates that fit what the edge says and that no candidate's tier beats, so one edge's targets share its minimum tier. |
| CallResolution.DroppedIffNothingFits | scripts/remeasure-closing-review.py:42-53 | The minimum is 3, and nothing resolves, if and only if the edge says something that no candidate fits. |
| CallResolution.TierIsPreference | scripts/remeasure-closing-review.py:20-66 | Among fits the tier prefers owner to module, then the edge's own file, then what it imports, then the caller's module, and a resolved target is one no fit is preferred to. |
| CallResolution.ResolvesIff | scripts/remeasure-closing-review.py:103-113 | An edge resolves if and only if it is a call from an indexed symbol and some callable symbol of the called name fits what it says. |
| CallResolution.ResolvedAreCallable | scripts/remeasure-closing-review.py:120-126 | Every resolved target is such a symbol, so the reported count of non-callable targets is always zero. |
| CallResolution.SuppressedNeedEvidence | scripts/remeasure-closing-review.py:129-141 | Behind every suppressed pair is a resolved edge with a qualifier or a receiver type that its target fits. |
| CallResolution.SuppressedIff | scripts/remeasure-closing-review.py:127-142 | Two paths are a suppressed pair if and only if they differ and a resolved call with a qualifier or a receiver type crosses between their files, in either direction. |
| CallResolution.SuppressedAtMostPossible | scripts/remeasure-closing-review.py:127-144 | The suppressed pairs are unordered pairs of distinct indexed paths, so at most n(n-1)/2 for n files, even if paths repeat. |
| CallResolution.PairOfIsUnordered | scripts/remeasure-closing-review.py:131-133 | Two pairs are the same if and only if they are the same two paths in some order. |
| CallResolution.DirectionIsIrrelevant | scripts/remeasure-closing-review.py:131-139 | Calls in either direction between two files suppress the same pair. |
| UnknownKeys.ReportedIffUnknownLeaf | src/config.rs:354-389 | A path is reported if and only if it is a leaf of the user's tree and walking the schema along it reaches a missing key with only tables before. |
| UnknownKeys.ReportedOnce | src/config.rs:354-389 | No path is reported twice. |
| UnknownKeys.EnlargingOnlyRemoves | src/config.rs:331-337 | Enlarging the schema can only remove reports. |
| UnknownKeys.Collector.CollectUnknownTable | src/config.rs:379-389 | Pushes exactly the leaf paths below a prefix, in order. |
| UnknownKeys.Collector.CollectUnknownKeys | src/config.rs:354-377 | For any schema, pushes exactly the reported paths, dotted, in order; an empty key of a schema table is lost at the top. |
| UnknownKeys.ReportedTextsDistinctIff | src/config.rs:361-389 | For any file and schema the printed reports are distinct if and only if no two reported paths have the same segments between dots, leading empty keys of schema tables not counting. |
| UnknownKeys.ReportedTextsDistinct | src/config.rs:361-389 | So they are when no reported key holds a dot and no schema table an empty key. |
| UnknownKeys.DottedKeysCollide | src/config.rs:361-365 | They need not be otherwise. |
| Bullets.ExtractBulletPoints | src/cli/journal.rs:131-177 | The line loop computes the recursive extraction, panic included. |
| Bullets.ExtractPanicsIff | src/cli/journal.rs:151-155 | Extraction panics if and only if some line, not a dash or star item, starts with the round marker. |
| Bullets.ExtractedPointsAreGood | src/cli/journal.rs:146-174 | Every extracted point is non-empty, trimmed and on one line. |
| Bullets.PrintedBulletsReadBack | src/cli/journal.rs:245-258 | The list the importer prints for good points is read back as the same points. |
| Bullets.SectionIsRead | src/cli/journal.rs:131-177 | Items with dashes, stars or numbers, continued over any lines, with any blanks and blank lines: the loose lines before the first item are a point each, and each item is its text joined with its continuations. |
| Bullets.EveryContentIsSection | src/cli/journal.rs:131-177 | Every content without a round marker is such a section, so the theorem determines extraction wherever it does not panic. |
| Bullets.ExtractPrintExtract | src/cli/journal.rs:131-177 | Extracting, printing and extracting again gives the first extraction. |

## Left out

- AtMostOneAnswerWhenClosed: assumes that no write fails, which is more than that every connection happens to end by its closing event; `AtMostOneAnswerIffNeverLate` is the exact statement.
- FailedDialsCarryNoClientLine: counts a replayed line whose write fails half-way as not sent.
- MistakenIff: speaks of commands whose words are all in quotes and one blank apart; for any other text the guard is the one `ShellWords.UnwrapIff` states about the text.
- BareCommandIsReadIff: does not say that a mistaken command is misread when a filter token holds a slash, because counting slashes then no longer tells the two parses apart; that every command not mistaken is read needs no such assumption.
- Sockets, tokio scheduling, spawning, signals and the writer lock itself (`src/daemon/spawn.rs`, `src/store`) are environment choices of the transition systems.
- Lines are read atomically: the `read_line` of `run_proxy_io` that another branch of `select!` cancels half-way is not modelled, nor are errors on the proxy's own stdin and stdout, which end it.
- JSON text is not parsed: a line or reply comes already classified, and the in-flight table is a set of the ids' JSON texts, since its values are the same ids.
- The proxy's generation is unbounded; its wrap-around at 2^64 is not modelled. The event channel has no capacity limit: a full channel only delays a reader.
- The order in which a `HashMap` drains and in which `toml` iterates is arbitrary or given.
- `MDKB_NO_DAEMON`, `should_route`, hook timeouts and the decoding of typed results are parameters of the routing model.
- The keyword heuristics of `hook_logic.rs`, the `rtk` prefix and the classifiers that consume the extracted pattern are independent finite tables.
- In `git.rs`: running `git`, symbolic links, Windows path aliases, the 512-byte limit on a `.git` file and how its `gitdir:` line is parsed; a relative `gitdir:` enters already joined to the root.
- Floating-point rounding in the Python scripts, except the rounding to nine digits in the threshold, and negative `n` or `k` in `rrf`, which Python would slice from the end.
- `hyb`, `report` and `recall_at` reuse the modelled parts to build tables.
- The daemon and memory measurements of `remeasure-closing-review.py` read live state.
- `parse_journal` beyond its bullets, and the rest of `Config` (defaults, validation, loading), are independent one-branch steps.
