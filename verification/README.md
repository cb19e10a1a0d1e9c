# Uprava: durable protocols and bounded buffers, verified

Uprava has a control plane (Core, over SQLite) and a data plane (the Node daemon). This project models the
parts of both where a mistake is not visible in any single function: protocols that must survive crashes,
failures and interleavings, and buffers that work greedily but must agree with a simple description of the
whole history.

`dafny verify dfyconfig.toml` checks every file.

| file | part of the system |
|---|---|
| `TaskRuntime.dfy`, `Reconciliation.dfy` | sandbox and mapping cleanup of a task run, and the reconciliation after a restart |
| `SandboxLeaks.dfy` | which sandboxes outlive every reconciliation |
| `TaskRun.dfy` | lifecycle, deadline budgets, checks and result of a task run |
| `ExecdStream.dfy`, `ShellWords.dfy`, `CappedText.dfy`, `CappedBytes.dfy` | what a task run sends to and reads from its sandbox |
| `Enrollment.dfy`, `EnrollmentClaims.dfy`, `Migrations.dfy`, `EventOutbox.dfy` | Core's database protocols |
| `TerminalReplay.dfy`, `Transcript.dfy`, `LogWriter.dfy`, `CodexTurn.dfy` | bounded buffers and sequence numbers |
| `GitPorcelain.dfy`, `DiffHunks.dfy`, `CanonicalJson.dfy` | parsers and canonical forms |
| `Collections.dfy` | concatenation, first n, longest fitting suffix |

How the models are built:

- The database protocols are state machines. The tables are the state, each statement or transaction is one
  step, and the theorems quantify over every list of steps that can happen, so over every interleaving of
  requests, runners and crashes. A single migration run, compatibility check and outbox drain also exist as
  methods with the loops of the source.
- The task store keeps its mappings in memory and writes the whole snapshot to disk. A store call therefore
  has two answers: whether it reached the disk and whether the caller was told so. Any other part of the Node
  may save at any moment.
- Buffers are methods and classes. A ghost history holds everything that was ever put in, and the invariant
  says which part of the history the buffer holds.
- Every answer of the outside (processes, HTTP, disk, clock) is a parameter, so the theorems hold for all
  answers.

Where the code does not do what one would expect, the model follows the code and states exactly when the
expectation holds:

- `append_capped` may append a later short value after it cut an earlier one. `PrefixExactly` says when the
  text is a prefix of the stream, `NotAlwaysAPrefix` gives an input where it is not.
- `parse_git_porcelain_v2` splits into one piece more than a record has fields. `RoundTripExactly` says for
  which lists the parse still returns what git reported; `UnmergedExactly` says that an unmerged record is lost
  exactly when its path has no space.
- A task sandbox can outlive every reconciliation. `LeakExactly` says when, `OrphanAlwaysLeaks` that it always
  happens to one whose create request failed after all, and `CrashWindowLeaks` and `CompletedWithOrphan` give
  such runs. In the latter the reported cleanup is `Completed`.
- A deleted node can come back without its enrollment, because a heartbeat verifies and writes in two
  statements. `OneNodeEach` says exactly which rows these are, `DeletedNodeComesBack` gives a run.
- A Codex turn that failed or was cancelled leaves a sequence gap that no event reports (`GapOfFailedTurn`).
- A missing output schema and the schema `null` have the same tool schema hash (`HashExactly`).
- A frame buffer over 512 KiB ends a command, and whether that happens depends on the chunking. `ReadExecdStream`
  says exactly when, `ReadTwice` when two chunkings of one stream agree, and `ChunkingCanMatter` gives two that
  do not.

## Model

| member | source | states |
|---|---|---|
| `TaskRuntime.ExecutionIsSafe` | crates/uprava-node/src/runtime/task.rs:152-365 | At every point where an execution can fail or crash, with saves by others anywhere in between, every sandbox id that reached the disk is still recorded in memory and on disk or its delete succeeded. |
| `TaskRuntime.SafeKeepsDurable` | crates/uprava-node/src/runtime/task.rs:1530-1572 | Any call that overwrites or removes a recorded id only after its delete succeeded keeps that invariant; this is the only obligation a protocol over the store has. |
| `TaskRuntime.CompletedMeansClean` | crates/uprava-node/src/runtime/task.rs:264-344 | Reported `Completed` cleanup means the mapping is gone from memory and disk and a sandbox that was obtained is deleted and not running. |
| `TaskRuntime.RecordedAfterSecondWrite` | crates/uprava-node/src/runtime/task.rs:227-264 | The crash window ends with the second mapping write: from then on, at any crash, the sandbox is on disk under its task or its delete succeeded. |
| `TaskRuntime.CallOrder` | crates/uprava-node/src/runtime/task.rs:152-365 | Which external calls an execution makes and where, from the answers alone: the task is on record before a sandbox is asked for, its id is written in the very next call, the delete comes after that, the removal last and only after a confirmed delete, and there are no others. |
| `TaskRuntime.RecordedFromThirdCall` | crates/uprava-node/src/runtime/task.rs:264-344 | From the return of the third call on, at every point, a sandbox whose second write reached the disk is named on disk until its delete is confirmed. |
| `Reconciliation.ReconcileTaskRuntimeMappings` | crates/uprava-node/src/runtime/task.rs:1574-1606 | Entry by entry: a named sandbox is deleted, its mapping removed only when that is confirmed, a failing delete goes on with the next entry and an unacknowledged removal ends the pass; nothing happens without a configured URL. |
| `Reconciliation.PassShape` | crates/uprava-node/src/runtime/task.rs:1589-1604 | In a pass every removal of a mapping with an id comes after a confirmed delete of that id. |
| `Reconciliation.PassIsSafe` | crates/uprava-node/src/runtime/task.rs:1574-1606 | A pass cut off anywhere keeps every recorded id recorded or deleted. |
| `Reconciliation.CleanupSafety` | crates/uprava-node/src/runtime/task.rs:152-365 | After one execution and any number of restarts and passes, each failing or crashing anywhere, every id that ever was on disk is still there or its delete was acknowledged. |
| `Reconciliation.FaultlessPassEmptiesTable` | crates/uprava-node/src/runtime/task.rs:1589-1605 | A pass with no failing call, with saves by others anywhere, empties the table in memory and on disk and stops exactly the recorded sandboxes. |
| `SandboxLeaks.LeakExactly` | crates/uprava-node/src/runtime/task.rs:152-365 | After an execution cut off anywhere, any list of restarts and passes, and a faultless pass, the sandbox its create request brought to life still runs if and only if the run started it, no delete of it took effect, and the table was never saved at or after the write of its id. |
| `SandboxLeaks.RecordedIsStopped` | crates/uprava-node/src/runtime/task.rs:264-344 | Once the second write is on disk, no crash and no failure leaves the sandbox running for good: a faultless pass, after any others, finds it stopped. |
| `SandboxLeaks.TrackedAlways` | crates/uprava-node/src/runtime/task.rs:152-365 | At every point of an execution, whether the sandbox runs, whether its id is in memory and whether it is on disk are functions of the calls and saves so far. |
| `SandboxLeaks.LeakIsForGood` | crates/uprava-node/src/runtime/task.rs:1574-1606 | Such a sandbox survives every list of later passes, failing, crashing or faultless. |
| `SandboxLeaks.OrphanAlwaysLeaks` | crates/uprava-node/src/runtime/task.rs:227-262 | A sandbox whose create request failed after it came to life is left running by the execution and by every list of passes. |
| `SandboxLeaks.CrashWindowLeaks` | crates/uprava-node/src/runtime/task.rs:227-264 | A crash between create and second mapping write is such a run: the sandbox runs on whatever the passes do. |
| `SandboxLeaks.CompletedWithOrphan` | crates/uprava-node/src/runtime/task.rs:227-262 | A failed create can end with `Completed` cleanup, an empty table and a running sandbox. |
| `TaskRuntime.ConfirmedIsDead` | crates/uprava-node/src/runtime/task.rs:841-863 | A sandbox whose delete succeeded is not running afterwards, whatever else the execution does. |
| `Reconciliation.FailedDeleteKeepsMapping` | crates/uprava-node/src/runtime/task.rs:1590-1598 | A failing delete leaves its mapping unchanged in memory and on disk, whatever the rest of the pass does, wherever it is cut off and whoever saves meanwhile. |
| `TaskRun.ExecuteTask` | crates/uprava-node/src/runtime/task.rs:152-365 | Every execution: its calls in order; rising event ranks with only the last event terminal and equal to the state; the state, the reason code and the events follow from the first call that decided them; `Succeeded` if and only if everything passed and evidence was collected; cleanup is complete exactly when the mapping is removed and a sandbox deleted, and a cleanup risk is listed exactly otherwise; missing artifacts and lost evidence are among the risks. |
| `TaskRun.RunTaskInSandbox` | crates/uprava-node/src/runtime/task.rs:392-609 | State, reason, events and commands for every combination of answers: no command starts at or after the deadline, each budget is the tighter of the time left and the check's own limit, and success, failure, cancellation and timeout happen exactly under the stated conditions. |
| `TaskRun.RunCodex` | crates/uprava-node/src/runtime/task.rs:406-503 | Which runs end before their checks, in which state, and with which command budget. |
| `TaskRun.RunChecks` | crates/uprava-node/src/runtime/task.rs:513-574 | The checks that ran: each result has the name, exit code and verdict of its own check and reply and a command line that reads back as declared; each budget is at most the check's limit, ends by the deadline, and meets one of the two; and why the loop stopped. |
| `TaskRun.CheckAndConclude` | crates/uprava-node/src/runtime/task.rs:513-609 | The run succeeds if and only if Codex passed and every declared check started in time and passed; cancelled and timed-out runs match the reason the loop stopped. |
| `TaskRun.EndingUnique` | crates/uprava-node/src/runtime/task.rs:517-574 | The declared limits and the answers leave one reason to stop and one number of checks. |
| `TaskRun.OutcomeUnique` | crates/uprava-node/src/runtime/task.rs:392-609 | So the answers of the environment determine the state of a run and how many checks it reports. |
| `TaskRun.LocalTimeoutContinues` | crates/uprava-node/src/runtime/task.rs:517-574 | In a run whose check i timed out, that check failed and the run ended `TimedOut` there if and only if no more time was left than its own limit; otherwise the next check started, unless there was none or the deadline had passed by then. |
| `TaskRun.CommandsEndByDeadline` | crates/uprava-node/src/runtime/task.rs:444-574 | In a run whose Codex command and checks keep the budgets they were given, every started command and the whole command phase end by the deadline. |
| `TaskRun.CheckCommandReadsBack` | crates/uprava-node/src/runtime/task.rs:527-532 | The shell in the sandbox reads each check line as exactly the declared command and arguments. |
| `TaskRun.LifecycleOf` | crates/uprava-node/src/runtime/task.rs:1608-1689 | Every list of phases the protocol can emit is a lifecycle with rising ranks and one terminal event, at its end. |
| `TaskRun.RanksIdentifyStates` | crates/uprava-node/src/runtime/task.rs:1675-1689 | The rank of a state is ten times its place among all states, so no two states share one. |
| `TaskRun.FinalRisks` | crates/uprava-node/src/runtime/task.rs:344-352 | The listed risks keep those of the evidence and name the sandbox exactly when cleanup failed. |
| `TaskRun.WithoutSandbox` | crates/uprava-node/src/runtime/task.rs:192-260 | A run that ends without a sandbox reports failed cleanup exactly when its mapping could not be removed, and then lists the risk. |
| `ExecdStream.EarliestStartIsEarliestEnd` | crates/uprava-node/src/runtime/task.rs:1009-1023 | The delimiter that starts first also ends first, and none is found exactly when the buffer has none. |
| `ExecdStream.SplitUnique` | crates/uprava-node/src/runtime/task.rs:1002-1007 | A stream has exactly one split into frames and a rest without delimiter. |
| `ExecdStream.SplitComposes` | crates/uprava-node/src/runtime/task.rs:1002-1007 | Splitting a first part and then its leftover with a second part is the split of the whole. |
| `ExecdStream.ConsumeExecdFrames` | crates/uprava-node/src/runtime/task.rs:1002-1088 | The loop ends with the split of the buffer, no byte lost or doubled, and the outcome has exactly the events of those frames added: both outputs, exit code and command id. |
| `ExecdStream.ReadExecdStream` | crates/uprava-node/src/runtime/task.rs:865-959 | For every chunking: stdout and stderr are the capped collections of the texts of their own events in order, the exit code is the last one given and the command id the last that is not empty, over all frames of the stream, with the leftover as a last event exactly at its end; error and cancellation are those of the ending; and if and only if some chunk would take the buffer past 512 KiB, the frames before it count and the limit error is set. |
| `ExecdStream.ReportsNext` | crates/uprava-node/src/runtime/task.rs:1032-1088 | One more event changes only what it is about: its own output, the exit code or the command id. |
| `ExecdStream.ChunkingIndependence` | crates/uprava-node/src/runtime/task.rs:1002-1030 | Two ways of cutting one stream give the same frames, leftover and outcome. |
| `ExecdStream.ReadTwice` | crates/uprava-node/src/runtime/task.rs:865-959 | Reading one stream in two chunkings: equal outcomes when the limit stops neither, equal errors if and only if it stops both or neither, and always equal outcomes for a stream of at most 512 KiB. |
| `ExecdStream.OutcomeUnique` | crates/uprava-node/src/runtime/task.rs:865-959 | Chunks and ending determine the outcome. |
| `ExecdStream.LimitIsReported` | crates/uprava-node/src/runtime/task.rs:865-959 | The outcome carries the limit error if and only if the limit stops the reading. |
| `ExecdStream.ChunkingCanMatter` | crates/uprava-node/src/runtime/task.rs:865-959 | One stream of 512 KiB and one line feed: refused when read at once, read without error when its first two bytes come ahead. |
| `ExecdStream.LimitNotReached` | crates/uprava-node/src/runtime/task.rs:865-959 | No chunking of such a stream reaches the limit. |
| `ShellWords.ShellRoundTrip` | crates/uprava-node/src/runtime/task.rs:528-532 | Splitting the quoted and joined line by the POSIX rules for blanks, backslash and single quotes gives back every argument, empty ones and ones with quotes or newlines included. |
| `ShellWords.QuotedReadsBack` | crates/uprava-node/src/runtime/task.rs:1725-1727 | A quoted value is read as one word with exactly that value. |
| `ShellWords.ShellJoinInjective` | crates/uprava-node/src/runtime/task.rs:528-532 | No two argument vectors share a command line. |
| `CappedText.AppendCapped` | crates/uprava-node/src/runtime/task.rs:1691-1709 | The text grows by the longest piece of whole characters that fits, never passes the cap, and is marked exactly when it was marked, was full, or lost something. |
| `CappedText.CapString` | crates/uprava-node/src/runtime/task.rs:1711-1723 | The longest fitting prefix of whole characters, marked exactly when the value is longer than the cap. |
| `CappedText.CollectBounded` | crates/uprava-node/src/runtime/task.rs:1691-1709 | Over every series of values the text stays within the cap and, unless marked, is the complete concatenation. |
| `CappedText.CutIsSticky` | crates/uprava-node/src/runtime/task.rs:1691-1709 | The mark never goes away. |
| `CappedText.PrefixExactly` | crates/uprava-node/src/runtime/task.rs:1691-1709 | For every series of values the text is a prefix of the stream if and only if nothing was lost or no later value starts with a character that fits into the bytes left over at the first loss. |
| `CappedText.NotAlwaysAPrefix` | crates/uprava-node/src/runtime/task.rs:1691-1709 | With a cap of one byte, a two-byte character followed by a letter leaves the letter alone. |
| `CappedBytes.ReadCappedProcessOutput` | crates/uprava-node/src/runtime/workspace.rs:1040-1068 | For every chunking: the first `cap` bytes of the stream, truncated exactly when it is longer. |
| `CappedBytes.CappedGitStatus` | crates/uprava-node/src/runtime/support.rs:161-186 | The same for the git status reader. |
| `CappedBytes.GitOutputCapped` | crates/uprava-node/src/runtime/task.rs:1330-1375 | The same although reading stops early; it fails exactly when git fails and the output was not cut. |
| `CappedBytes.AppendCappedProcessLine` | crates/uprava-node/src/runtime/provider.rs:1191-1218 | One line with its newline keeps the promise of holding the first bytes of everything written. |
| `CappedBytes.CollectLines` | crates/uprava-node/src/runtime/provider.rs:1191-1218 | After all lines the collector holds the first bytes of them with their newlines, truncated exactly when there were more. |
| `TerminalReplay.Evict` | crates/uprava-node/src/runtime/terminal.rs:368-383 | Eviction leaves exactly the longest suffix within 256 frames and 256 KiB. |
| `TerminalReplay.LossyAtMostTriples` | crates/uprava-node/src/runtime/terminal.rs:290-296 | Lossy decoding at most triples the bytes read. |
| `TerminalReplay.RecordTerminalReplay` | crates/uprava-node/src/runtime/terminal.rs:368-379 | For a frame of any size, trimming the buffer gives the longest fitting suffix of the whole history; nothing is left exactly when the new frame alone is too large. |
| `TerminalReplay.WorkspaceTerminal.ReadOutput` | crates/uprava-node/src/runtime/terminal.rs:290-317 | After every read of at most 4096 bytes the replay is the longest end of all output so far within 256 frames and 256 KiB, and its last frame is the newest. |
| `TerminalReplay.WorkspaceTerminal.Attach` | crates/uprava-node/src/runtime/terminal.rs:163-200 | Attaching sends the replay in order, after a gap notice if and only if some output was dropped. |
| `TerminalReplay.ReplayIsConsecutive` | crates/uprava-node/src/runtime/terminal.rs:290-317 | Replayed numbers are consecutive, end at the newest frame, and start above one exactly when frames were dropped. |
| `TerminalReplay.NewestKept` | crates/uprava-node/src/runtime/terminal.rs:368-383 | The newest frame is kept unless it alone breaks the byte limit. |
| `TerminalReplay.ReplayDetermined` | crates/uprava-node/src/runtime/terminal.rs:368-383 | Two terminals with the same output so far replay the same frames. |
| `Transcript.TrimCodexTranscript` | crates/uprava-node/src/runtime/provider.rs:1649-1663 | Trimming leaves the longest suffix with at most 20 messages and at most 12000 characters or 2 messages. |
| `Transcript.TranscriptStore.RecordTurn` | crates/uprava-node/src/runtime/provider.rs:1629-1647 | After any series of turns the stored transcript is the longest end of everything recorded for its session with at most 20 messages and at most 12000 characters or 2 messages; it ends with the new exchange, user first; other sessions are untouched. |
| `Transcript.LastExchangeKept` | crates/uprava-node/src/runtime/provider.rs:1649-1663 | The newest exchange survives however long it is. |
| `Transcript.SelectContext` | crates/uprava-node/src/runtime/provider.rs:1593-1612 | The backward selection finds the longest transcript suffix with at most 20 messages that is one message or fits the budget with the new content. |
| `Transcript.CodexExecPrompt` | crates/uprava-node/src/runtime/provider.rs:1593-1627 | The prompt is the content alone, or the longest affordable end of the transcript with every message on its own line in the original order, and then the content. |
| `Collections.LongestSuffixExtends` | crates/uprava-node/src/runtime/terminal.rs:368-379 | Trimming what was kept plus what is new gives the same as trimming the complete history, for every hereditary limit. |
| `CodexTurn.SendTurnEvents` | crates/uprava-node/src/runtime/provider.rs:517-742 | The returned events of a turn, their numbers and the counter afterwards; how often each kind occurs and where: openers first, kept activity, one warning exactly when something was cut, with the right flags, then approvals and a block, or a completed message, or an interruption, or an error, exactly under the stated conditions. |
| `CodexTurn.RunProcess` | crates/uprava-node/src/runtime/provider.rs:1174-1189 | Every line uses a number, the first 512 become events, the rest are counted, and both captured streams hold their first bytes. |
| `CodexTurn.StreamAppend` | crates/uprava-node/src/runtime/provider.rs:517-742 | The captured lines of a stream are those of its parts in order, each line counted for the stream it came from. |
| `CodexTurn.GapOfExitedTurn` | crates/uprava-node/src/runtime/provider.rs:1220-1252 | For a process that ran to its exit the only gap is right before the truncation warning and as wide as its dropped count. |
| `CodexTurn.DroppedIsReported` | crates/uprava-node/src/runtime/provider.rs:1220-1252 | Whenever activity was dropped the warning is there, right after the kept activity. |
| `CodexTurn.GapOfFailedTurn` | crates/uprava-node/src/runtime/provider.rs:517-742 | A failed or cancelled turn returns no activity, and its gap is the number of lines read. |
| `CodexTurn.SendTurns` | crates/uprava-node/src/runtime/provider.rs:517-742 | Over any series of turns of a session, numbers strictly increase across turns, and every number given out is on a returned event or is a dropped activity or a line of a turn that failed. |
| `LogWriter.RotateLogs` | crates/uprava-logging/src/lib.rs:232-253 | Every generation moves up by one, the oldest is gone, files beyond the limit are untouched; no rename has an existing target. |
| `LogWriter.RotatedRetains` | crates/uprava-logging/src/lib.rs:232-253 | Read from oldest to current, rotation forgets the oldest generation and nothing else. |
| `LogWriter.Writer.constructor` | crates/uprava-logging/src/lib.rs:185-200 | Starting on files of an earlier process establishes the invariant. |
| `LogWriter.Writer.Submit` | crates/uprava-logging/src/lib.rs:85-99 | A record is queued, or dropped and counted when the channel is full; written, waiting and dropped records add up to the submitted ones, and the written and waiting ones are a subsequence of them in order. |
| `LogWriter.Writer.Receive` | crates/uprava-logging/src/lib.rs:201-201 | Records leave the channel in the order they came. |
| `LogWriter.Writer.WriteInHand` | crates/uprava-logging/src/lib.rs:202-217 | Each record is added to one file or counted as dropped, in submission order; the retained files stay a suffix of everything written, and a file is over the limit only if it holds one record. |
| `LogWriter.FilesBounded` | crates/uprava-logging/src/lib.rs:232-253 | At most `max_files` files exist at any time, or one for zero. |
| `EventOutbox.DeliveryCounts` | crates/uprava-server/src/persistence/event.rs:465-492 | Over every run of enqueues, drains, crashes and failed marks an event is marked only after a successful broadcast, is broadcast at most once more than marks were lost for it, and its attempts are its failed broadcasts. |
| `EventOutbox.NothingIsLost` | crates/uprava-server/src/persistence/event.rs:450-492 | Over every run an event is in the table, pending or published, if and only if it was enqueued. |
| `EventOutbox.RunKeepsInv` | crates/uprava-server/src/persistence/event.rs:450-492 | Every broadcast is a mark, a lost mark or the one in flight, and published events stay published. |
| `EventOutbox.ReenqueueIsIgnored` | crates/uprava-server/src/persistence/event.rs:450-463 | Enqueueing a published event again changes nothing, now or later. |
| `EventOutbox.CleanDrainPublishesAll` | crates/uprava-server/src/persistence/event.rs:465-492 | A drain that always has a subscriber and no database error publishes everything pending at its snapshot, whatever is enqueued meanwhile. |
| `EventOutbox.DrainEventPublicationOutbox` | crates/uprava-server/src/persistence/event.rs:465-492 | The loop is one of those runs; it succeeds exactly without a database error, and then has published exactly the events with a subscriber. |
| `Enrollment.AtMostOneCredential` | crates/uprava-server/src/persistence/node.rs:117-336 | Over every interleaving at most one claim of an enrollment returns a credential. |
| `EnrollmentClaims.GrantExactly` | crates/uprava-server/src/persistence/node.rs:117-336 | After every run, a finishing claim hands out a credential if and only if it carried the code its enrollment was created with, the enrollment was approved before the claim read it or approval is automatic, and it is open, unclaimed and unexpired when the claim commits. |
| `EnrollmentClaims.EveryGrantIsRightful` | crates/uprava-server/src/persistence/node.rs:117-336 | Every credential of every run was handed out by such a claim, for its own enrollment. |
| `EnrollmentClaims.RowChanges` | crates/uprava-server/src/persistence/node.rs:18-355 | All a step can do to an enrollment: approve a pending one that has not expired, expire an open one, register it with a granted claim, or delete it with its node; code and expiry never change. |
| `EnrollmentClaims.InsertedRow` | crates/uprava-server/src/persistence/node.rs:18-88 | A new enrollment has its own code, expires its lifetime after the sweep of its create, and is approved or pending as asked. |
| `EnrollmentClaims.CreateGoesOn` | crates/uprava-server/src/persistence/node.rs:18-88 | A create is refused if and only if the limit of live unclaimed enrollments is reached. |
| `EnrollmentClaims.NodeChanges` | crates/uprava-server/src/runtime/transport/node.rs:100-396 | All a step can do to a node row, the credential and the revoked mark included. |
| `EnrollmentClaims.RevokedCannotVerify` | crates/uprava-server/src/runtime/transport/node.rs:100-133 | After a revocation no heartbeat of the node passes its check until its credential is rotated, whatever happens in between. |
| `Enrollment.OneNodeEach` | crates/uprava-server/src/persistence/node.rs:200-336 | Exactly the registered enrollments own a node, whose row is committed and nobody else's; a node row without an enrollment is exactly one that a heartbeat put back, having verified before the deletion of the node and written after it. |
| `Enrollment.HistoryAlways` | crates/uprava-server/src/runtime/transport/node.rs:326-396 | In every run, pending heartbeats, those overtaken by a deletion and the node rows without an enrollment are as the list of steps says. |
| `Enrollment.DeletedNodeComesBack` | crates/uprava-server/src/runtime/transport/node.rs:326-396 | A run in which a heartbeat verifies, the node is deleted and the heartbeat writes: the node row is back, its enrollment is not. |
| `Enrollment.RegistrationIsFinal` | crates/uprava-server/src/persistence/node.rs:117-355 | Between any two moments a registered enrollment keeps its status and its `claimed_node_id`; it goes away if and only if its node is deleted, and then the node row is there if and only if a heartbeat put it back. |
| `Enrollment.PendingNeverExceedsLimit` | crates/uprava-server/src/persistence/node.rs:18-88 | Open, unclaimed and unexpired enrollments never exceed max(1, `max_pending_enrollments`), also while a create is between its count and its insert. |
| `Enrollment.SecondClaimLoses` | crates/uprava-server/src/persistence/node.rs:117-336 | Of two claims that both decided to proceed, the first to commit gets the credential and the second changes neither grants nor nodes. |
| `Enrollment.StepKeepsInv` | crates/uprava-server/src/persistence/node.rs:18-355 | Every step keeps ownership, uniqueness of grants and the limit. |
| `Enrollment.LiveShrinks` | crates/uprava-server/src/persistence/node.rs:338-355 | No step but an insert makes an enrollment live, judged at any time, and an insert only its own. |
| `Migrations.AppliedOnceInOrder` | crates/uprava-server/src/persistence/migrations.rs:6-77 | With any number of runners and crashes the recorded versions are a prefix of the list, each applied once, in order, with its own checksum. |
| `Migrations.NeverRejected` | crates/uprava-server/src/persistence/migrations.rs:79-148 | The compatibility check never rejects such a database and no checksum mismatch occurs, however its queries interleave with commits. |
| `Migrations.DoneMeansUninterruptedResult` | crates/uprava-server/src/persistence/migrations.rs:6-77 | When any runner is done the database is the one an undisturbed first run gives. |
| `Migrations.DoneMeansRecorded` | crates/uprava-server/src/persistence/migrations.rs:6-77 | From any database at all, with any runners and crashes, a runner that finishes leaves every version recorded under its own checksum. |
| `Migrations.AdvanceProgresses` | crates/uprava-server/src/persistence/migrations.rs:26-75 | Every query of a runner brings it forward, whatever the others did. |
| `Migrations.AloneFinishes` | crates/uprava-server/src/persistence/migrations.rs:6-77 | From every reachable state a runner left alone finishes. |
| `Migrations.RerunConverges` | crates/uprava-server/src/persistence/migrations.rs:6-77 | After any history one more run ends with the uninterrupted result. |
| `Migrations.EnsureCompatibleState` | crates/uprava-server/src/persistence/migrations.rs:79-148 | For any database, reached by migrations or not, the check accepts exactly the compatible ones. |
| `Migrations.Migrate` | crates/uprava-server/src/persistence/migrations.rs:6-77 | A run alone leaves an incompatible database as it was, succeeds only with every version recorded under its own checksum, and brings every database that interrupted runs can leave to the uninterrupted result. |
| `Migrations.QuiescentCheck` | crates/uprava-server/src/persistence/migrations.rs:79-148 | The query-by-query check of a runner decides the same on a database that does not change. |
| `GitPorcelain.ParseGitPorcelainV2` | crates/uprava-node/src/runtime/support.rs:213-286 | For every input the four counts are the numbers of staged, unstaged, untracked and conflicted changes, the list is the first 1000, and it is marked exactly beyond that. |
| `GitPorcelain.PushGitChange` | crates/uprava-node/src/runtime/support.rs:339-357 | One more change keeps the snapshot a summary of all changes. |
| `GitPorcelain.PrintThenParse` | crates/uprava-node/src/runtime/support.rs:213-306 | Printing any list of ordinary, renamed, untracked and unmerged entries and parsing it gives what each entry is parsed to, in order, even for previous paths that look like records. |
| `GitPorcelain.RecordByPieces` | crates/uprava-node/src/runtime/support.rs:213-306 | Every record, well formed or not: how many pieces it needs, which piece is the path, what it yields, and how many records it takes. |
| `GitPorcelain.StatusOfLetters` | crates/uprava-node/src/runtime/support.rs:308-337 | The first status letter is the index and the second the worktree, each by the table of letters, and a `U` in either is a conflict. |
| `GitPorcelain.RoundTripExactly` | crates/uprava-node/src/runtime/support.rs:213-306 | For every list of entries the parse equals what git reported if and only if every entry is untracked, or ordinary or renamed with a path without spaces. |
| `GitPorcelain.UnmergedExactly` | crates/uprava-node/src/runtime/support.rs:253-268 | An unmerged entry anywhere in a list yields a change if and only if its path has a space, and then for the part behind the first space. |
| `DiffHunks.ParseWorkspaceDiffHunks` | crates/uprava-node/src/runtime/workspace.rs:686-730 | For every diff the result is the first 256 hunks of the uncapped grouping, numbered from one, each with its first line as header, all its lines as patch, and no other hunk or file header in it. |
| `DiffHunks.GroupsAreInHunkLines` | crates/uprava-node/src/runtime/workspace.rs:686-730 | The uncapped grouping holds exactly the in-hunk lines, in order. |
| `DiffHunks.BelowCapNothingIsLost` | crates/uprava-node/src/runtime/workspace.rs:686-730 | Up to 256 hunks the patches concatenate to exactly the in-hunk lines. |
| `CanonicalJson.CanonicalExactly` | crates/uprava-protocol/src/tooling.rs:674-688 | Two values have equal canonical forms if and only if they differ only by key order, at any depth; array order counts. |
| `CanonicalJson.CanonicalKeepsMeaning` | crates/uprava-protocol/src/tooling.rs:674-688 | The canonical form is sorted at every depth and means the same. |
| `CanonicalJson.OneCanonicalForm` | crates/uprava-protocol/src/tooling.rs:674-688 | Two canonical values with one meaning are equal. |
| `CanonicalJson.CanonicalIdempotent` | crates/uprava-protocol/src/tooling.rs:674-688 | Canonicalising twice is canonicalising once. |
| `CanonicalJson.HashIgnoresKeyOrder` | crates/uprava-protocol/src/tooling.rs:661-672 | Key order never changes a schema hash. |
| `CanonicalJson.HashedValue` | crates/uprava-protocol/src/tooling.rs:661-672 | What is hashed is each schema in canonical form under its own name, a missing output schema as null. |
| `CanonicalJson.LessIsLexicographic` | crates/uprava-protocol/src/tooling.rs:674-688 | Keys are in the order of their characters: the first difference decides, and a prefix comes first. |
| `CanonicalJson.HashExactly` | crates/uprava-protocol/src/tooling.rs:661-672 | With a collision-free hash, equal hashes mean equal schemas up to key order, a missing output schema counting as `null`. |

## Left out

- HTTP, WebSocket, pseudo-terminals, git and process spawning: each call is an answer of the environment.
- Decoding of one stream frame from UTF-8 and JSON: a parameter of the stream reader, so the chunking theorems hold for every decoder.
- The 15 second limit for the start of a sandbox command, and the request that cancels it: not part of the stream loop.
- Codex summary text, messages beside the reason codes, and the duration and captured output of a check result: carried along by the source without influence on the run.
- Errors before the first lifecycle event of a task (payload, configuration, client): they return no events.
- Executing a task a second time over an old mapping: the first write then clears the recorded id, so the cleanup theorems are for one execution followed by any number of passes.
- Ids that a sandbox runtime gives out twice: the leak theorems are for a sandbox whose id is not in use yet.
- `prepare_task_worktree`, artifact hashing and path canonicalisation: they rest on the operating system.
- Enrollment requests as methods that update tables in place: each of their statements and transactions is a step on a state value, because the claims are about interleavings.
- SQL text and row encodings: tables are maps and a migration is an uninterpreted transformation.
- A statement of a migration that fails: the transaction rolls back and the runner stops, which is the crash of a runner here.
- SHA-256, credentials, UUIDs: an uninterpreted hash and identifiers that are not reused.
- Display names, auto-approval by name and the reply text of a losing claim: the approved flag of a new enrollment is free, and a claim that does not win gets no credential.
- Other columns of a node row, and the tables a heartbeat writes after it: a row has a credential or not and is revoked or not.
- Broadcast order inside a drain and removal of outbox rows: a snapshot is the pending events in any order.
- Counters at the limit of 64 bits: sequence numbers and sizes do not saturate.
- A rotation that fails halfway, a reopen that fails after a rotation and a partly written record: a failing rotation changes nothing and a failing write writes nothing.
- A log channel of capacity zero: it drops every record here, while the source hands a record over when the writer is waiting.
- Branch, upstream and ahead/behind headers of git status: they are skipped.
- Splitting a diff into lines, and the diff id in a hunk id: the parser gets lines and numbers hunks.
- Terminal lifecycle, input, resizing and attaching to an unknown terminal: plumbing around the replay.
- Provider event contents of a Codex turn, and turns refused before their first event: only kinds and numbers matter to the gap.
- ToolHive bridge, configuration, metrics, supervisor, web application: plumbing without a hard property.
