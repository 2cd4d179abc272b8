# A verified model of the Tauri agent plugin

The plugin lets an agent inspect and drive a webview. Its guest code renders the page as a semantic
tree with stable element refs, turns successive trees into a stream of line diffs, and keeps bounded
logs of what the page does; a daemon, an MCP server, an in-process Rust server and a socket client
carry newline-terminated JSON between agent and page. This project models those parts in Dafny and
proves what they keep over whole runs.

Conventions of the model:

- One JavaScript turn (the code between two awaits) is one atomic step, and so is one critical section
  or channel operation of a Rust thread. Every theorem about a run ranges over all sequences of steps.
  Since a prefix of a run is a run, what is proved of every reachable state holds at every moment.
- What comes from outside is an argument: captured texts, chunks of bytes, clock readings, handler
  results, the socket's `writable` flag, timer firings, DOM contents.
- An object or closure the source updates in place is a class. Each method's postcondition equates the
  new state with a step function of the old one, and the theorems are about those functions.
- `hide` statements in proofs withhold function bodies a step does not need, to keep verification quick.
- A JavaScript `Map` is a sequence of entries in insertion order.
- `Inv`, `Agree` and `Sound` are the invariants of a state together with the unbounded history it
  summarises; the history exists only in the specification.

| file | models |
|---|---|
| `LineDiff`, `SemanticStream`, `StreamDiffs` | the diff stream, its long polls, and a reader of its line log |
| `Ring`, `CaptureBuffer`, `FollowLoss`, `DetailIndex` | the capture logs, following them, what a follower misses, and the detail maps beside them |
| `SemanticTree`, `RefRegistry`, `Snapshots`, `DocumentText`, `QuietTick` | the tree traversal, refs, snapshots over time, and what their text shows |
| `RefSearch`, `Locator` | searching refs and waiting for one actionable match |
| `Framing`, `McpStdio`, `RustServer`, `SocketClient`, `LineSocket`, `Decoding`, `FramersAgree` | the four line framers, the decoding in front of three of them, and the ordered connection service |
| `AgentBridge`, `BridgeGate` | webview requests and their completions, and the gate that orders responses before invokes |
| `Utf8`, `Truncation`, `AppId` | the two bounded encoders |
| `Text`, `OrderedMap` | splitting, decimal printing, insertion-ordered maps |

Three findings the model states exactly:

- `pollFollow` passes entries on but not the `dropped` flag. Its batches are the whole history exactly if
  before every poll nobody evicted or cleared an entry it had not read
  (`FollowLoss.ConsumerCompleteIffUnharmed`), and a consumer cannot tell: `FollowLoss.ConsumerCannotTell`
  gives, for every capacity, a run with a gap and one without that yield the same batches.
- `complete` may return true for a result its request never sees. The result arrives exactly if, when it is
  put into the channel, the request is already waiting, or is about to emit and that succeeds. Once the
  deadline has struck it is lost, even if `complete` took the sender out of the map before that; and until
  the request is back `complete` returns true all the same: `AgentBridge.SentIsDeliveredIff`, with
  `AgentBridge.AcceptedButTimedOut` as a run.
- A text that starts with a byte order mark loses it when truncated, so the result is the longest prefix
  exactly for the other texts: `Truncation.TruncatedIsLongestPrefix`, with `Truncation.MarkedTextCanBeOversized`
  as an example.

## Model

| member | source | states |
|---|---|---|
| LineDiff.LinesDetermineText | guest-js/semantic-stream.ts:125-127 | two texts have the same line list iff they are the same text |
| LineDiff.CountLines | guest-js/semantic-stream.ts:131-134 | the first loop leaves a count map of `prev` whose insertion order is that of first occurrence |
| LineDiff.CrossOff | guest-js/semantic-stream.ts:136-144 | the second loop keeps the surplus lines of `next` in order and leaves the counts of the bag difference |
| LineDiff.LeftOver | guest-js/semantic-stream.ts:146-151 | the third loop lists what is left, key by key, each as often as it is left |
| LineDiff.DiffLines | guest-js/semantic-stream.ts:130-154 | the three loops together compute the specified difference |
| LineDiff.DiffIsLeast | guest-js/semantic-stream.ts:129-154 | the difference turns the old line bag into the new one, removes only what is there, never adds and removes the same line, and is contained in every other difference that does this |
| LineDiff.AddedInOrder | guest-js/semantic-stream.ts:136-144 | the added lines are those whose earlier occurrences have used up the old ones, in the order of the new text |
| LineDiff.RemovedInOrder | guest-js/semantic-stream.ts:146-151 | the removed lines come in the order in which the old text first shows them |
| LineDiff.SilentIffReordered | guest-js/semantic-stream.ts:58-63 | nothing is added or removed iff the texts are reorderings of each other |
| SemanticStreams.SemanticStream.constructor | guest-js/semantic-stream.ts:35-38 | a new stream is unprimed, empty, and has a buffer size of at least 1 |
| SemanticStreams.SemanticStream.Prime | guest-js/semantic-stream.ts:41-45 | the baseline is set and nothing else changes |
| SemanticStreams.SemanticStream.Tick | guest-js/semantic-stream.ts:48-69 | the method is the tick step on stream and waiters: it may prime, stay silent, or append a frame, evict one and wake everybody |
| SemanticStreams.SemanticStream.Pull | guest-js/semantic-stream.ts:72-87 | the answer is the specified one, and a pull changes nothing but priming an unprimed stream |
| SemanticStreams.SemanticStream.BeginWait | guest-js/semantic-stream.ts:93-113 | a wait is answered at once or parked, never both |
| SemanticStreams.SemanticStream.Settle | guest-js/semantic-stream.ts:100-108 | only the first settling of a wait has an effect |
| SemanticStreams.SemanticStream.Wake | guest-js/semantic-stream.ts:116-122 | every listed waiter is resolved, in order, and the list is empty |
| SemanticStreams.PrimeStarts | guest-js/semantic-stream.ts:41-52 | an unprimed stream is primed by its first tick as by `prime`, and then summarises an empty history |
| SemanticStreams.TickBridges | guest-js/semantic-stream.ts:53-64 | a tick is silent iff the text only reorders lines; otherwise it emits one frame with the next number that bridges the two texts |
| SemanticStreams.TickKeeps | guest-js/semantic-stream.ts:48-69 | after any tick the buffer is exactly the newest part of the history within its size, numbers have no gaps, and the history replays to the current text |
| SemanticStreams.TickAllKeeps | guest-js/semantic-stream.ts:48-69 | the same after any number of ticks, whose last text is the stream's |
| SemanticStreams.PullIsRetainedHistory | guest-js/semantic-stream.ts:72-87 | for an issued cursor a pull returns exactly the retained history after it; `dropped` iff a frame after it is gone; empty iff the cursor is current; a snapshot is left out only from an undropped lean pull with a cursor |
| SemanticStreams.FutureCursorIsReset | guest-js/semantic-stream.ts:76-86 | a cursor not issued yet gets no frames, no flag, and the current cursor |
| SemanticStreams.PollStepKeeps | guest-js/semantic-stream.ts:93-122 | every step keeps each parked wait listed or resolved, once; a listed wait leaves the list iff a frame is appended or its own timer fires |
| SemanticStreams.WaitParksIff | guest-js/semantic-stream.ts:93-112 | a wait parks iff it may take time and its cursor is current |
| SemanticStreams.ParkedUntilFrameOrTimeout | guest-js/semantic-stream.ts:98-112 | no lost wakeups over any run: a parked wait is still parked iff no frame was appended and its timer has not fired, and is resolved otherwise |
| SemanticStreams.EmptyAnswerIffQuiet | guest-js/semantic-stream.ts:93-113 | a resumed wait from an issued cursor answers without frames iff none was emitted in its window, whatever was evicted |
| StreamDiffs.Poll | guest-js/semantic-stream.ts:93-114 | a later poll is answered at once if there is a frame, and else parks, is settled by a frame or its timer, and pulls again: the answer is the specified one, and no other wait is lost |
| StreamDiffs.StreamDiffs | bin/tauri-agent.ts:650-687 | the loop against a live stream, its later polls parking, writes exactly the specified log of the polls made before its deadline |
| StreamDiffs.InTimeMeans | bin/tauri-agent.ts:665-668 | the loop polls up to the first check at or past its deadline |
| StreamDiffs.LinesAreTheAnswer | bin/tauri-agent.ts:659-685 | of an answer the snapshot is written first, or alone if frames were dropped, and else each frame once and in order |
| StreamDiffs.FirstLinesCatchUp | bin/tauri-agent.ts:656-663 | what the first poll writes brings a reader to the current text: any reader if it asked for everything, else one at its cursor |
| StreamDiffs.LaterLinesCatchUp | bin/tauri-agent.ts:673-686 | what a later poll writes does so too, with or without a resync |
| StreamDiffs.LogReplaysCurrentText | bin/tauri-agent.ts:650-687 | end-to-end replay: after every poll of every run, whatever is captured before the polls and while they are parked, a reader of the log holds the line bag of the text captured last |
| StreamDiffs.PollSilentIffQuiet | bin/tauri-agent.ts:665-686 | a poll from the current cursor writes nothing iff no frame is emitted before it or in its window |
| StreamDiffs.PrimedReaderCatchesUpIff | guest-js/semantic-stream.ts:41-45 | why callers may prime only new streams, as they do: a second `prime` leaves a reader in step right iff it is behind the window or the text only reorders lines (`PrimingAgainMisleads` is a failing run) |
| CaptureBuffers.CaptureBuffer.constructor | guest-js/capture-buffer.ts:14-14 | a new buffer is empty |
| CaptureBuffers.CaptureBuffer.Push | guest-js/capture-buffer.ts:16-19 | the method is the push step |
| CaptureBuffers.CaptureBuffer.Read | guest-js/capture-buffer.ts:21-37 | the method gives the specified answer or refusal, and clears only when it answers and is asked to |
| CaptureBuffers.PushKeeps | guest-js/capture-buffer.ts:16-19 | after a push the buffer is the newest part of everything pushed, within its capacity |
| CaptureBuffers.AnswerIsPieceOfHistory | guest-js/capture-buffer.ts:28-36 | for an issued cursor the answer is one contiguous piece of the history, starting at the cursor or where retention starts, ending at the limit or the newest entry, which is the returned cursor; `dropped` iff the cursor precedes retention, also after a clear |
| CaptureBuffers.RefusalNamesCulprit | guest-js/capture-buffer.ts:22-27 | which cursors and limits are refused, and the cursor before the limit |
| CaptureBuffers.FutureCursorIsReset | guest-js/capture-buffer.ts:28-36 | a cursor not issued yet gets nothing, no flag, and the newest cursor |
| CaptureBuffers.ClearIsReported | guest-js/capture-buffer.ts:28-36 | after an accepted clear whoever was behind reads nothing but `dropped`; a read that does not clear, or is refused, changes no later answer |
| CaptureBuffers.FollowTiles | daemon/connect.ts:159-182 | for a follower that passes each cursor back, under any pushes, reads, limits and clears of others, the answers cut the history into pieces with a gap before exactly the `dropped` ones |
| CaptureBuffers.FollowAnswersEveryTurn | daemon/connect.ts:159-182 | every poll is answered while cursors are safe integers, and without a limit the last cursor is the newest entry |
| CaptureBuffers.DeliveredIsSubsequence | daemon/connect.ts:159-182 | delivery is a strictly increasing subsequence of the history after the start |
| CaptureBuffers.SkippedIsReported | daemon/connect.ts:159-182 | every number up to the cursor was either delivered or lies in a gap reported as `dropped`, never both |
| CaptureBuffers.CompleteIffNothingDropped | daemon/connect.ts:159-182 | the concatenated answers are the whole history from start to cursor iff no answer said `dropped` |
| CaptureBuffers.YieldsDeliver | daemon/connect.ts:174-176 | leaving out empty batches loses no entry |
| CaptureBuffers.ConsumerCompleteIffNothingDropped | daemon/connect.ts:159-182 | the batches a consumer gets are complete iff no poll said `dropped`, a flag the consumer is not given |
| FollowLoss.SparedIffRetained | guest-js/capture-buffer.ts:16-37 | after any events of others everything past a cursor is still retained iff it was before and no push went beyond the capacity and no accepted clear came while something was unread |
| FollowLoss.NothingDroppedIffUnharmed | daemon/connect.ts:159-182 | no poll of a follower says `dropped` iff before each answered poll others spared what it had not read, and no clearing poll of its own left entries behind its limit |
| FollowLoss.ConsumerCompleteIffUnharmed | daemon/connect.ts:159-182 | so exactly then the consumer's batches are the whole history from the start to the cursor |
| FollowLoss.UnharmedWithoutLimit | daemon/connect.ts:159-182 | caught up and without a limit, that is: in each turn of others no pushed entry is evicted and no clear follows a push |
| FollowLoss.ConsumerCannotTell | daemon/connect.ts:172-176 | for every capacity, two runs that yield the same batches: one with a gap, where more was pushed than the buffer holds, and one without |
| CaptureBuffers.PollFollow | daemon/connect.ts:159-182 | the loop over a live buffer yields exactly the specified batches |
| DetailIndex.CaptureIdInjective | guest-js/instrumentation.ts:907-912 | ids of different captures differ, across the kinds that share a counter |
| DetailIndex.TracedCaptures.Capture | guest-js/instrumentation.ts:907-930 | a capture site performs the capture step, in whichever order it fills map and list |
| DetailIndex.TracedCaptures.List | guest-js/instrumentation.ts:598-612 | listing performs the list step; a refused read clears neither list nor map |
| DetailIndex.CaptureKeepsAgreement | guest-js/instrumentation.ts:1208-1211 | a capture, with or without eviction, keeps list and map holding the same newest captures |
| DetailIndex.IndexAgrees | guest-js/instrumentation.ts:596-612 | in every reachable state the map's keys are the listed ids in the same order, at most 1000 |
| DetailIndex.NewestThousandKept | guest-js/instrumentation.ts:1208-1211 | until a clear the newest 1000 captures are kept, or all if there are fewer |
| DetailIndex.DetailIffListed | guest-js/instrumentation.ts:1194-1206 | an id resolves iff it is listed, and then to what was captured under it; any other is reported as blank or not retained |
| DetailIndex.RefusedDetail | guest-js/instrumentation.ts:1194-1206 | a blank id is refused first, then an id beside any list option |
| SemanticTree.PlanListsShown | guest-js/semantic-tree.ts:437-482 | the traversal gives a line to exactly the elements not pruned, not passed over and included |
| SemanticTree.RelevantBelow | guest-js/semantic-tree.ts:575-586 | the recursive search finds a relevant element if there is one below |
| SemanticTree.RelevantFound | guest-js/semantic-tree.ts:575-586 | and only then |
| SemanticTree.RelevantShownIffUnpruned | guest-js/semantic-tree.ts:465-482 | an element with a ref role other than `item` is shown iff nothing down to it is pruned (and a list has an item or a name): skipping excluded items loses none |
| SemanticTree.PlanInOrder | guest-js/semantic-tree.ts:437-482 | lines come in document order |
| RefRegistry.MintKeeps | guest-js/semantic-tree.ts:530-541 | minting keeps every ref given, gives the element one, and keeps refs unique |
| RefRegistry.LineShowsRefRoleName | guest-js/semantic-tree.ts:484-499 | a line with a ref starts with the indentation of its depth, the ref, the role and the quoted name, if any |
| RefRegistry.EscapedInjective | guest-js/semantic-tree.ts:822-824 | escaping keeps names apart |
| RefRegistry.NameReadsBack | guest-js/semantic-tree.ts:822-824 | a quoted name reads back up to its closing quote, whatever follows, and only quotes and backslashes are changed |
| RefRegistry.CompactIsPrefix | guest-js/semantic-tree.ts:484-524 | a compact line is a prefix of its verbose line |
| RefRegistry.DrawIsMintThenRead | guest-js/semantic-tree.ts:484-541 | the one-pass drawing equals minting all refs first and reading lines and ref map off afterwards |
| RefRegistry.LaterReadsTheSame | guest-js/semantic-tree.ts:530-541 | lines and ref map read the same in any later registry |
| Snapshots.RefTable.AssignRef | guest-js/semantic-tree.ts:530-541 | the element's ref is reused or minted, and entered in the snapshot |
| Snapshots.RefTable.AppendLine | guest-js/semantic-tree.ts:484-499 | one line is drawn |
| Snapshots.RefTable.VisitChildren | guest-js/semantic-tree.ts:437-441 | the loop draws the plan of all children |
| Snapshots.RefTable.VisitElement | guest-js/semantic-tree.ts:443-463 | the recursion draws the plan of the element |
| Snapshots.RefTable.VisitListItems | guest-js/semantic-tree.ts:465-482 | the list path draws the plan with the stricter pruning |
| Snapshots.RefTable.SnapshotDocument | guest-js/semantic-tree.ts:90-110 | a snapshot returns the text and refs that `DocumentText.TextShowsDocument` describes and makes its refs the current ones |
| Snapshots.RefTable.ResolveRef | guest-js/semantic-tree.ts:112-124 | the method resolves against the current refs, with or without the `@` |
| Snapshots.RefTable.constructor | guest-js/semantic-tree.ts:45-47 | a new registry is blank |
| Snapshots.RefTable.ResetRefRegistry | guest-js/semantic-tree.ts:54-58 | a reset registry is blank again |
| Snapshots.SnapshotKeeps | guest-js/semantic-tree.ts:90-110 | a snapshot only adds to the registry and binds only what the registry binds |
| Snapshots.RefIdentity | guest-js/semantic-tree.ts:34-44 | over all runs of snapshots of any documents, two bindings have the same ref iff they have the same element |
| Snapshots.ResetReusesRefs | guest-js/semantic-tree.ts:49-58 | an explicit reset gives that up, and only with it does the example reuse a ref |
| Snapshots.ResolveFindsItsElement | guest-js/semantic-tree.ts:112-124 | a ref resolves to an element iff the latest snapshot bound it to that element and it is connected; no snapshot of the run gave the ref to another |
| Snapshots.PrintedRefResolves | guest-js/semantic-tree.ts:112-124 | a ref as the latest snapshot printed it, or without its `@`, gives its element if that is connected, and else is refused as detached |
| Snapshots.OtherRefIsStale | guest-js/semantic-tree.ts:112-118 | any other ref is refused as stale |
| Snapshots.UnchangedDocumentDrawsTheSame | guest-js/semantic-tree.ts:530-541 | an unchanged document drawn again, after any snapshots in between, mints nothing and gives the same text and refs |
| Snapshots.ModesAgree | guest-js/semantic-tree.ts:501-504 | both modes give the same refs, registry and number of lines, each compact line a prefix |
| Snapshots.SnapshotBindsInDocumentOrder | guest-js/semantic-tree.ts:429-435 | the ref map lists the shown elements with ref roles in document order, each once |
| Snapshots.RefIffShown | guest-js/semantic-tree.ts:443-499 | an element with a ref role has a ref in a full snapshot iff the traversal shows it |
| Snapshots.RefIffUnpruned | guest-js/semantic-tree.ts:443-499 | if its role is not `item`, iff nothing down to it is pruned (a list also needs an item or a name) |
| DocumentText.TextShowsDocument | guest-js/semantic-tree.ts:90-110 | from any start, after any snapshots: split at newlines, the text has one line for each element in view, in document order; each line is the element's own, at its depth, with the ref the snapshot binds to it (elements whose names, flags and annotations contain no newline) |
| DocumentText.NoMatchIsEmpty | guest-js/semantic-tree.ts:91-94 | a scope that matches nothing gives an empty text and no refs |
| DocumentText.InViewIffShown | guest-js/semantic-tree.ts:443-482 | said of the elements' own roles, names, states and children, the traversal shows an element iff nothing down to it is invisible, unless focused, or modal and not right under a list with a line; no item right under such a list is passed over; and it is worth a line |
| DocumentText.PlanDepth | guest-js/semantic-tree.ts:456-462 | a line is indented once for each ancestor with a line, but for outermost mains |
| DocumentText.LineIsLineOf | guest-js/semantic-tree.ts:484-524 | a whole line: indentation, ref if any, role, quoted name, number of items of a list, state flags, and annotations in verbose mode |
| DocumentText.ControlHasRefIffReachable | guest-js/semantic-tree.ts:443-482 | an element with a ref role other than `item` has a ref iff nothing down to it is cut off, and a list needs a name or an item |
| DocumentText.ItemHasRefIffInView | guest-js/semantic-tree.ts:465-482 | an item has one iff it is in view |
| QuietTick.UnchangedDocumentIsQuiet | guest-js/instrumentation.ts:306-328 | a tick over an unchanged document emits nothing and leaves the stream as it was, whatever snapshots came in between |
| RefSearch.FindRefs | guest-js/semantic-tree.ts:146-164 | the loop returns the first matches up to the limit, or fails on a detached element met before there are enough |
| RefSearch.FoundIsTakeOfFilter | guest-js/semantic-tree.ts:146-164 | over connected elements the result is take-limit of the filter in snapshot order |
| RefSearch.FilteredIs | guest-js/semantic-tree.ts:152-163 | the filter keeps exactly the matching refs, in order |
| RefSearch.LimitBounds | guest-js/semantic-tree.ts:795-803 | without a limit all matches, with none finite or positive no match, else at most its whole part and fewer only if there are no more |
| Locator.TargetIffOnlyMatch | guest-js/locator-action.ts:22-57 | a poll accepts a target iff it is the only match among all refs of the snapshot, stable, not hidden, and not disabled if the action is one of six, and no element of the snapshot is detached; it is ambiguous iff two match before a detached one |
| Locator.LocateActionable | guest-js/locator-action.ts:6-41 | for any clock the first deciding poll decides, and otherwise the wait ends at the first poll past the deadline with the error that follows from the polls; if the clock runs, within max(1, ceil(budget / 25)) polls |
| Locator.OutOfTimeMeans | guest-js/locator-action.ts:36-40 | the error after time ran out: some match could be acted on but moved; or else the last match was not actionable; or there never was a match |
| Framing.DueAppend | daemon/server.ts:115-117 | what is due for more bytes depends on the earlier ones only through their closed lines and the unclosed rest |
| Framing.DueMeans | daemon/server.ts:116-137 | what is due, said of the bytes split at newlines: each closed piece too long with its newline is reported, each other one that is not blank is a request, and an unclosed piece too long by itself is reported |
| Framing.UpToMeans | daemon/server.ts:100-114 | a stopping framer's items are all, or those up to the first oversized line |
| Framing.DueGrows | mcp/stdio.ts:22-42 | more bytes only add items, at the end |
| Framing.GivenUpForGood | daemon/server.ts:100-114 | after an oversized line nothing that follows changes what a stopping framer reports |
| McpStdio.Server.OnData | mcp/stdio.ts:14-43 | the handler is the chunk step, with its discard-and-resume state |
| McpStdio.ChunkKeeps | mcp/stdio.ts:14-43 | after any piece of text the output is what is due, the framer discards iff the unclosed line is oversized, and else buffers exactly it |
| McpStdio.OutputIsDue | mcp/stdio.ts:14-43 | chunk independence: the output is a function of the text delivered, one report per oversized line |
| RustServer.ReadCappedLine | src/server.rs:330-374 | one call consumes up to a newline, too many bytes or the end, returns exactly what it consumed, and says which |
| RustServer.ServedLine | src/server.rs:374-420 | a closed line is served, skipped or refused by itself, and what follows it as from a new stream |
| RustServer.HandleStream | src/server.rs:376-420 | the loop serves a function of the bytes and of where reads fail or end, however they are chunked: a read failing inside a line ends that line and the loop goes on; it serves a beginning of that if it is shut down or a write fails |
| RustServer.FailureInsideLineActsAsNewline | src/server.rs:346-352 | a read that fails inside a line acts as a newline there |
| RustServer.OtherwiseItEnds | src/server.rs:388-400 | at a line's start, after a timeout and after an oversized line the connection ends |
| SocketClient.Request.OnEvent | daemon/client.ts:129-166 | the event handlers are the exchange step |
| SocketClient.Request.Finish | daemon/client.ts:129-137 | only the first outcome settles the request |
| SocketClient.RunSettles | daemon/client.ts:129-166 | over any events the outcome is the first of what the text decides and a close, error or timeout |
| SocketClient.CutOff | daemon/client.ts:155-166 | how a request still open ends when the socket closes or fails or its time is up |
| SocketClient.BytesDecide | daemon/client.ts:146-160 | with only data the outcome depends on the text delivered alone: the first line iff it and its newline fit the cap |
| SocketClient.SettledOnce | daemon/client.ts:129-137 | a settled outcome never changes |
| SocketClient.ClientReadsFirstItem | daemon/client.ts:146-160 | the client decides the first item of the servers' framing |
| LineSocket.Connection.Enqueue | daemon/server.ts:83-99 | the method is the enqueue step |
| LineSocket.Connection.RejectOversizedRequest | daemon/server.ts:100-110 | the method is the rejection step, once |
| LineSocket.Connection.OnData | daemon/server.ts:111-138 | the data handler, with its early return, is the data step |
| LineSocket.Connection.OnTask | daemon/server.ts:87-98 | start, response, failure and flush of a task are the specified steps |
| LineSocket.Connection.Finally | daemon/server.ts:92-98 | the work item is over, and the last one resumes the socket and its timer |
| LineSocket.StepKeeps | daemon/server.ts:62-139 | every event, in any interleaving, keeps the connection's invariant |
| LineSocket.ServesInOrder | daemon/server.ts:62-139 | at most one task under way, each after the one before is over; outputs in request order, a refusal last; `queued` counts the unfinished work; while open, paused with the idle timer off iff there is some, and then idleness cannot strike |
| LineSocket.NextStartsAfterFlush | daemon/server.ts:126-131 | the next handler starts only after a written response was flushed |
| LineSocket.NeverStuck | daemon/server.ts:87-98 | while work is unfinished some task gets further by its turn, its handler's return or failure, or its flush |
| LineSocket.WrittenIff | daemon/server.ts:100-131 | a reply is written iff a handler came back with it while the connection was open and writable, a refusal iff an oversized line's turn came then |
| LineSocket.ClosedIff | daemon/server.ts:72-82 | the connection is closed iff the socket was, the idle timer struck with nothing queued, or an oversized line's turn came; and then it accepts nothing |
| LineSocket.WorkIsDue | daemon/server.ts:111-138 | chunk independence: the work taken on is the common framing of the text heard, up to the first oversized line |
| LineSocket.EveryRequestAnswered | daemon/server.ts:62-139 | a healthy connection that has worked off its queue wrote one reply per request line in order, each the response its own handler came back with, then a refusal if one line was oversized |
| Decoding.DeliveredIsText | mcp/stdio.ts:13-15 | however bytes are chunked, valid or not, the text events carry the decoding of all of them, in order |
| Decoding.TextOfIsSameIff | mcp/stdio.ts:13-15 | the text delivered, in UTF-8, is the bytes received iff these are the encoding of some text |
| Decoding.TextOfCut | daemon/server.ts:79-79 | of a text cut after any byte exactly its whole characters are delivered |
| FramersAgree.FramersAgreeOn | src/server.rs:330-420 | daemon, MCP server and client compute one function of any bytes under any chunkings, the client its first item; the Rust server serves at least the same while the text delivered is a prefix of the bytes, and exactly the same and the unclosed last line while it is all of them |
| FramersAgree.BrokenBytesDisagree | src/server.rs:330-374 | with invalid UTF-8 it need not: a line that fits the Rust server's limit and whose decoding is too long for the others |
| AgentBridge.IdTextInjective | src/bridge.rs:61-65 | bridge ids with different numbers differ, whatever their random suffixes |
| AgentBridge.BridgeState.Begin | src/bridge.rs:61-65 | taking a number and making the id is the begin step |
| AgentBridge.BridgeState.InsertPending | src/bridge.rs:105-112 | entering the sender is the insert step |
| AgentBridge.BridgeState.Emitted | src/bridge.rs:70-81 | the emit's outcome is the emit step |
| AgentBridge.BridgeState.Receive | src/bridge.rs:84-101 | a receive before the deadline is the receive step: a result, a disconnected channel, or still blocked |
| AgentBridge.BridgeState.GiveUp | src/bridge.rs:70-98 | both error paths are the clean-up step |
| AgentBridge.BridgeState.TakeSender | src/bridge.rs:114-122 | the first half of `complete` is the take step: one caller gets the sender |
| AgentBridge.BridgeState.SendResult | src/bridge.rs:124-131 | the second half is the send step, and its result is whether the receiver is still there |
| AgentBridge.RunKeeps | src/bridge.rs:51-140 | every interleaving of requests, emit failures, completions and timeouts keeps the protocol's invariant |
| AgentBridge.RequestsGetTheirOwnResult | src/bridge.rs:84-131 | a request that is back left no map entry, never found its channel disconnected, and got at most what a completion that returned true carried under its own id: its error with the code, or else its value, null if it has none |
| AgentBridge.GaveUpIff | src/bridge.rs:70-98 | a request fails with the emit's error iff its emit failed, and times out iff its deadline struck with nothing in the channel |
| AgentBridge.UndisturbedRequest | src/bridge.rs:51-132 | from any reachable state a new request left to itself gets what is submitted for it |
| AgentBridge.UnansweredRequest | src/bridge.rs:70-98 | or fails with its emit, or times out, leaving no entry |
| AgentBridge.UnknownIdIsRefused | src/bridge.rs:114-122 | a completion nobody awaits returns false and changes no request |
| AgentBridge.CompletesOncePerId | src/bridge.rs:114-132 | `complete` returns true at most once per id |
| AgentBridge.IdsAreFresh | src/bridge.rs:59-65 | no two requests of a run share an id |
| AgentBridge.SentIsDeliveredIff | src/bridge.rs:84-132 | for every send of a taken result, in every interleaving: `complete` returns true iff the request is not back, and the request gets the result iff it is waiting at the send, or is about to emit and that succeeds |
| AgentBridge.AcceptedIsDeliveredOrTooLate | src/bridge.rs:84-132 | a result accepted with true is delivered unless its request timed out or failed to emit |
| AgentBridge.AcceptedButTimedOut | src/bridge.rs:93-98 | a concrete interleaving in which an accepted result is lost to the timeout |
| BridgeGate.BridgeGateState.DeferDirectAgentInvokes | guest-js/bridge-gate.ts:4-14 | the method is the deferral step |
| BridgeGate.BridgeGateState.ReleaseToken | guest-js/bridge-gate.ts:15-26 | the method is the release step |
| BridgeGate.ReleaseKeeps | guest-js/bridge-gate.ts:15-26 | a release keeps the gate's invariant, and a second one does nothing |
| BridgeGate.GateIffHeld | guest-js/bridge-gate.ts:1-31 | the gate exists iff a token is unreleased, and once none is every waiter may go |
| BridgeGate.ResponseBeforeInvoke | guest-js/instrumentation.ts:678-699 | a direct invoke begun while a bridge request is handled is issued only after that request's response call settled |
| BridgeGate.RequestGoesOn | guest-js/instrumentation.ts:678-699 | however its method and response calls end, a request gets past them and then drops its token |
| BridgeGate.InvokeGoes | guest-js/bridge-gate.ts:28-31 | an invoke that may go does, and with no token held one may go at once |
| Utf8.FeedText | guest-js/instrumentation.ts:1469-1473 | the decoder reads every encoded text back, lone surrogates as U+FFFD |
| Utf8.SequenceIsEncoding | guest-js/instrumentation.ts:1473-1473 | what the decoder takes for a character of several bytes is that character's own encoding: no overlong form, no surrogate |
| Utf8.DecodeEncode | guest-js/instrumentation.ts:1469-1473 | decoding what was encoded gives the text back, without a leading byte order mark |
| Utf8.DecodeCut | guest-js/instrumentation.ts:1473-1473 | a cut text reads back as its whole characters and one U+FFFD if a character was torn |
| Utf8.BrokenSequences | guest-js/instrumentation.ts:1473-1473 | a byte that cannot go on a sequence ends it with U+FFFD and is read afresh |
| Truncation.TruncateUtf8 | guest-js/instrumentation.ts:1468-1478 | the function returns a text of at most 65536 bytes as it is, computes the specified truncation of every other, and trims at most once |
| Truncation.TruncatedIsBounded | guest-js/instrumentation.ts:1474-1477 | the output is at most 65536 UTF-8 bytes, for every string |
| Truncation.UnchangedIffItFits | guest-js/instrumentation.ts:1468-1470 | a text is left as it is iff it has at most 65536 bytes |
| Truncation.TruncatedIsThis | guest-js/instrumentation.ts:1471-1478 | exactly what becomes of any other text, with or without a byte order mark |
| Truncation.TruncatedIsLongestPrefix | guest-js/instrumentation.ts:1468-1478 | an oversized text becomes its longest fitting prefix of whole characters, U+FFFD only where three bytes of a four-byte character were left, and the suffix, iff it has no byte order mark in front |
| Truncation.MarkedTextCanBeOversized | guest-js/instrumentation.ts:1468-1478 | there is an oversized text with a byte order mark |
| AppId.SafeAppIdInTypeScript | daemon/endpoint.ts:191-206 | the TypeScript loop computes the escape |
| AppId.SafeAppIdInRust | src/endpoint.rs:332-352 | the Rust loop computes the same escape |
| AppId.PlainIdIsItsOwnComponent | daemon/endpoint.ts:191-206 | an id of letters, digits, `_`, `-` and dots, but not dots alone, is its own component |
| AppId.OtherBytesAreEscaped | daemon/endpoint.ts:200-203 | any other byte becomes a tilde and two upper-case hexadecimal digits |
| AppId.AppIdRoundTrip | daemon/endpoint.ts:191-206 | the escape has a left inverse on all byte strings |
| AppId.SafeAppIdInjective | daemon/endpoint.ts:191-206 | two app ids, as the byte strings escaped, share a component iff they are equal |
| AppId.TextIdsShareIffSameScalars | daemon/endpoint.ts:191-206 | two JavaScript ids share a component iff they are equal up to lone surrogates, which are encoded as U+FFFD |
| AppId.SafeAppIdIsPathSafe | daemon/endpoint.ts:191-206 | the component is non-empty, never all dots, and only of `[A-Za-z0-9_.~-]` |

## Left out

- Sockets, files, processes, Tauri windows, screenshots and real timers: they appear only as the events and readings above.
- JSON parsing and printing, request validation and the handlers behind the framers: lines and responses are opaque.
- Decoding of invalid UTF-8: one U+FFFD per maximal broken sequence, as the WHATWG standard has it; that Node.js splits broken sequences the same way is assumed.
- What counts as a blank line: a predicate shared by the framers, since JavaScript and Rust trim slightly different characters.
- HandleStream: the trimming and lossy decoding of the line handed to the backend are not modelled.
- TracedCaptures.Capture: a `fetch` whose `init.body` is a getter that throws, between filling the map and filling the list (guest-js/instrumentation.ts, lines 919-930), would leave a detail without a list entry; page code is assumed not to do that.
- OnTask: a failing socket write is a flush, as the write callback is called either way.
- Element accessors (`semanticRole`, `accessibleName`, state flags, visibility, verbose annotations): fields of the abstract element, evaluated once per snapshot.
- Elements of a document have distinct identities: an assumption of the theorems that say which elements have refs, not of ref identity.
- Text matching of `findRefs` is a predicate; the synthetic DOM events behind an action are not modelled.
- `handleBridgeRequest` beyond the order of its response call and its release; `bridge_response_timeout`, a two-sided clamp.
- Wrapping of `fetch`, `XMLHttpRequest`, `WebSocket` and `invoke` beyond list and map bookkeeping; details are filled in later without changing their key.
- Integer limits: sequence numbers, ids and counters are unbounded here, doubles and 64-bit words there. The safe-integer check of `read` is modelled.
- Positions of lines: frames carry none, so a reader is promised the bag of lines, not their order.
