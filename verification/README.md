# kak-tree-sitter, verified

kak-tree-sitter is a server between the Kakoune editor and tree-sitter. Kakoune writes the text of
each buffer into a FIFO; an IO thread cuts that stream into frames and leaves the newest one in a
mailbox; a handler thread takes it, parses it, and answers with highlights and selections. This
project models that server in Dafny and proves what it promises.

| file | what it models |
|---|---|
| `options.dfy`, `protocol.dfy` | optional values; requests and commands |
| `tokens.dfy`, `session.dfy` | the token allocator and the session tracker |
| `substrings.dfy`, `fifo.dfy` | sentinel framing of one FIFO |
| `triple_buffer.dfy` | the mailbox: one locked text and a read flag |
| `io.dfy`, `io_handler.dfy` | the IO thread, as a state machine and as the object that implements it |
| `handler.dfy`, `handler_thread.dfy` | the handler thread and its trees, as an object, and as the steps it takes |
| `machine.dfy` | both threads, the clients and a reload as one step machine |
| `lost_update.dfy`, `command_log.dfy`, `reload.dfy`, `parses.dfy`, `progress.dfy`, `end_to_end.dfy` | what holds in every run of that machine |
| `recovery.dfy`, `lost_trees.dfy` | how a buffer gets a tree back, and runs in which it has none |
| `positions.dfy`, `selection.dfy`, `selection_text.dfy` | positions and selections, in memory and in print |
| `highlighting.dfy`, `highlight_text.dfy` | the highlight sweep and what it prints |
| `text_objects.dfy`, `cousins.dfy` | moving selections between captures, and between tree nodes |
| `string_order.dfy`, `capture_names.dfy` | from capture names to faces |
| `paths.dfy`, `discovery.dfy`, `languages.dfy` | finding languages on disk; lazy loading with the grammar cache |

The step machine is fine-grained: the IO thread writes, sets the flag, clears and sends in separate
steps; the handler receives, looks at the flag without the lock, swaps, sets the flag and parses in
separate steps; a reload makes the new handler, closes the old channel and waits for the old handler to
exit in separate steps. A run is any interleaving, and from any point of it the server comes to rest by
itself (`Progress.TextsReachTheTree`). The classes (`Tokens`, `Fifo`, `TripleBuffer`, `IOHandler`,
`Trees`, `Handler`, `SessionTracker`, `Languages`) have the form of the source and are proved against
the functions the step machine is made of. Foreign code (parsing, queries, grammar loading) and the
operating system appear as parameters that may take any value.

Where the code does something else than one might expect, the model does the same:

- A `Fifo` read drops at most one frame and then reports that nothing is ready, even if a complete
  frame is left. That frame waits for the client's next write (`Framing.TwoFramesAtOnceStrand`), so at
  rest the tree holds the last frame sent exactly when the buffer is empty
  (`EndToEnd.TreeHoldsLastSentFrameIff`).
- That a payload does not contain the sentinel is not enough for it to arrive
  (`Framing.SentinelFreePayloadIsNotEnough`); the exact condition is `Framing.DeliveredIntactIffGood`.
- A FIFO whose registration fails keeps its token; the conservation law counts it.
- `SessionEnd` and `Reload` take trees away but keep FIFOs and mailboxes, so an open buffer can be left
  without a tree and lose its frames (`LostTrees.UpdatesAreLost`). `LostUpdates.UpToDateIffFed` gives the
  exact condition, and `Recovery.RecoveredTreeIsUpToDate` the way back.
- A change of language renames it but parses with the language the tree was made with
  (`TreeStore.LanguageChangeRenamesOnly`).
- A selected node is recognised exactly when it is not empty.
- The capture chosen for a position need not be the narrowest; `TextObjects.NarrowestIffLastListedIsShortest`
  says exactly when it is.
- A cousin move gives up at a childless uncle.
- A grammar path without a readable stem would make the grammar cache observable. Discovery returns no
  such path, and `LanguageCache.DiscoveredIsTransparent` needs no assumption about symbols.

## Model

| member | source | states |
|---|---|---|
| `LostUpdates.StepKeepsInv` | kak-tree-sitter/src/server/io.rs:374-392 | one invariant of both threads, every mailbox and the queue is kept by every atomic step of either thread, of a client and of a reload |
| `LostUpdates.RunInv` | kak-tree-sitter/src/server/handler.rs:150-214 | the invariant holds at every point of every run, whatever the interleaving |
| `LostUpdates.NoLostUpdate` | kak-tree-sitter/src/server/triple_buffer.rs:39-74 | at rest, the tree of an open buffer holds the last frame written to its mailbox, unless its first `BufferMetadata` failed, its session ended or the server reloaded |
| `LostUpdates.NoLostUpdateInHarmlessRuns` | kak-tree-sitter/src/tree_sitter/state.rs:118-130 | the same with the exceptions told as events of the run instead of as recorded state |
| `LostUpdates.UpToDateIffFed` | kak-tree-sitter/src/tree_sitter/state.rs:118-130 | without exceptions: at rest a tree holds the last frame exactly when an update from that FIFO reached it since it was made (or it is new and the frame is empty) |
| `LostUpdates.FedTreeIsUpToDate` | kak-tree-sitter/src/server/triple_buffer.rs:42-54 | at rest, a tree that took part in a swap with its open mailbox is up to date; one that took part in none is absent or empty |
| `LostUpdates.SwapTakesTheLatest` | kak-tree-sitter/src/server/triple_buffer.rs:48-52 | every swap in every run hands over the text written last, so text swapped into the slot never comes back |
| `LostUpdates.HandlerCatchesUp` | kak-tree-sitter/src/server/handler.rs:153-211 | every handler step lowers a measure, and a handler with work, or with a closed channel, is never stuck unless the writer is inside the lock |
| `Progress.TextsReachTheTree` | kak-tree-sitter/src/server/triple_buffer.rs:39-74 | from any point of any run: once the threads have finished what they have in hand, in any order, the tree of each open buffer with nothing disturbed holds the last text written to its mailbox |
| `Progress.RestIsReached` | kak-tree-sitter/src/server/handler.rs:153-211 | every run, from wherever it is, can be continued to a state of rest without a client, a request, data or a reload |
| `Progress.InternalRunsAreShort` | kak-tree-sitter/src/server/io.rs:374-404 | and it comes there whatever the order of the steps: a measure bounds how many steps the two threads can take by themselves |
| `Progress.AtRestIsQuiet` | kak-tree-sitter/src/server/io.rs:374-404 | when neither thread has a step of its own left, no command waits, nothing is half done, and the handler of a stopped server has exited |
| `Progress.IoNeverStuck` | kak-tree-sitter/src/server/triple_buffer.rs:64-73 | while the IO thread writes, or waits for a reload, it has a step or waits for one the handler can take: the lock is no deadlock |
| `Progress.IdleTakesAnything` | kak-tree-sitter/src/server/io.rs:98-136 | an idle IO thread takes any connection, request, reload and data |
| `Reloads.OneReader` | kak-tree-sitter/src/server/io.rs:394-404 | on reload only the old handler does anything until it has exited with nothing left to receive, so a mailbox has one active reader |
| `Reloads.ExitLeavesNothing` | kak-tree-sitter/src/server/handler.rs:153-162 | in every run a handler that has exited, by a shutdown or by a closed channel, has left no command behind |
| `Reloads.OldHandlerReceivesAll` | kak-tree-sitter/src/server/handler.rs:93-104 | when the new handler takes over, what was received is all that was ever sent, in order |
| `Reloads.ReloadFinishes` | kak-tree-sitter/src/server/handler.rs:93-104 | a reload does not hang: the old handler has a step until it has exited, only its own steps change what it has left to do and each lowers it, and then the new one can take over |
| `Reloads.StopsIffTold` | kak-tree-sitter/src/server/io.rs:118-135 | in every run the IO thread has stopped exactly if one of the requests it served was one that ends the server |
| `Recovery.RecoveredTreeIsUpToDate` | kak-tree-sitter/src/tree_sitter/state.rs:118-130 | whatever happened before: from any point at which an open buffer has a tree, and as long as it keeps it, a text written later makes the tree hold the last text at rest |
| `Recovery.TreeThatStaysIsSafe` | kak-tree-sitter/src/server/handler.rs:249-279 | a tree that is there until the server comes to rest has nothing queued that takes it away |
| `LostTrees.UpdatesAreLost` | kak-tree-sitter/src/server/io.rs:251-274 | two runs, action by action, one with a session end and one with a reload, after which an open buffer does not get the text written to its mailbox |
| `LostTrees.OrphanedBufferLosesFrame` | kak-tree-sitter/src/server/handler.rs:287-288 | in any run, an open buffer without a tree loses the next frame even if nothing interferes |
| `Parses.RunCurrent` | kak-tree-sitter/src/tree_sitter/state.rs:132-144 | in every run, a tree whose last parse did not fail has the syntax of the text it holds |
| `Parses.SyntaxIsOfLastText` | kak-tree-sitter/src/tree_sitter/state.rs:118-144 | at rest the syntax of an undisturbed buffer is that of the last text written to its mailbox, unless its parse failed |
| `Parses.UpdateLeavesCurrentIff` | kak-tree-sitter/src/tree_sitter/state.rs:118-144 | one update, by unfolding: the syntax is of the new text exactly when the parse succeeds or the text is the one parsed before |
| `Parses.StaleHasFailed` | kak-tree-sitter/src/tree_sitter/state.rs:132-144 | in every run, what `Parses.RunCurrent` excepts are only buffers one of whose parses failed |
| `LostUpdates.HarmlessRun` | kak-tree-sitter/src/server/handler.rs:249-279 | only a reload, an end of the session or a failed first metadata can separate a buffer from its tree |
| `LostUpdates.SwapKeepsUndisturbed` | kak-tree-sitter/src/server/triple_buffer.rs:42-54 | a mailbox left over from a closed FIFO is never swapped into the tree of the reopened buffer |
| `LostUpdates.NewMailboxInv` | kak-tree-sitter/src/server/io.rs:295-308 | a reopened buffer gets a mailbox of its own, and the command that makes its tree is queued before any update from it |
| `LostUpdates.CloseKeepsMailbox` | kak-tree-sitter/src/server/io.rs:318-331 | closing one buffer keeps what is owed to every other mailbox, and dooms the updates still queued for its own |
| `Machines.UninterruptedRead` | kak-tree-sitter/src/server/io.rs:374-392 | run without interference, the small steps write, flag, clear and send of the IO thread are its read function |
| `Machines.UninterruptedUpdate` | kak-tree-sitter/src/server/handler.rs:282-295 | run without interference, the small steps check, swap, mark and parse of the handler are its update function |
| `Machines.UninterruptedCommand` | kak-tree-sitter/src/server/handler.rs:249-279 | every other command takes one step of the handler thread, which leaves the trees and mailboxes that its handler function leaves |
| `HandlerThread.CommandIsSteps` | kak-tree-sitter/src/server/handler.rs:153-196 | each command the handler function carries out at once is a sequence of steps the handler thread can take |
| `HandlerThread.LoopIsSteps` | kak-tree-sitter/src/server/handler.rs:150-214 | the whole receive loop of the handler object is a run of the handler thread with nobody in its way; it has exited exactly if there was a shutdown, and otherwise has nothing left to receive |
| `Machines.RequestOnlySends` | kak-tree-sitter/src/server/io.rs:233-270 | every other request sends at most one command and leaves the FIFOs and mailboxes alone |
| `EndToEnd.RunWires` | kak-tree-sitter/src/server/fifo.rs:185-214 | in every run of the whole server the stream of each FIFO agrees with its buffer, and what was handed out is what was written to its mailbox |
| `EndToEnd.TreeHoldsLastDeliveredFrame` | kak-tree-sitter/src/server/io.rs:374-392 | from client to tree: at rest the tree holds, whole and alone, a frame its client sent, the last one handed out, and every frame before it was handed out or dropped |
| `EndToEnd.TreeHoldsLastSentFrameIff` | kak-tree-sitter/src/server/fifo.rs:199-206 | at rest, with everything the client wrote read, the frame in the tree is the last one sent exactly when the buffer of the FIFO is empty |
| `EndToEnd.ReadKeepsWires` | kak-tree-sitter/src/server/fifo.rs:167-215 | a read of one FIFO keeps the framing of all |
| `EndToEnd.ClientsAreToldTheTruth` | kak-tree-sitter/src/server/io.rs:287-315 | in every run, each `BufferMetadata` ever sent names, with its FIFO, the buffer that FIFO was made for and the sentinel its stream is cut at |
| `CommandLog.RunLog` | kak-tree-sitter/src/server/io.rs:226-331 | in every run the commands sent say exactly which buffers and sessions are open |
| `CommandLog.UpdatesComeWhileOpen` | kak-tree-sitter/src/server/io.rs:386-389 | every `BufferUpdate` ever sent has a `BufferMetadata` of its buffer before it and no `BufferClose` of it in between |
| `CommandLog.SessionEndsBetweenInits` | kak-tree-sitter/src/server/io.rs:234-270 | two `SessionInit` of one session are separated by its `SessionEnd` |
| `CommandLog.SentIsReceivedThenQueued` | kak-tree-sitter/src/server/handler.rs:83-91 | in every run what was sent is what was received followed by what is queued: in order, each command once, across reloads |
| `CommandLog.RunTail` | kak-tree-sitter/src/server/handler.rs:153-153 | the queue is always the end of the log of commands sent |
| `CommandLog.OpenMeansNoCloseSince` | kak-tree-sitter/src/server/io.rs:287-308 | what being open means for the positions of the commands in the log |
| `CommandLog.RunTreesBounded` | kak-tree-sitter/src/tree_sitter/state.rs:33-73 | at every point of every run, replaying the queue on the trees gives keys that all belong to open buffers |
| `CommandLog.TreesAreTheOpenBuffers` | kak-tree-sitter/src/server/handler.rs:249-279 | no tree outlives its buffer; at rest, with nothing disturbed, the buffers with a tree are exactly the open ones |
| `IoServer.TokenAndMapInvariant` | kak-tree-sitter/src/server/io.rs:146-331 | after any events: free list, client, FIFO and leaked tokens are disjoint, without duplicates and in range, and the two maps are inverse to each other |
| `IoServer.TokensConserved` | kak-tree-sitter/src/server/tokens.rs:23-34 | tokens ever made = free + clients + FIFOs + failed FIFO registrations |
| `IoServer.TokenNamesOneThing` | kak-tree-sitter/src/server/io.rs:182-203 | a token never stands for a client and a FIFO at once, and neither is a reserved or a free one |
| `IoServer.UnknownTokenUnreachable` | kak-tree-sitter/src/server/io.rs:289-292 | the lookup of the FIFO of a known buffer never fails |
| `IoServer.CloseUndoesOpen` | kak-tree-sitter/src/server/io.rs:282-331 | opening and closing a buffer gives back both maps and the tokens in use, and the next token is the one it would have been |
| `IoServer.AcceptKeepsInv` | kak-tree-sitter/src/server/io.rs:146-179 | accepting a client keeps the invariant, also when its registration fails and the token is recycled |
| `IoServer.SetBufferKeepsInv` | kak-tree-sitter/src/server/io.rs:282-316 | every outcome of `BufferMetadata` keeps the invariant, including the failed registration that leaks a token |
| `IoServer.CloseBufferKeepsInv` | kak-tree-sitter/src/server/io.rs:318-331 | `BufferClose` keeps the invariant, for known and unknown buffers |
| `IoServer.ProcessReqKeepsInv` | kak-tree-sitter/src/server/io.rs:226-371 | every request keeps the invariant |
| `IoServer.RequestIsForwarded` | kak-tree-sitter/src/server/io.rs:226-371 | exactly which requests fail, and with what; every other one but a reload and a session begun twice sends exactly one command, of its own kind and with its own metadata |
| `IoServer.MetadataNamesTheFifo` | kak-tree-sitter/src/server/io.rs:282-316 | for an open buffer: one command with the language of the request and the FIFO and sentinel the buffer already has, and nothing changes; for a new one: those of the FIFO just made; none if that fails |
| `IoServer.OpenBufferIsNamed` | kak-tree-sitter/src/server/io.rs:282-304 | which buffer a request opens or closes |
| `IoServer.ExitsIffServerEnds` | kak-tree-sitter/src/server/io.rs:251-274 | the server exits exactly at a shutdown and at the end of the last session of a server that is not standalone |
| `IoServer.SessionTrackedIff` | kak-tree-sitter/src/server/io.rs:234-258 | a session is tracked from its begin to its end, and no other request changes that |
| `IoServer.ReadLeaves` | kak-tree-sitter/src/server/io.rs:374-392 | a failed read loses what was buffered; a frame that is handed out was all there was but the sentinel, is announced once, and leaves nothing; otherwise only data at the front is lost |
| `IoHandlers.IOHandler.constructor` | kak-tree-sitter/src/server/io.rs:61-96 | the object starts in the initial state |
| `IoHandlers.IOHandler.UnixListenerAccept` | kak-tree-sitter/src/server/io.rs:146-179 | the accept loop: state and result for every sequence of connections, failed registrations, interruptions and errors |
| `IoHandlers.IOHandler.AcceptOne` | kak-tree-sitter/src/server/io.rs:156-175 | one connection, registered or recycled |
| `IoServer.AcceptAllIs` | kak-tree-sitter/src/server/io.rs:146-179 | the accept loop accepts every connection in order, up to and including the first failed registration, failure or end of connections, and that decides its result |
| `IoHandlers.IOHandler.OpenFifo` | kak-tree-sitter/src/server/io.rs:295-308 | the new FIFO takes the next token and enters both maps |
| `IoHandlers.IOHandler.ForgetBuffer` | kak-tree-sitter/src/server/io.rs:323-326 | both maps lose the buffer and its token is recycled |
| `IoHandlers.IOHandler.HandleSetBuffer` | kak-tree-sitter/src/server/io.rs:282-316 | new state, result and command of every branch of `BufferMetadata` |
| `IoHandlers.IOHandler.HandleCloseBuffer` | kak-tree-sitter/src/server/io.rs:318-331 | new state, result and command of `BufferClose` |
| `IoHandlers.IOHandler.HandleSession` | kak-tree-sitter/src/server/io.rs:234-269 | session tracking, the commands sent, and when the server exits |
| `IoHandlers.IOHandler.HandleRequest` | kak-tree-sitter/src/server/io.rs:226-371 | the object does what the state machine says for every request but `Reload` |
| `IoHandlers.IOHandler.HandleReload` | kak-tree-sitter/src/server/io.rs:394-404 | a new channel, and the old one closed with its queue untouched, if the configuration loads; nothing otherwise; FIFOs and maps stay |
| `IoHandlers.IOHandler.Deliver` | kak-tree-sitter/src/server/io.rs:384-389 | write to the mailbox, clear the FIFO, then send the update |
| `IoHandlers.IOHandler.ReadFifo` | kak-tree-sitter/src/server/io.rs:379-379 | only the buffer of that FIFO changes, as the read decides |
| `IoHandlers.IOHandler.HandleRead` | kak-tree-sitter/src/server/io.rs:379-391 | what a read comes to: nothing, or one frame delivered |
| `IoHandlers.IOHandler.HandleReadable` | kak-tree-sitter/src/server/io.rs:374-392 | the object does what the state machine says for a readable token, unknown tokens and read errors included |
| `IoHandlers.CommandSender.Send` | kak-tree-sitter/src/server/handler.rs:83-90 | commands are queued in order |
| `IoHandlers.CommandSender.Drop` | kak-tree-sitter/src/server/handler.rs:93-96 | the channel is closed, its queue is not touched |
| `Sessions.SessionTracker.IsEmpty` | kak-tree-sitter/src/kakoune/session.rs:14-16 | true exactly when no session is tracked |
| `Sessions.SessionTracker.Tracks` | kak-tree-sitter/src/kakoune/session.rs:19-21 | true exactly for the tracked sessions |
| `Sessions.SessionTracker.Track` | kak-tree-sitter/src/kakoune/session.rs:23-25 | adds one session |
| `Sessions.SessionTracker.Untrack` | kak-tree-sitter/src/kakoune/session.rs:27-29 | removes one session |
| `Allocation.CreateTakesAnUnusedToken` | kak-tree-sitter/src/server/tokens.rs:24-30 | a created token was in use by nobody, and is the only one that comes into use |
| `Allocation.RecycleReturnsTheToken` | kak-tree-sitter/src/server/tokens.rs:32-34 | recycling undoes creation: that token alone leaves use and is the next one given out |
| `Allocation.Tokens.Create` | kak-tree-sitter/src/server/tokens.rs:24-30 | pops the free list, else counts up |
| `Allocation.Tokens.Recycle` | kak-tree-sitter/src/server/tokens.rs:32-34 | pushes on the free list |
| `Allocation.Tokens.constructor` | kak-tree-sitter/src/server/tokens.rs:13-21 | the first two tokens are reserved |
| `Framing.FramingSafety` | kak-tree-sitter/src/server/fifo.rs:167-220 | for every list of good frames, every chunking and every interleaving: buffer plus unread stream start at a frame boundary, and what was handed out are whole sent frames with increasing indices |
| `Framing.DeliveredIntactIffGood` | kak-tree-sitter/src/server/fifo.rs:189-214 | a payload is handed out intact exactly when the sentinel first occurs at its end |
| `Framing.SentinelFreePayloadIsNotEnough` | kak-tree-sitter/src/server/fifo.rs:75-75 | with a sentinel of the form of a version 4 UUID, a payload without the sentinel in it is cut wrong, because the sentinel ends as it begins |
| `Framing.ReceiveKeepsBoundary` | kak-tree-sitter/src/server/fifo.rs:185-214 | a read hands out the first buffered frame exactly when it is alone, else drops at most that one and never the newest, and never splits one |
| `Framing.ReceiveKeepsAligned` | kak-tree-sitter/src/server/fifo.rs:185-214 | a read keeps all that is known of the frames handed out |
| `Framing.NewestDeliveredIffBufferEmpty` | kak-tree-sitter/src/server/fifo.rs:199-206 | with everything read, the last frame sent is the last one handed out exactly when the buffer is empty |
| `Framing.TwoFramesAtOnceStrand` | kak-tree-sitter/src/server/fifo.rs:199-206 | two frames that arrive in one read leave the second in the buffer with nothing unread |
| `Framing.FindInStream` | kak-tree-sitter/src/server/fifo.rs:189-191 | the leftmost sentinel in a prefix of a stream of good frames is the end of the first frame, or there is none |
| `Framing.PostKeepsAligned` | kak-tree-sitter/src/server/fifo.rs:166-183 | a client that writes another good frame keeps the stream aligned |
| `Framing.SettleKeepsAligned` | kak-tree-sitter/src/server/fifo.rs:217-220 | clearing the buffer after a delivery stays on a frame boundary |
| `Framing.FrameAccounting` | kak-tree-sitter/src/server/fifo.rs:185-214 | frames arrived = handed out + dropped + still buffered |
| `Framing.CatchUp` | kak-tree-sitter/src/server/fifo.rs:199-206 | with n complete frames buffered, n - 1 reads drop one each and the n-th hands out the last; one read alone leaves frames waiting |
| `Framing.Fifo.Read` | kak-tree-sitter/src/server/fifo.rs:167-215 | reads until the file would block, then decides; an error clears the buffer |
| `Framing.CutSplits` | kak-tree-sitter/src/server/fifo.rs:189-214 | a cut hands out all there is but the sentinel, or keeps an end of the buffer |
| `Framing.CollectIs` | kak-tree-sitter/src/server/fifo.rs:168-183 | the read loop collects everything up to and including the first thing that ends it, and only a failure loses that |
| `Framing.Fifo.Clear` | kak-tree-sitter/src/server/fifo.rs:218-220 | empties the buffer |
| `Mailboxes.LastWriteIsReadOnce` | kak-tree-sitter/src/server/triple_buffer.rs:39-74 | several writes and then reads: the last text is read, once (by unfolding) |
| `Mailboxes.TripleBuffer.WriteText` | kak-tree-sitter/src/server/triple_buffer.rs:64-73 | replaces the text and marks it unread |
| `Mailboxes.TripleBuffer.ReadText` | kak-tree-sitter/src/server/triple_buffer.rs:42-54 | swaps with the target and marks it read, or does nothing if it was read |
| `Mailboxes.TripleBuffer.constructor` | kak-tree-sitter/src/server/triple_buffer.rs:19-30 | a new mailbox is empty and unread |
| `TreeStore.Trees.ComputeTree` | kak-tree-sitter/src/tree_sitter/state.rs:33-51 | a new tree if parsing succeeds; for an existing one the language is renamed and the tree parsed with the language it was made with; the parse error |
| `TreeStore.Trees.DeleteTree` | kak-tree-sitter/src/tree_sitter/state.rs:67-69 | removes that tree only |
| `TreeStore.Trees.CleanSessionTrees` | kak-tree-sitter/src/tree_sitter/state.rs:71-73 | removes exactly the trees of the session |
| `TreeStore.Trees.UpdateTree` | kak-tree-sitter/src/tree_sitter/state.rs:118-144 | the text is swapped with the mailbox and parsed again if it was unread; an unknown buffer leaves the mailbox alone; whether the buffer changed, or the error |
| `TreeStore.Handler.HandleBufferMetadata` | kak-tree-sitter/src/server/handler.rs:254-272 | tree, response and each of the three errors |
| `TreeStore.Handler.HandleBufferClose` | kak-tree-sitter/src/server/handler.rs:275-279 | the tree goes; a missing name is an error without effect |
| `TreeStore.Handler.HandleFullBufferUpdate` | kak-tree-sitter/src/server/handler.rs:282-332 | tree, mailbox, and when highlights are sent |
| `TreeStore.Handler.HandleOne` | kak-tree-sitter/src/server/handler.rs:154-198 | trees, mailboxes and reply are what the model says for each command |
| `TreeStore.Handler.Start` | kak-tree-sitter/src/server/handler.rs:150-214 | the receive loop is the fold of the commands, up to a shutdown, with the responses sent in order |
| `TreeStore.RepliesDescribeTheTree` | kak-tree-sitter/src/server/handler.rs:254-332 | highlights are sent only for a text not seen before and are those of that text; a setup only for a buffer that has a tree, with the FIFO named in the command |
| `TreeStore.ResponseIsSentIff` | kak-tree-sitter/src/server/handler.rs:154-332 | for each command exactly when a response is sent, and which one (by unfolding) |
| `TreeStore.CommandFailsIff` | kak-tree-sitter/src/server/handler.rs:254-332 | exactly when a command fails, with each error: the first thing that is wrong decides (by unfolding) |
| `TreeStore.LoopInTwoParts` | kak-tree-sitter/src/server/handler.rs:153-211 | commands handled later start from what the earlier ones left, and their responses come behind |
| `TreeStore.OneTurn` | kak-tree-sitter/src/server/handler.rs:153-211 | one command gives its response, if it has one; a shutdown ends the loop, with what is queued behind it left alone |
| `TreeStore.FirstComputeMakesTree` | kak-tree-sitter/src/tree_sitter/state.rs:33-51 | by unfolding: a buffer gets a tree only by a successful first parse, of the empty text and with the language asked for; no other tree changes |
| `TreeStore.LanguageChangeRenamesOnly` | kak-tree-sitter/src/tree_sitter/state.rs:110-113 | by unfolding: a language change takes the new name and parses with the old language, so the name is that of the language used exactly when the language did not change |
| `HighlightSweep.FromTreeHouse` | kak-tree-sitter/src/tree_sitter/highlighting.rs:67-126 | every stretch between two events with a highlight in force gives one non-empty range with its ends and its top face, in order, and no other ranges are made |
| `HighlightSweep.SweepShowsHighlights` | kak-tree-sitter/src/tree_sitter/highlighting.rs:67-126 | a byte between the first and the last event is covered exactly when the highlight stack at it is not empty, and with the face on top of that stack |
| `HighlightSweep.HighlightIs` | kak-tree-sitter/src/tree_sitter/highlighting.rs:77-123 | the face of a byte, without a stack: the last entry of the latest event at or before it that brings any, if no later one replaces all by none |
| `HighlightSweep.TopIs` | kak-tree-sitter/src/tree_sitter/highlighting.rs:118-121 | what the top of the stack is after some events, told from the events alone |
| `HighlightSweep.SweepIsOrdered` | kak-tree-sitter/src/tree_sitter/highlighting.rs:67-126 | the ranges are disjoint, in text order, and within the events |
| `HighlightSweep.CoversItsStretch` | kak-tree-sitter/src/tree_sitter/highlighting.rs:94-113 | a range covers exactly the bytes between its two events |
| `HighlightSweep.SpansDecode` | kak-tree-sitter/src/tree_sitter/highlighting.rs:129-143 | the printed ends decode to the first and last byte of the range, and the end column is at least 1 |
| `HighlightSweep.EndOfRange` | kak-tree-sitter/src/tree_sitter/highlighting.rs:98-104 | the end is the position of the last byte, also when the range ends where a line starts |
| `HighlightSweep.CloseRange` | kak-tree-sitter/src/tree_sitter/highlighting.rs:92-113 | the range made at an event stands for the bytes since the event before |
| `HighlightSweep.StretchOf` | kak-tree-sitter/src/tree_sitter/highlighting.rs:77-123 | each byte lies between two neighbouring events |
| `HighlightText.RangeRoundTrip` | kak-tree-sitter/src/tree_sitter/highlighting.rs:129-143 | reading a printed range gives the positions of its first and last byte, and its face |
| `HighlightText.HighlightsRoundTrip` | kak-tree-sitter/src/protocol/response.rs:180-192 | the words of a highlight response are the printed ranges in order, each read back as what it was |
| `HighlightText.SerializeHighlights` | kak-tree-sitter/src/protocol/response.rs:180-192 | one space before each range, one line |
| `Positions.PositionsDecode` | kak-tree-sitter/src/kakoune/selection.rs:34-45 | a position determines its byte |
| `Positions.PositionsAreOrdered` | kak-tree-sitter/src/kakoune/selection.rs:34-45 | byte order and position order agree, in both directions |
| `Positions.PositionBefore` | kak-tree-sitter/src/kakoune/selection.rs:34-45 | when taking one from a column gives the position of the byte before, and when it does not |
| `Positions.PositionsAdvance` | kak-tree-sitter/src/kakoune/selection.rs:34-45 | from one byte to the next, one column on, or to the first column of the next line |
| `Positions.FirstPosition` | kak-tree-sitter/src/kakoune/selection.rs:40-44 | the first byte is at line 1, column 1 |
| `Positions.LineStartOf` | kak-tree-sitter/src/kakoune/selection.rs:36-38 | a line starts right after a newline and has none before the byte |
| `Selections.SelectedNodeIsRecognised` | kak-tree-sitter/src/kakoune/selection.rs:101-146 | a selection made from a node fully selects it exactly when the node is not empty; then it also selects it and keeps the direction unless anchor and cursor coincide |
| `Selections.FullySelectsOneNode` | kak-tree-sitter/src/kakoune/selection.rs:136-146 | only one node is fully selected by a selection |
| `Selections.SelectsMeansEncloses` | kak-tree-sitter/src/kakoune/selection.rs:116-133 | a selection made from one node selects another exactly when it encloses it |
| `Selections.NodeEndBounds` | kak-tree-sitter/src/kakoune/selection.rs:117-118 | the corrected end of a node lies behind all its bytes and before everything after it |
| `Selections.NodeEndInjective` | kak-tree-sitter/src/kakoune/selection.rs:123-126 | corrected ends are equal only for nodes that end at the same byte |
| `SelectionText.SelectionListRoundTrip` | kak-tree-sitter/src/kakoune/selection.rs:69-94 | parsing the printed list gives back the same selections in order, for all lists that fit in `usize` |
| `SelectionText.ResponseRoundTrip` | kak-tree-sitter/src/protocol/response.rs:194-207 | what the response says behind the name of the command is read back as the selections it was made from |
| `SelectionText.SelRoundTrip` | kak-tree-sitter/src/kakoune/selection.rs:69-94 | one selection |
| `SelectionText.PosRoundTrip` | kak-tree-sitter/src/kakoune/selection.rs:22-28 | a position is read back exactly when both numbers fit in `usize` |
| `SelectionText.NumberRoundTrip` | kak-tree-sitter/src/kakoune/selection.rs:23-25 | decimal printing and parsing, with the overflow check |
| `SelectionText.NumbersMayBePadded` | kak-tree-sitter/src/kakoune/selection.rs:23-25 | a plus sign and leading zeros are accepted, a minus sign and an empty piece are not |
| `SelectionText.SplitRejoins` | kak-tree-sitter/src/kakoune/selection.rs:23-23 | the pieces have no separator in them, and joined again they are the string |
| `SelectionText.SpaceSeparates` | kak-tree-sitter/src/kakoune/selection.rs:78-80 | every ASCII whitespace character separates words |
| `SelectionText.OtherWordsAreSkipped` | kak-tree-sitter/src/kakoune/selection.rs:78-80 | a word that is no selection is skipped wherever it stands |
| `SelectionText.PrintedForm` | kak-tree-sitter/src/kakoune/selection.rs:85-94 | line before column, anchor before cursor: one printed selection, character by character |
| `SelectionText.SerializeSelections` | kak-tree-sitter/src/protocol/response.rs:194-207 | the response, with its special text for no selection |
| `TextObjects.SearchNextVisitsInOrder` | kak-tree-sitter/src/tree_sitter/state.rs:295-307 | searching on and on terminates and visits captures in strictly increasing order, none overlapping another |
| `TextObjects.SearchNextMissesNothing` | kak-tree-sitter/src/tree_sitter/state.rs:295-307 | a capture ahead is left out only if it starts with, or inside, a visited one |
| `TextObjects.SearchNextStep` | kak-tree-sitter/src/tree_sitter/state.rs:295-307 | the found capture starts behind the selection, and exactly what ends behind it is behind the new selection |
| `TextObjects.SearchNextShrinks` | kak-tree-sitter/src/tree_sitter/state.rs:295-307 | each search leaves fewer captures ahead |
| `TextObjects.SearchPrevStep` | kak-tree-sitter/src/tree_sitter/state.rs:310-322 | searching back strictly lowers the beginning of the selection and skips no start |
| `TextObjects.FindMovesToNearestStart` | kak-tree-sitter/src/tree_sitter/state.rs:325-388 | find and extend succeed exactly when there is a capture in that direction, and put the cursor on the nearest start |
| `TextObjects.NodeAfterIsNearest` | kak-tree-sitter/src/tree_sitter/state.rs:459-470 | the capture with the smallest start behind the position, or none exactly when there is none |
| `TextObjects.NodeBeforeIsNearest` | kak-tree-sitter/src/tree_sitter/state.rs:473-484 | the capture with the largest start before the position, or none exactly when there is none |
| `TextObjects.NarrowestIffLastListedIsShortest` | kak-tree-sitter/src/tree_sitter/state.rs:487-501 | on captures of a tree and for each position, the chosen capture lies within every other that encloses the position exactly when, of the enclosing captures with the largest start, the last listed is the shortest |
| `TextObjects.ChosenIsNarrowest` | kak-tree-sitter/src/tree_sitter/state.rs:487-501 | so it does for every position if equal starts are listed outermost first |
| `TextObjects.ChosenIsLastStarting` | kak-tree-sitter/src/tree_sitter/state.rs:493-500 | the chosen capture is the last listed of the enclosing ones that start last |
| `TextObjects.EnclosingNodeIsCandidate` | kak-tree-sitter/src/tree_sitter/state.rs:487-501 | the chosen capture strictly encloses the position; none is chosen exactly when none does |
| `TextObjects.InnermostFirstChoosesOuter` | kak-tree-sitter/src/tree_sitter/state.rs:499-500 | with the inner of two equal starts listed first, the outer one is chosen, which is not the narrowest |
| `TextObjects.WholeObjectSelectsCapture` | kak-tree-sitter/src/tree_sitter/state.rs:409-456 | asking for the whole object selects exactly the enclosing capture, and fails exactly when there is none |
| `TextObjects.HalvesMeetAtCursor` | kak-tree-sitter/src/tree_sitter/state.rs:418-455 | back to the beginning and on to the end start at the cursor and together reach as far as the whole object; extending moves the cursor to the same places |
| `TextObjects.NoEdgeNoObject` | kak-tree-sitter/src/tree_sitter/state.rs:418-455 | without a side to go to there is no object (by unfolding) |
| `TextObjects.SearchSelectsCapture` | kak-tree-sitter/src/tree_sitter/state.rs:295-322 | a search selects exactly the capture it goes to, in the direction the selection had |
| `TextObjects.MatchesAtByte` | kak-tree-sitter/src/tree_sitter/state.rs:459-501 | which captures count as behind, before and around a byte, in bytes |
| `TextObjects.SortFirst` | kak-tree-sitter/src/tree_sitter/state.rs:468-469 | the first element of the stable sort: the earliest listed of the smallest starts |
| `TextObjects.SortLast` | kak-tree-sitter/src/tree_sitter/state.rs:482-483 | the last element of the stable sort: the latest listed of the largest starts |
| `Cousins.CousinMovesInvert` | kak-tree-sitter/src/tree_sitter/state.rs:581-606 | on every finite tree, the right move leads from n to m exactly when the left move leads from m to n |
| `Cousins.NextIsStep` | kak-tree-sitter/src/tree_sitter/state.rs:581-592 | the right move, said without the code: to the right sibling, or from a last child to the first child of the right uncle |
| `Cousins.PrevIsStep` | kak-tree-sitter/src/tree_sitter/state.rs:595-606 | the left move is the same relation backwards |
| `Cousins.NextIsAdjacent` | kak-tree-sitter/src/tree_sitter/state.rs:581-592 | the right move stays at its depth, goes strictly right, and jumps over no node of that depth |
| `Cousins.ChildlessUncleStopsTheMove` | kak-tree-sitter/src/tree_sitter/state.rs:586-590 | it fails at a childless uncle even if a farther one has children |
| `CaptureNames.FirstMatchIsLongest` | kak-tree-sitter/src/tree_sitter/languages.rs:195-200 | the first group that is a prefix is the longest configured one; its index is in bounds of the faces and names its face; none exactly when no group is a prefix |
| `CaptureNames.IterationOrderIsLost` | kak-tree-sitter/src/tree_sitter/languages.rs:68-74 | the order in which the set of groups is iterated has no influence |
| `CaptureNames.PositionIsFirst` | kak-tree-sitter/src/tree_sitter/languages.rs:196-199 | what the position lookup returns |
| `CaptureNames.Replace` | kak-tree-sitter/src/kakoune/face.rs:18-21 | each of the given characters is replaced, everything else stays |
| `CaptureNames.FaceNames` | kak-tree-sitter/src/kakoune/face.rs:18-21 | a face is named after its group with an underscore for each dot; no dot is left and every other character stays (by unfolding) |
| `StringOrder.SortedIsUnique` | kak-tree-sitter/src/tree_sitter/languages.rs:71-71 | a sorted sequence is determined by its elements |
| `StringOrder.SortSorts` | kak-tree-sitter/src/tree_sitter/languages.rs:71-79 | sorting distinct names gives a strictly ordered sequence |
| `LanguageCache.DiscoveredIsTransparent` | kak-tree-sitter/src/tree_sitter/languages.rs:142-175 | for the languages that discovery returns, whatever is on disk and in the shared objects, and after any requests, every language is answered as if there were no cache |
| `LanguageCache.CacheIsTransparent` | kak-tree-sitter/src/tree_sitter/languages.rs:142-175 | the same for a map of languages from anywhere, if those sharing a grammar path agree on the symbol |
| `LanguageCache.TransparentIffSymbolsAgree` | kak-tree-sitter/src/tree_sitter/languages.rs:142-175 | for a map from anywhere that agreement is exact; discovery returns no map without it |
| `LanguageCache.ConventionalSymbol` | kak-tree-sitter/src/tree_sitter/languages.rs:134-154 | a grammar file named in one of the usual ways, with one of three prefixes or by the plain name of the language, has the symbol of its language, free of dots and dashes, whichever language asks for it |
| `LanguageCache.SecondGetsTheFirstOnesGrammar` | kak-tree-sitter/src/tree_sitter/languages.rs:157-174 | in such a hypothetical map the language asked for second would get the grammar of the first |
| `LanguageCache.LoadedAtMostOnce` | kak-tree-sitter/src/tree_sitter/languages.rs:94-108 | whatever is asked, no language is loaded twice, and a failed one is not tried again |
| `LanguageCache.OpenedAtMostOnce` | kak-tree-sitter/src/tree_sitter/languages.rs:156-175 | a shared object that was opened once is never opened again, however many languages share it |
| `LanguageCache.LoadsIff` | kak-tree-sitter/src/tree_sitter/languages.rs:160-207 | without a cache a language loads exactly when its grammar opens under its symbol and its queries compile against that grammar |
| `LanguageCache.GetConfigIsGet` | kak-tree-sitter/src/tree_sitter/languages.rs:249-252 | asking by index is asking for the language of that index; an index out of range changes nothing and answers nothing (by unfolding) |
| `LanguageCache.ConfigIsItsOwn` | kak-tree-sitter/src/tree_sitter/languages.rs:249-252 | a language that was handed out carries the index under which its own configuration is found |
| `LanguageCache.StartIsUnique` | kak-tree-sitter/src/tree_sitter/languages.rs:77-122 | the order in which discovered names are listed does not reach the initial state |
| `LanguageCache.RunInv` | kak-tree-sitter/src/tree_sitter/languages.rs:94-122 | names, indices, cells, cache and load log fit together after any requests |
| `LanguageCache.Languages.constructor` | kak-tree-sitter/src/tree_sitter/languages.rs:67-122 | sorted names, one pending cell each with its index; no name is missing from the map |
| `LanguageCache.Languages.LoadLang` | kak-tree-sitter/src/tree_sitter/languages.rs:125-208 | the load through the cache; a grammar stays cached when its queries do not compile |
| `LanguageCache.Languages.Get` | kak-tree-sitter/src/tree_sitter/languages.rs:210-224 | forces the cell if need be and answers from it |
| `LanguageCache.Languages.GetConfig` | kak-tree-sitter/src/tree_sitter/languages.rs:249-252 | the configuration behind an index |
| `Discovery.Discover` | kak-tree-sitter/src/tree_sitter/discovery.rs:238-328 | for every name whatever: enabled or not, and with which paths, is what the pointwise specification says, in whatever order the candidates come |
| `Discovery.EnabledIff` | kak-tree-sitter/src/tree_sitter/discovery.rs:253-287 | enabled exactly when some pattern offers the grammar it is redirected to and its highlights are configured or offered |
| `Discovery.PathsOfEnabled` | kak-tree-sitter/src/tree_sitter/discovery.rs:253-315 | each of the four query paths of an enabled language is the configured one if there is one, otherwise the file of the last pattern that has it under the redirected name, otherwise absent |
| `Discovery.GrammarIsAListedFile` | kak-tree-sitter/src/tree_sitter/discovery.rs:107-116 | a grammar that is found is a regular file listed in a searched directory |
| `Discovery.QueryIsInAListedDirectory` | kak-tree-sitter/src/tree_sitter/discovery.rs:142-153 | a query file that is found exists, under its own name, in a listed directory of a searched one |
| `Discovery.SubstituteReplaces` | kak-tree-sitter/src/tree_sitter/discovery.rs:73-75 | the leftmost placeholder is what stands for the language; what is around it is matched as it is |
| `Discovery.DiscoveryIgnoresListingOrder` | kak-tree-sitter/src/tree_sitter/discovery.rs:103-116 | the order in which directories are listed does not reach the result |
| `Discovery.RedirectBorrowsBoth` | kak-tree-sitter-config/src/lib.rs:174-189 | a language that only redirects its grammar is discovered with the grammar and the queries of the other name (by unfolding) |
| `Discovery.QueryRedirectWins` | kak-tree-sitter-config/src/lib.rs:174-189 | with a query redirect too, the queries come from there and the grammar from the other name (by unfolding) |
| `Discovery.GrammarIsTheLastOffered` | kak-tree-sitter/src/tree_sitter/discovery.rs:159-175 | a grammar comes from the last pattern that offers one |
| `Discovery.GrammarHasStem` | kak-tree-sitter/src/tree_sitter/discovery.rs:107-116 | every grammar path that is found has a stem that can be read, because it is a directory entry |
| `Paths.JoinedName` | kak-tree-sitter/src/tree_sitter/discovery.rs:110-115 | the file name of a path joined from a directory and an entry is that entry |
| `Paths.JoinedStem` | kak-tree-sitter/src/tree_sitter/languages.rs:142-145 | its stem is the entry without its extension |
| `Paths.NoExtension` | kak-tree-sitter/src/tree_sitter/languages.rs:142-145 | a name with no dot but a leading one is its own stem |
| `Paths.EndsWithoutName` | kak-tree-sitter/src/tree_sitter/discovery.rs:90-95 | a slash or a dot at the end of a path changes nothing; behind two dots there is no name |
| `Discovery.QueryIsTheLastOffered` | kak-tree-sitter/src/tree_sitter/discovery.rs:212-235 | each query file comes from the last pattern that has that file |
| `Discovery.QueryComesFrom` | kak-tree-sitter/src/tree_sitter/discovery.rs:212-235 | for every name and file: the file of the last pattern that has it, or none exactly when no pattern has it |
| `Discovery.QueryFilenames` | kak-tree-sitter/src/tree_sitter/discovery.rs:187-194 | the four file names (by unfolding) |
| `Discovery.DiscoverGrammars` | kak-tree-sitter/src/tree_sitter/discovery.rs:159-175 | the map agrees with the pointwise specification for every name |
| `Discovery.DiscoverQueries` | kak-tree-sitter/src/tree_sitter/discovery.rs:212-235 | the map of maps agrees with the pointwise specification for every name and file |
| `Discovery.AddQueryFiles` | kak-tree-sitter/src/tree_sitter/discovery.rs:217-230 | files of a later directory override, the others stay |
| `Discovery.Resolve` | kak-tree-sitter/src/tree_sitter/discovery.rs:253-315 | one candidate: grammar redirect, query redirect, overrides, mandatory highlights |
| `Discovery.ExtractInvertsSubstitute` | kak-tree-sitter/src/tree_sitter/discovery.rs:72-80 | extraction finds the one non-empty name whose substitution into the pattern gives the candidate, and nothing else |
| `Discovery.ScanFinds` | kak-tree-sitter/src/tree_sitter/discovery.rs:85-154 | a scan yields a name and path exactly when the directory has an entry of the right kind under the substituted name |

## Left out

- Operating-system calls (poll, mkfifo, sockets, `kak -p`, daemonizing, PID files): what they return is a parameter.
- tree-sitter and tree-house: parsing, running queries and producing highlight events; the model takes captures, trees and events as given.
- Read errors and UTF-8 boundaries in the framing theorems: `Framing.Fifo.Read` clears its buffer on an error as the code does, but the runs are free of read errors and streams are sequences of characters.
- Weak memory: the read flag is sequentially consistent; it is still checked outside the lock.
- Failed command sends: the channel does not fail while the server runs, and `SessionBegin`'s tracking before a failed send is not modelled.
- The path of a FIFO and the identity of its shared memory: both are one serial number.
- TextObjects, Nav and Version commands: in the server they are one command `Query` that reads the trees and changes nothing.
- The handler's responses in the step machine (they are in `TreeStore`), and how the Init, Deinit, BufferSetup and Version responses are printed.
- `dispatch_read_token` and `read_unix_client`: that a token is looked up among the clients first; `IoServer.TokenNamesOneThing` shows that the order does not matter.
- Paths are compared as strings, not component by component, and a path that is not Unicode is not modelled; entry names that are not Unicode are, and are skipped.
- Line breaks other than newline that the rope library knows.
- Nav directions other than siblings and cousins, `tree_sitter_nav_tree` as a whole, `tree_sitter_find_sel_node` and `Pos::into_tree_sitter`, whose index base does not match `from_tree_sitter`.
- The results of `text_objects` for a list of selections, which share one iterator over the captures; the properties are about one selection with all captures. The Select mode is not modelled.
- Whitespace other than the ASCII ones when a list of selections is split into words.
- The width of integers other than in parsed selections and in the end marker of the highlight events (tokens, highlight indices and language indices do not wrap).
- `expand_path`, that a pattern is cut into directory and last component, warnings and logging of discovery.
- `language_for_marker`, and references from one lazy load to another.
- JSON, TOML, configuration merging, the command line, Kakoune scripts, query files, and the length prefix of the socket protocol.
- IoHandlers.IOHandler.HandleReload: does not wait for the old handler, which is another thread; the waiting is the steps `CloseChannel`, `Hangup` and `Join` of `Machines`, and `Reloads` is about them.
