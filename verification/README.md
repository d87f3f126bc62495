# Verified models of the node agent's in-process algorithms

This project models the algorithms and state machines of the node agent
(`packages/node-agent/src`) and proves what they guarantee. Everything is for all inputs, all
runs and all limits; calls that leave the process (files, sockets, timers, regular
expressions) are parameters or arbitrary answers.

`dafny verify dfyconfig.toml` checks the whole project.

## The parts

**The edit guard.** `LineEditDistance` is the bounded greedy search for the line edit distance. The
search lets frontier points run past the grid, so distances are defined on a grid padded in both
directions; there one step changes the cost by at most one, the greedy rounds keep the furthest
point of every diagonal, and a point past the corner is never cheaper than the corner. The
result is exact: it is the minimum over all edit scripts, or nothing when that minimum exceeds
the bound. `BlastRadius` states from it when an edit is rejected.

**The edit engine.** `TextEdits` resolves edits to ranges and applies them, in turn or against a
snapshot of the original. `TextSplices` shows that splicing from right to left is the same as
replacing everything at once, `EditGuarantees` that a snapshot does not depend on the order of
the edits and keeps Windows line endings, and `LineEdits` what line edits do to the list of lines. `EditMeaning`
says what an edit does without going through its replacements: which text ends up where, when it fails and how, and
exactly when a snapshot is taken. `EditMatching` finds the targets: the matches of a regular expression, from left to
right, that pass the guards. `EditWindowsEndings` and `EditBatchEndings` prove that edits given with plain newlines do to a
text with Windows line endings what they do to the text with plain ones.
`NewlineStyle` and `LineRanges` hold the choice of a line ending and the offsets of lines.

**Unified diffs.** `UnifiedDiff` prints and parses, `PatchApply` locates and splices hunks,
`DiffRoundTrip` puts the three together, `DiffHeaders` reads the printed hunk as other readers of diffs do, and
`DiffMistakenLines` settles when the round trip fails.
For texts without carriage returns the printed diff patches the text into the other one if and
only if the texts differ, neither is a single newline, the new text is empty or ends in a newline
just as the old one does (an empty old text counts as ending in one), and no removed line starts with
two dashes and a blank and no added one with two pluses and a blank. `DiffWindowsEndings` settles the same for
texts with Windows line endings throughout: the condition is that of their texts with plain newlines,
and that the old text has a newline if the new one has, as the patch takes its line ending from there.
`PatchFormats` is the round trip of whole patches of several files in both formats, `PatchPaths` the clean-up of their
paths, and `PatchCourse` what applying does hunk by hunk, refusals included.

**Search.** `SearchScan` is the scan of files, queries, lines and matches as functions, `SearchScanner` the
object that updates its state, and `SearchTool` the loops over files and prepared lines that drive the object, with
what their caller may rely on. `SearchFastTail` is the proof that the shortcut of a full count is
invisible. `SearchReference` works out from the files alone which results come up for a place in the
response, with which context, and which of them fit; `SearchResponse` and `SearchExact` prove that the scan fills
the response exactly so. From this `SearchPages` derives when a page is a slice of the list of all matches:
if and only if no result overtakes one that does not fit, and `SearchLostMatch` is an input on which one does.
`SearchPaging` and `SearchPreparedPaging` hold the list of matches and what following the cursor lists, and
`SearchPreparedItems` what is shown of a prepared line. `SearchSeen` carries whatever a single match keeps through the
whole scan; with it `SearchCounts` settles the totals, and `SearchFileList` and `SearchFilePages` the mode that lists
files only.

**Admission and locking.** `Semaphore` and `KeyedMutex` are step systems over all interleavings, with the
objects whose methods take exactly those steps. The mutex takes its keys one at a time in sorted
order; that every wait leads to someone who can act, and that every run ends, is proved.

**Conversations.** `ConversationState` is the store with its least-recently-used contexts and its spill map,
proved to answer like one plain map at every capacity; `ConversationSnapshot` is saving and
restoring, `ConversationStore` the object. `ConversationRecency` shows that the active contexts are the most recently
used ones after every history, and `ConversationChecks` what a restored store can hold whatever the file says.

**Streamed responses.** `StreamingResponse` drives the bounded queue by heartbeats, finish, drain and close in any
order, against a socket that answers every write arbitrarily. `StreamingDelivery` says which payload is
delivered in the end.

**Desktop input.** `DesktopPlanner` turns actions into instructions, and `DesktopReplay` carries them out statement by
statement on a machine that may stop anywhere. `DesktopEvents` says what a list of actions does, event by event, and
exactly which lists are accepted.

**File transactions.** `FileTransaction` commits staged files and rolls back, as a function of how every single call to
the file system turns out. `FileRollback` says what a rollback restores and reports in terms of the
calls that failed, `FileGuarantees` what a caller may rely on, and `FileSystem` is the object with the loops
that work on it call by call.

## Where the code falls short of what one might expect

- The diff of the text that is one newline cannot be applied: it is printed as one empty line but
  patched as a text without lines (`DiffRoundTrip.EmptyLineIsRefused`).
- `restoreBackups` resolves each path outside its `try`, so a failure there stops the rollback and leaves
  the rest of the backups unwritten and unreported (`FileGuarantees.UnresolvedPathKeepsNewContent` is such a
  run). A path is rolled back if and only if every path up to it is resolved and its own calls succeed
  (`FileGuarantees.CommittedPathComesBackExactlyWhen`, `FileGuarantees.DirectoryFailureRestoresExactlyWhen`).
- A key or button is noted as held in a second statement, so a script that stops between the two
  leaves it down (`DesktopReplay.StoppingCanLeaveKeyDown`; `DesktopReplay.StoppingCleansUp` says exactly when).
- When finish is called twice on a blocked response with a full queue, the first payload is lost
  (`StreamingDelivery.SecondFinishOvertakes`). Which payload is delivered is settled for every run by
  `StreamingDelivery.LastOfferIsDelivered`, and when a given one is by `StreamingDelivery.FinishIsDeliveredExactlyWhen`;
  with one finish call it is never lost (`StreamingDelivery.SoleFinishIsDelivered`).
- With context lines a result that no longer fits the response can be overtaken by a smaller one that was
  found while it waited for its context. The page then is no slice: the next cursor lists results twice and
  never comes back to the one that was turned away (`SearchLostMatch.ContextCanLoseMatch`).
  `SearchPages.PageIsSliceExactlyWhen` and `SearchPages.SearchGivesPages` say exactly when this happens, in terms of
  the files and the limits.
- The search that lists files only counts files on a page but passes over matches with its cursor, so following
  `next_cursor` can list a file again (`SearchFilePages.NextCursorRepeatsFile`);
  `SearchFilePages.SearchFollowsFilesOnceExactlyWhen` says exactly when it does not.
- In the format with markers a path that begins with `a/` or `b/` loses that directory
  (`PatchPaths.MarkedPathLosesDirectory`; `PatchPaths.BarePathStaysExactlyWhen` says exactly which paths are kept).
- A selection can be restored without its context, when the directory of the context is not accepted and its
  names are (`ConversationSnapshot.RestoredStoreIsGood` says exactly when no such selection is left).

## Model

| member | source | states |
|---|---|---|
| `LineEditDistance.BoundedLineEditDistance` | packages/node-agent/src/fileTools.ts:243-266 | a returned distance is the least number of deleted plus inserted lines that turns one text into the other and is within the bound; no result means every edit script costs more than the bound |
| `LineEditDistance.DistanceIsMinimum` | packages/node-agent/src/fileTools.ts:243-266 | the corner cost of the padded grid is reached by some edit script and beaten by none |
| `LineEditDistance.ScriptCostsAtLeast` | packages/node-agent/src/fileTools.ts:243-266 | any script between two prefixes costs at least the grid cost of their end point |
| `LineEditDistance.StepsNeighbours` | packages/node-agent/src/fileTools.ts:243-266 | a step right or down changes the cost by at most one, a diagonal never lowers it, inside and outside the real grid |
| `LineEditDistance.Clamp` | packages/node-agent/src/fileTools.ts:255-260 | a frontier point beyond the grid edge is never cheaper than the corner, so overshooting cannot give a wrong exit |
| `LineEditDistance.BeyondFurthest` | packages/node-agent/src/fileTools.ts:249-261 | a point behind the furthest one of its diagonal is out of reach of the round |
| `LineEditDistance.StartPointReachable` | packages/node-agent/src/fileTools.ts:250-255 | the start of a diagonal lies on or past the points of both neighbouring diagonals and is reachable with one more step |
| `LineEditDistance.NextFurthest` | packages/node-agent/src/fileTools.ts:249-261 | sliding from there ends on the furthest point of the diagonal |
| `LineEditDistance.SlideEndsFurthest` | packages/node-agent/src/fileTools.ts:255-261 | so does the slide of the first round, which starts at the corner of the grid |
| `LineEditDistance.FurthestPoint` | packages/node-agent/src/fileTools.ts:250-261 | the body of the loop ends on the furthest point of its diagonal |
| `LineEditDistance.RoundWithoutExit` | packages/node-agent/src/fileTools.ts:247-264 | a round in which no point reaches the corner proves the distance larger than the round number |
| `LineEditDistance.Slide` | packages/node-agent/src/fileTools.ts:256-259 | the inner loop stops at the first cell that does not match, at unchanged cost |
| `LineEditDistance.Round` | packages/node-agent/src/fileTools.ts:248-263 | a round exits exactly when its number is the distance; otherwise it leaves one furthest point per diagonal |
| `LineSpans.CommonPrefix` | packages/node-agent/src/fileTools.ts:271-273 | the prefix is common to both texts and cannot be extended |
| `LineSpans.CommonSuffix` | packages/node-agent/src/fileTools.ts:274-275 | the suffix is common, does not run into the prefix and cannot be extended |
| `BlastRadius.ExpectedEditLineBudget` | packages/node-agent/src/fileTools.ts:211-241 | at least one, and otherwise the sum of what the edits announce, by type, occurrences and line ranges |
| `BlastRadius.BudgetByType` | packages/node-agent/src/fileTools.ts:211-236 | a single edit announces, by its type: old and new lines for every expected occurrence, the inserted lines for every one, or the named lines and the new ones, where lines are counted by newlines |
| `BlastRadius.BudgetsAdd` | packages/node-agent/src/fileTools.ts:214-240 | the budgets of a list of edits add up |
| `BlastRadius.DistanceWithinSpan` | packages/node-agent/src/fileTools.ts:271-284 | the true distance never exceeds the span between common prefix and suffix |
| `BlastRadius.MeasureDistance` | packages/node-agent/src/fileTools.ts:281-283 | the distance is computed when there are edits and the span exceeds the allowance, and is reported exactly when it is within the allowance |
| `BlastRadius.EditBlastRadius` | packages/node-agent/src/fileTools.ts:268-303 | excessive if and only if edits are given, the larger text has 80 lines, the true distance exceeds the allowance and the span is 60% of all lines; the reported count lies between distance and span |
| `KeyedMutex.Normalize` | packages/node-agent/src/runtime.ts:77 | exactly the non-empty keys, ascending and without repetition |
| `KeyedMutex.SettledMeansReleased` | packages/node-agent/src/runtime.ts:84-89 | the promise chain of a request has settled exactly when every request of its key up to it is released |
| `KeyedMutex.StepKeepsInv` | packages/node-agent/src/runtime.ts:76-97 | every arrival, request, entry, release and clean-up keeps tickets, callers, chains and the map of tails consistent |
| `KeyedMutex.RunKeepsInv` | packages/node-agent/src/runtime.ts:76-97 | so does every interleaving of them |
| `KeyedMutex.EntersInRequestOrder` | packages/node-agent/src/runtime.ts:83-91 | a key is entered only after every earlier request of that key was entered and released |
| `KeyedMutex.AtMostOneHolder` | packages/node-agent/src/runtime.ts:83-97 | after any interleaving a key has at most one holder |
| `KeyedMutex.FullHoldsAllKeys` | packages/node-agent/src/runtime.ts:76-81 | a caller whose acquire has returned holds exactly its normalised keys until it releases |
| `KeyedMutex.AcquireHoldsWhatWasAsked` | packages/node-agent/src/runtime.ts:76-97 | in every run a caller whose acquire has returned holds, until it releases, a key if and only if it was called with that key and the key is not empty |
| `KeyedMutex.CommonKeyExcludes` | packages/node-agent/src/runtime.ts:76-97 | in every run two callers that were called with a common non-empty key have never both acquired without one having released |
| `KeyedMutex.LiveChainBlocksNewcomers` | packages/node-agent/src/runtime.ts:87-95 | clean-up never drops a live chain: the next request of a live key has to wait |
| `KeyedMutex.FollowTheWait` | packages/node-agent/src/runtime.ts:77-89 | from any waiting caller the chain of owners leads, through ever larger keys, to a caller that can act |
| `KeyedMutex.NoDeadlock` | packages/node-agent/src/runtime.ts:76-97 | in every reachable state with an unfinished caller some caller can request, enter or release |
| `KeyedMutex.StepDoesOneUnitOfWork` | packages/node-agent/src/runtime.ts:76-97 | every step other than an arrival or a repeated release lowers the remaining work by one |
| `KeyedMutex.EveryRunCompletes` | packages/node-agent/src/runtime.ts:76-97 | once arrivals stop, every interleaving is finite and ends with all keys held once and given back, and no tail left in the map |
| `KeyedMutex.Mutex.Acquire` | packages/node-agent/src/runtime.ts:76-79 | the call: a new caller with the keys to lock, none requested yet; which keys these are in terms of the keys given is AcquireHoldsWhatWasAsked |
| `KeyedMutex.Mutex.RequestNext` | packages/node-agent/src/runtime.ts:83-88 | the synchronous part: chain behind the current tail of the key and become the tail |
| `KeyedMutex.Mutex.Enter` | packages/node-agent/src/runtime.ts:89 | the continuation after the await, possible once the chain before it has settled |
| `KeyedMutex.Mutex.Release` | packages/node-agent/src/runtime.ts:80-94 | all single releases in reverse order; a second call changes nothing |
| `KeyedMutex.Mutex.Cleanup` | packages/node-agent/src/runtime.ts:95 | the map entry goes only if it is still this tail |
| `Semaphore.StepKeepsInv` | packages/node-agent/src/runtime.ts:9-72 | every acquire, release, timeout and abort keeps counter, queue, outcomes and grants consistent |
| `Semaphore.RunKeepsInv` | packages/node-agent/src/runtime.ts:9-72 | so does every interleaving of them |
| `Semaphore.SlotsAreAccountedFor` | packages/node-agent/src/runtime.ts:9-72 | active equals the unreleased grants and is at most the limit; a non-empty queue means no slot is free; every queued call is unsettled |
| `Semaphore.CallIsAnswered` | packages/node-agent/src/runtime.ts:21-58 | what every call gets: granted with a fresh unreleased grant if and only if it is not aborted and fewer grants than the limit are out, else the last place of the queue, and aborted without touching anything else |
| `Semaphore.SettlingLeavesQueue` | packages/node-agent/src/runtime.ts:35-54 | a timeout or an abort of a waiting call settles it so and takes it out of the queue, while every other call, every grant and the order of the others stay |
| `Semaphore.AnswerIsFinal` | packages/node-agent/src/runtime.ts:9-72 | a call that is granted, timed out or aborted stays so over every run |
| `Semaphore.GrantsFollowArrival` | packages/node-agent/src/runtime.ts:21-71 | when a later call is granted, an earlier one was granted before it, timed out or was aborted |
| `Semaphore.ReleaseServesHead` | packages/node-agent/src/runtime.ts:64-70 | a first release hands the slot to exactly the head of the queue or frees it; a second release has no effect |
| `Semaphore.ReleasesKeepGrants` | packages/node-agent/src/runtime.ts:61-71 | releases never take a grant away from another call |
| `Semaphore.ReleasesServeQueueInOrder` | packages/node-agent/src/runtime.ts:61-71 | as many releases as there are waiters serve them in arrival order at an unchanged active count |
| `Semaphore.RemoveFromIncreasing` | packages/node-agent/src/runtime.ts:27-30 | removing a waiter takes out exactly that one and keeps the order of the others |
| `Semaphore.Semaphore.constructor` | packages/node-agent/src/runtime.ts:14-16 | the limit is the requested number rounded down, and at least one |
| `Semaphore.Semaphore.Acquire` | packages/node-agent/src/runtime.ts:21-58 | fails at once when aborted, is granted at once when a slot is free, and queues otherwise |
| `Semaphore.Semaphore.Release` | packages/node-agent/src/runtime.ts:64-70 | the release closure, with the released flag that makes a second call do nothing |
| `Semaphore.Semaphore.WakeNext` | packages/node-agent/src/runtime.ts:68-69 | shifts the queue and grants the slot to the waiter |
| `Semaphore.Semaphore.Timeout` | packages/node-agent/src/runtime.ts:48-54 | settles an unsettled call and takes it out of the queue, otherwise nothing |
| `Semaphore.Semaphore.Abort` | packages/node-agent/src/runtime.ts:35-41 | likewise for an abort |
| `Semaphore.Semaphore.RemoveWaiter` | packages/node-agent/src/runtime.ts:27-30 | indexOf and splice drop the first occurrence only |
| `ConversationState.KeyParts` | packages/node-agent/src/conversation.ts:99-101 | a context key gives back conversation and folder, so NUL-free names make keys injective |
| `ConversationState.SuffixIdentifiesConversation` | packages/node-agent/src/conversation.ts:221-223 | the suffix test of a deletion matches exactly the keys of that conversation |
| `ConversationState.EvictOnlySpills` | packages/node-agent/src/conversation.ts:397-400 | evicting moves one context to the saved map and changes no answer |
| `ConversationState.PruneKeepsNewest` | packages/node-agent/src/conversation.ts:392-402 | pruning never evicts the most recently used context while one may stay |
| `ConversationState.PruneOnlySpills` | packages/node-agent/src/conversation.ts:392-402 | pruning changes no answer, no selection and no record that stays active |
| `ConversationState.PruneMeetsCapacity` | packages/node-agent/src/conversation.ts:392-402 | pruning leaves exactly as many contexts active as fit, and evicts none when all fit |
| `ConversationState.TouchKeepsStamps` | packages/node-agent/src/conversation.ts:367-385 | touching a context stays within the capacity, keeps active and saved disjoint and stamps distinct, and leaves the touched context active |
| `ConversationState.TouchKeepsAnswers` | packages/node-agent/src/conversation.ts:367-385 | touching a context changes the directory of no context |
| `ConversationState.SetCwdSetsOneAnswer` | packages/node-agent/src/conversation.ts:209-214 | setting a directory changes the answer for that context alone |
| `ConversationState.ForgetDropsOneConversation` | packages/node-agent/src/conversation.ts:216-226 | deleting a conversation resets exactly its contexts |
| `ConversationState.CallKeepsGood` | packages/node-agent/src/conversation.ts:172-226 | every call keeps keys, stamps, disjointness, selections and capacity in order |
| `ConversationState.CallAgrees` | packages/node-agent/src/conversation.ts:172-226 | every call gives the answer of a plain map and keeps the two in agreement |
| `ConversationState.StoreIsPlainMap` | packages/node-agent/src/conversation.ts:172-233 | every history of calls is answered as the plain map answers it, whatever is evicted |
| `ConversationState.FreshStoreIsPlainMap` | packages/node-agent/src/conversation.ts:172-233 | so is every history of a fresh store, at every capacity from one on |
| `ConversationRecency.ActiveAreMostRecent` | packages/node-agent/src/conversation.ts:367-402 | after every history of calls to a fresh store the active contexts are the most recently used ones, as many as the capacity allows, where the reference is a list of keys without stamps |
| `ConversationRecency.CallKeepsRecency` | packages/node-agent/src/conversation.ts:172-226 | every call moves the context it uses to the front of that list; only an eviction, of the last one, or a deletion takes any out |
| `ConversationSnapshot.FewCandidatesAreAllListed` | packages/node-agent/src/conversation.ts:324-349 | with at most 512 persistable contexts the snapshot lists all of them |
| `ConversationSnapshot.SelectionsFit` | packages/node-agent/src/conversation.ts:346-348 | the supported selections never exceed 512, so the cut of the selection list drops nothing |
| `ConversationSnapshot.RestoreAnswersAlike` | packages/node-agent/src/conversation.ts:277-303 | after restoring a snapshot of at most 512 contexts, each context that restoring accepts answers as before and any other one with the default, and a selection is back exactly if its names are accepted |
| `ConversationSnapshot.RestoredAnswer` | packages/node-agent/src/conversation.ts:286-295 | of any number of contexts, exactly those that are listed and accepted answer as before |
| `ConversationSnapshot.RestoredStoreIsGood` | packages/node-agent/src/conversation.ts:277-303 | a restored store meets the invariant again if and only if no accepted selection has a context whose directory is not accepted |
| `ConversationSnapshot.PersistedSelectionsKeepTheirContext` | packages/node-agent/src/conversation.ts:345-348 | above 512 as well, every selection that is back is the one there was, and its context is back with its directory exactly if that is accepted |
| `ConversationChecks.RestoredIsChecked` | packages/node-agent/src/conversation.ts:277-303 | whatever the file holds, a restored selection and a restored directory belong to checked names of an allowed folder, none of them a handle's, and the directory is relative and has no part that is the parent directory |
| `ConversationChecks.ParentIsPart` | packages/node-agent/src/conversation.ts:120-123 | the test for such a part is that of splitting at slashes of either kind |
| `ConversationChecks.HandlesAreNotWritten` | packages/node-agent/src/conversation.ts:342-348 | no context and no selection of a handle is written |
| `ConversationStore.ConversationStore.EnsureContext` | packages/node-agent/src/conversation.ts:367-385 | refreshes or creates the context, taking a saved directory over, and prunes: the new state is that of touching it |
| `ConversationStore.ConversationStore.PruneActiveContexts` | packages/node-agent/src/conversation.ts:392-402 | evicts the oldest contexts until the capacity is met |
| `ConversationStore.ConversationStore.SpillOldest` | packages/node-agent/src/conversation.ts:397-400 | moves the least recently used context to the saved map under a fresh stamp |
| `ConversationStore.ConversationStore.SelectFolder` | packages/node-agent/src/conversation.ts:176-181 | records the selection and answers the directory of its context |
| `ConversationStore.ConversationStore.CurrentCwd` | packages/node-agent/src/conversation.ts:183-186 | answers nothing without a selection, the context's directory otherwise |
| `ConversationStore.ConversationStore.CwdFor` | packages/node-agent/src/conversation.ts:188-190 | answers the directory of the context |
| `ConversationStore.ConversationStore.SetCurrentCwd` | packages/node-agent/src/conversation.ts:197-207 | fails without a selection, and otherwise sets the directory of the selected folder |
| `ConversationStore.ConversationStore.SetFolderCwd` | packages/node-agent/src/conversation.ts:209-214 | sets the directory of the context and stamps it |
| `ConversationStore.ConversationStore.DeleteConversation` | packages/node-agent/src/conversation.ts:216-226 | drops the selection and both kinds of contexts, and says whether there was a selection |
| `ConversationStore.ConversationStore.TakeSnapshot` | packages/node-agent/src/conversation.ts:324-350 | lists the newest 512 persistable contexts in order and exactly the selections they support |
| `ConversationStore.ConversationStore.NewestContexts` | packages/node-agent/src/conversation.ts:325-344 | candidates newest first, and nothing left out is newer than what is listed |
| `ConversationStore.ConversationStore.SelectionsWithContext` | packages/node-agent/src/conversation.ts:345-348 | exactly the selections whose context is listed, once each |
| `ConversationStore.ConversationStore.RestoreFrom` | packages/node-agent/src/conversation.ts:277-303 | checks every entry and takes the acceptable ones over, at most 512 of each kind |
| `StreamingResponse.StepKeepsInv` | packages/node-agent/src/mcpTransport.ts:503-583 | every heartbeat, finish, drain and close keeps queue, flags, wire and listeners consistent |
| `StreamingResponse.RunKeepsInv` | packages/node-agent/src/mcpTransport.ts:503-583 | so does every interleaving, whatever the socket answers to each write |
| `StreamingResponse.WireIsBeatsThenOnePayload` | packages/node-agent/src/mcpTransport.ts:479-584 | the wire holds newlines followed by at most one payload and nothing behind it; end is called at most once and only after the payload was accepted |
| `StreamingResponse.BeatIsWrittenOrQueued` | packages/node-agent/src/mcpTransport.ts:525-532 | every beat of an open response whose payload is not out writes a newline, or queues one while the socket is blocked and there is room; any other does nothing |
| `StreamingResponse.CloseSilences` | packages/node-agent/src/mcpTransport.ts:568-576 | behind a close nothing is written or ended in any run, nothing waits, and neither timer nor socket is listened to |
| `StreamingResponse.StepKeepsOffer` | packages/node-agent/src/mcpTransport.ts:503-566 | on an open response an offered payload stays offered, and every drain brings it closer |
| `StreamingResponse.FinishIsDelivered` | packages/node-agent/src/mcpTransport.ts:503-583 | after a finish call on an open response at most four drains follow, and when none is due some payload is out and the response has ended |
| `StreamingResponse.PayloadComesFromFinish` | packages/node-agent/src/mcpTransport.ts:503-519 | every payload queued, pending or written was passed to finish |
| `StreamingResponse.DrainKeepsInv` | packages/node-agent/src/mcpTransport.ts:546-566 | the drain loop keeps the invariant at every turn, however many writes are accepted |
| `StreamingDelivery.DrainKeepsWinner` | packages/node-agent/src/mcpTransport.ts:546-566 | the drain loop delivers the payload that was next in line and no other, however many writes are accepted |
| `StreamingDelivery.StepDecidesWinner` | packages/node-agent/src/mcpTransport.ts:503-566 | on an open response a finish call makes its payload the one to be delivered exactly while none is queued or written, and no other step changes which one it is |
| `StreamingDelivery.WinnerIsLastOffer` | packages/node-agent/src/mcpTransport.ts:503-583 | over a whole run it is the payload of the last finish call made while none was queued or written |
| `StreamingDelivery.LastOfferIsDelivered` | packages/node-agent/src/mcpTransport.ts:503-583 | after at most four drains the wire ends in exactly that payload, or in the one that was already placed |
| `StreamingDelivery.FinishIsDeliveredExactlyWhen` | packages/node-agent/src/mcpTransport.ts:503-583 | a payload passed to one finish call only is delivered if and only if none was queued or written at that call and no later finish call comes while it is only waiting |
| `StreamingDelivery.SoleFinishIsDelivered` | packages/node-agent/src/mcpTransport.ts:503-583 | with one finish call the wire ends in exactly its payload and the response has ended once |
| `StreamingDelivery.SecondFinishOvertakes` | packages/node-agent/src/mcpTransport.ts:503-519 | the run in which finish is called twice on a blocked response with a full queue, and the first payload is lost |
| `StreamingResponse.BoundedMcpStreamQueue.ContainsFinal` | packages/node-agent/src/mcpTransport.ts:455-461 | tells whether a payload is queued |
| `StreamingResponse.BoundedMcpStreamQueue.EnqueueChunk` | packages/node-agent/src/mcpTransport.ts:454-464 | appends exactly when there is room and no payload is queued |
| `StreamingResponse.BoundedMcpStreamQueue.Shift` | packages/node-agent/src/mcpTransport.ts:466-468 | takes the head of the queue, or nothing |
| `StreamingResponse.StreamingJsonResponse.OnBeat` | packages/node-agent/src/mcpTransport.ts:525-532 | ignored when closed or finished, queued when blocked, written otherwise |
| `StreamingResponse.StreamingJsonResponse.FinishWith` | packages/node-agent/src/mcpTransport.ts:503-519 | ignored when closed or finished, queued or kept beside the queue when blocked, written otherwise |
| `StreamingResponse.StreamingJsonResponse.WriteChunk` | packages/node-agent/src/mcpTransport.ts:534-544 | writes, blocks and listens when the socket is not ready, ends after an accepted payload |
| `StreamingResponse.StreamingJsonResponse.OnDrain` | packages/node-agent/src/mcpTransport.ts:546-566 | unblocks and writes until the socket pushes back or the payload is out |
| `StreamingResponse.StreamingJsonResponse.OnClose` | packages/node-agent/src/mcpTransport.ts:568-576 | drops queue, pending payload, timer and listeners, once |
| `SearchFastTail.FastTailIsInvisible` | packages/node-agent/src/fileTools.ts:685-877 | with total counting on, the fast tail gives the same matches, files, counts, sizes and flags as the full scan, for all inputs and limits |
| `SearchFastTail.FastTailIsInvisibleForPreparedLines` | packages/node-agent/src/fileTools.ts:879-1020 | the same for prepared lines in any order |
| `SearchFastTail.FilterSaturated` | packages/node-agent/src/fileTools.ts:799-833 | once no further match can become a result, the full scan passes every match over without a trace but its count |
| `SearchFastTail.FilterTogether` | packages/node-agent/src/fileTools.ts:799-833 | before that, both scans treat a match alike |
| `SearchFastTail.OnFilesAlike` | packages/node-agent/src/fileTools.ts:757-877 | the correspondence carries through lines, queries and files |
| `SearchPaging.FollowingListsEverything` | packages/node-agent/src/fileTools.ts:1211-1244 | following next_cursor through such pages lists every match once and in order |
| `SearchPaging.PageMakesProgress` | packages/node-agent/src/fileTools.ts:1243-1244 | next_cursor lies behind the cursor, so following it ends |
| `SearchPaging.FlushKeepsCores` | packages/node-agent/src/fileTools.ts:767-782 | emitting pending results neither loses nor reorders a match short of the response limit |
| `SearchPaging.FilterSliced` | packages/node-agent/src/fileTools.ts:799-833 | a match the filter turns away leaves the results a slice of what has been seen, cut exactly when more has been seen |
| `SearchPaging.TakenIsNext` | packages/node-agent/src/fileTools.ts:799-833 | a match is taken up exactly at the end of what has been seen and only while there is room |
| `SearchPaging.EmitSliced` | packages/node-agent/src/fileTools.ts:725-755 | an emitted result follows the others, or the response limit cuts the page in front of it |
| `SearchPreparedPaging.PreparedPageIsSlice` | packages/node-agent/src/fileTools.ts:879-1020 | for prepared lines in any order a page is a slice of the matches below their file's cap in order of arrival, with or without context lines, total counting, fast tail and response limit |
| `SearchPreparedPaging.PreparedSearchGivesPages` | packages/node-agent/src/fileTools.ts:1211-1244 | and following next_cursor through them lists each once when every item without context fits a response alone |
| `SearchPreparedPaging.BelowCapIsPrefix` | packages/node-agent/src/fileTools.ts:961-962 | what a file's cap lets through of a line is its first matches |
| `SearchPreparedItems.PreparedSearchShowsItems` | packages/node-agent/src/fileTools.ts:925-1019 | every result of a search over prepared lines shows a match of a line with that line's own context, before and after in their places, cut where it is too long and said to be; only a first result too large alone goes without; together they fit, and a search is limited by its response only if the next match does not fit |
| `SearchSeen.FileSeen` | packages/node-agent/src/fileTools.ts:757-877 | what every match keeps, the scan of a file keeps, and it comes to all of its matches in order unless it stops |
| `SearchCounts.SearchCountsFiles` | packages/node-agent/src/fileTools.ts:799-804 | the totals per query and the number of files with a match are those of everything the scan came to, which is all matches of all files, beyond caps and pages too, unless it reports to have stopped early; it does so exactly when a limit cut it and no total was asked for, and a search that only counts is never cut |
| `SearchCounts.SearchCountsPrepared` | packages/node-agent/src/fileTools.ts:951-958 | the same for prepared lines, where the files are the different paths |
| `SearchFileList.SearchListsFiles` | packages/node-agent/src/fileTools.ts:701-723 | in the mode that lists files only, a page holds the files of the matches behind the cursor, each once and with its first match, as many as it may hold, and is cut exactly when there are more |
| `SearchFileList.PreparedSearchListsFiles` | packages/node-agent/src/fileTools.ts:901-923 | the same for prepared lines |
| `SearchFilePages.SearchFollowsFilesOnceExactlyWhen` | packages/node-agent/src/fileTools.ts:1211-1244 | following next_cursor through those pages gathers every file with a match; no file is gathered twice if and only if on every page but the last each match that the next cursor passes over is the only one of its file, and then the list is that of all files in order |
| `SearchFilePages.PreparedFollowsFilesOnceExactlyWhen` | packages/node-agent/src/fileTools.ts:1211-1244 | the same for prepared lines |
| `SearchFilePages.OneMatchPerFileListsFilesOnce` | packages/node-agent/src/fileTools.ts:1211-1244 | with a cap of one match per file every file is gathered once |
| `SearchFilePages.NextCursorRepeatsFile` | packages/node-agent/src/fileTools.ts:1244 | two files, the first with two matches, one file a page: the next cursor lists the first file again |
| `SearchReference.ResponseAccepts` | packages/node-agent/src/fileTools.ts:725-755 | up to the first result that does not fit, a response holds one result after the other, the first one without its context if that alone is too large |
| `SearchReference.ResponseStays` | packages/node-agent/src/fileTools.ts:725-782 | it stays as it is while no result that comes up behind is small enough for what is left |
| `SearchReference.OvertakerIsListed` | packages/node-agent/src/fileTools.ts:725-782 | a result that is small enough is listed where the one that was turned away would have been |
| `SearchReference.PlacesDiffer` | packages/node-agent/src/fileTools.ts:798 | no two matches of one query in one file are the same |
| `SearchResponse.WaitingTakesLine` | packages/node-agent/src/fileTools.ts:788-793 | a pending result takes a line that arrives as context, cut if it is too long, while it has room for it |
| `SearchResponse.FlushOffers` | packages/node-agent/src/fileTools.ts:767-782 | flushing offers the response the results in front of those that stay pending, one after the other |
| `SearchResponse.ReachIsHere` | packages/node-agent/src/fileTools.ts:767-782 | when the first result that does not fit has its context, the results that still come up behind it are exactly the pending ones |
| `SearchResponse.LineArrivesExact` | packages/node-agent/src/fileTools.ts:787-795 | a line that arrives keeps response and pending results as the reference says, and stops the search only where a result is turned away |
| `SearchExact.FoundIsExact` | packages/node-agent/src/fileTools.ts:798-865 | so does every match, whether it is passed over, ends the search, waits for its context or is emitted |
| `SearchExact.LinesHold` | packages/node-agent/src/fileTools.ts:785-872 | so do the lines of a file, until its end or until the search stops |
| `SearchExact.EndFollows` | packages/node-agent/src/fileTools.ts:873 | what is pending at the end of a query comes up with the context it has |
| `SearchExact.SearchFillsResponse` | packages/node-agent/src/fileTools.ts:685-877 | the response of a whole search, with every result's context, its size and whether one was turned away, is exactly what is worked out from the files |
| `SearchPages.PageIsSliceExactlyWhen` | packages/node-agent/src/fileTools.ts:725-877 | a page is the slice of the full match list from the cursor on, and truncated says exactly that more remain, if and only if no result found while the first one that does not fit waits for its context fits in what the results before have left |
| `SearchPages.PageIsSlice` | packages/node-agent/src/fileTools.ts:757-877 | if none does, whatever the order of the matches in a line, with or without total counting and the fast tail; short of the response limit the page is the whole slice |
| `SearchPages.NothingOvertakesWithoutContext` | packages/node-agent/src/fileTools.ts:852-863 | without context lines none ever does, so that every page is a slice |
| `SearchPages.SearchGivesPages` | packages/node-agent/src/fileTools.ts:1211-1244 | at every cursor a search gives such a slice, and some result on a page that is cut, if and only if at no cursor a result overtakes another or the first one is too large without its context |
| `SearchPages.PlainSearchGivesPages` | packages/node-agent/src/fileTools.ts:1211-1244 | without context lines it does as soon as every item fits a response alone |
| `SearchLostMatch.ContextCanLoseMatch` | packages/node-agent/src/fileTools.ts:725-782 | a file of two lines on which, with one context line, the second of three matches is overtaken: the first page lists the first and the third, and following next_cursor lists the third again and the second never |
| `SearchTool.SearchKeepsPromise` | packages/node-agent/src/fileTools.ts:685-877 | what a search over files returns is a page of all its matches exactly when nothing is overtaken, or the list of their files; its totals count what it came to; all of it is the same with and without the fast tail |
| `SearchTool.PreparedSearchKeepsPromise` | packages/node-agent/src/fileTools.ts:879-1020 | what a search over prepared lines returns is a page of their matches, each with its own line's context, or the list of their files; its totals count what it came to; all of it is the same with and without the fast tail |
| `SearchTool.SearchFiles` | packages/node-agent/src/fileTools.ts:1186-1199 | the loop over the files on one state object returns what SearchKeepsPromise says |
| `SearchTool.SearchPrepared` | packages/node-agent/src/fileTools.ts:1138-1160 | the loop over the lines of an external search on one state object returns what PreparedSearchKeepsPromise says, the context of every result included |
| `SearchScanner.SearchScanState.ReachLimit` | packages/node-agent/src/fileTools.ts:705-714 | a limit turns a full count into the fast tail or stops any other search |
| `SearchScanner.SearchScanState.Record` | packages/node-agent/src/fileTools.ts:701-723 | records a path once, or reaches the limit |
| `SearchScanner.SearchScanState.Emit` | packages/node-agent/src/fileTools.ts:725-755 | strips the context of an oversized first result, and otherwise stores the result or reaches the response limit |
| `SearchScanner.SearchScanState.FilterMatch` | packages/node-agent/src/fileTools.ts:799-833 | counts the match and decides by tail, file cap, cursor, mode and limits |
| `SearchScanner.SearchScanState.FlushPending` | packages/node-agent/src/fileTools.ts:767-782 | emits the pending results that are complete, or all of them, and keeps the rest in order |
| `SearchScanner.SearchScanState.SearchLine` | packages/node-agent/src/fileTools.ts:786-865 | one line: context for pending results, then its matches in order |
| `SearchScanner.SearchScanState.ScanQuery` | packages/node-agent/src/fileTools.ts:757-876 | one query over the lines of a file |
| `SearchScanner.SearchScanState.ScanFile` | packages/node-agent/src/fileTools.ts:685-877 | all queries over one file, with the file's own counters |
| `SearchScanner.SearchScanState.IngestFound` | packages/node-agent/src/fileTools.ts:951-1018 | one prepared match: filtered, and emitted with its context at once if taken up |
| `SearchScanner.SearchScanState.IngestFounds` | packages/node-agent/src/fileTools.ts:951-1019 | the matches of a prepared line in order, until a limit stops the search |
| `SearchScanner.SearchScanState.IngestPreparedLine` | packages/node-agent/src/fileTools.ts:879-1020 | one prepared line, with the counters of its path |
| `PatchApply.CandidatesAreMatches` | packages/node-agent/src/editRecovery.ts:604-607 | the candidate list holds exactly the positions where the old side matches |
| `PatchApply.LocationIsExpectedOrUnique` | packages/node-agent/src/editRecovery.ts:602-678 | a hunk lands where it was expected or on the only match, and is refused exactly when it matches nowhere or ambiguously |
| `PatchApply.WalkReplacesWindow` | packages/node-agent/src/editRecovery.ts:702-715 | walking a hunk over its old side puts its new side there and touches nothing else |
| `PatchApply.GrowthIsDifference` | packages/node-agent/src/editRecovery.ts:703-716 | the offset grows by the difference of the two sides |
| `PatchApply.NextHunkIsWhereExpected` | packages/node-agent/src/editRecovery.ts:685-716 | the running offset keeps every later preferred position exact |
| `PatchApply.HunksInPlaceReplaceTogether` | packages/node-agent/src/editRecovery.ts:685-717 | hunks that match in place have the effect of replacing all their windows at the same time |
| `PatchApply.ApplyHunksReplacesTogether` | packages/node-agent/src/editRecovery.ts:680-743 | such hunks are never refused and the text is rejoined from those lines |
| `PatchApply.FindHunkPosition` | packages/node-agent/src/editRecovery.ts:594-678 | the preferred position, the only candidate, or the kind of refusal with its candidates |
| `PatchApply.SpliceHunk` | packages/node-agent/src/editRecovery.ts:702-716 | the inner loop over context, removed and added lines |
| `PatchApply.ApplyAllHunks` | packages/node-agent/src/editRecovery.ts:680-743 | all hunks in turn with the running offset; refused ones are collected and reject the patch |
| `PatchCourse.PatchTakesCourse` | packages/node-agent/src/editRecovery.ts:680-743 | hunk by hunk, whatever the patch: each goes to the place it states or to the only one with its lines and is put in there, or is refused with exactly the places it could have meant and changes nothing; the text is given if and only if none was refused |
| `PatchCourse.PlaceIsDecided` | packages/node-agent/src/editRecovery.ts:602-678 | a hunk has at most one place to go to, and with one it is not refused |
| `UnifiedDiff.NumberOfDecimal` | packages/node-agent/src/editRecovery.ts:493-496 | a printed line number is read back as itself |
| `UnifiedDiff.WholeFileDiff` | packages/node-agent/src/editRecovery.ts:240-282 | prints one hunk around the longest common prefix and suffix with three lines of context |
| `UnifiedDiff.ParseEachLine` | packages/node-agent/src/editRecovery.ts:511-560 | the parsing loop over the lines with its current file and hunk |
| `UnifiedDiff.ParsePatch` | packages/node-agent/src/editRecovery.ts:504-563 | the lines of the patch, the choice of its format, the loop and the last patch closed |
| `DiffRoundTrip.PatchLinesAreDiffLines` | packages/node-agent/src/editRecovery.ts:565-574 | a text is split alike for diffing and for patching, but for the text of one empty line |
| `DiffRoundTrip.BodyTurnsBeforeIntoAfter` | packages/node-agent/src/editRecovery.ts:259-281 | the printed hunk's old side is a window of the first text, and its new side in that place gives the second text |
| `DiffRoundTrip.OldStartOfHunkHeader` | packages/node-agent/src/editRecovery.ts:493-496 | the line number of a printed hunk header is read back |
| `DiffRoundTrip.ParseReadsWhatWasPrinted` | packages/node-agent/src/editRecovery.ts:504-563 | parsing the printed diff gives back one patch with exactly the printed hunk |
| `DiffRoundTrip.UnmistakableDiffApplies` | packages/node-agent/src/editRecovery.ts:680-743 | print, parse and apply gives the second text exactly when the two texts agree in how they end and neither is a single newline |
| `PatchFormats.PatchComesBack` | packages/node-agent/src/editRecovery.ts:498-563 | a patch of any number of added, updated and deleted files, printed in either format, with bare or marked empty lines and either line ending, is parsed into exactly these files: paths, both flags, every hunk with its line number and lines |
| `PatchFormats.SectionsParse` | packages/node-agent/src/editRecovery.ts:511-563 | one file of a patch after the other, from any state of the parser |
| `PatchFormats.HunksParse` | packages/node-agent/src/editRecovery.ts:549-560 | one hunk after the other, each with its own line number and lines |
| `PatchFormats.ProposalTakesOneHunk` | packages/node-agent/src/editRecovery.ts:745-797 | a proposal takes such a patch if and only if it updates one file with one hunk, and then gives the applied text, a mismatch or no change as applying the hunk does |
| `PatchFormats.MarkedPatchGivesUpdatedExactlyWhen` | packages/node-agent/src/editRecovery.ts:745-797 | between the markers no changed line can be mistaken: the hunk that turns one text into another does so exactly when the texts agree in how they end and neither is a single newline |
| `PatchPaths.PrefixedPathStaysExactlyWhen` | packages/node-agent/src/editRecovery.ts:487-491 | behind its prefix a path comes through the clean-up if and only if it has no tab, backslash or blank end and is not the name of no file |
| `PatchPaths.BarePathStaysExactlyWhen` | packages/node-agent/src/editRecovery.ts:487-491 | without a prefix it must moreover not begin with a blank or look as if it had one |
| `PatchPaths.PathComesBackExactlyWhen` | packages/node-agent/src/editRecovery.ts:487-563 | a file of a parsed patch has the path that was printed if and only if the clean-up keeps that path |
| `PatchPaths.MarkedPathLosesDirectory` | packages/node-agent/src/editRecovery.ts:487-526 | a marked update of a file in the directory a is taken for the file of that name beside the directory |
| `DiffHeaders.HeaderDescribesBody` | packages/node-agent/src/editRecovery.ts:240-282 | any reader of the printed header finds in it where both sides of the hunk stand and how many lines they have, and the hunk has just these lines of both texts |
| `DiffHeaders.BodyShowsThreeLines` | packages/node-agent/src/editRecovery.ts:259-281 | the hunk is the removed lines and then the added ones, between up to three lines of context on either side |
| `DiffMistakenLines.RemovedLineOpensPatch` | packages/node-agent/src/editRecovery.ts:532-540 | a removed line that starts with two dashes and a blank opens a second patch |
| `DiffMistakenLines.AddedLinesAreSwallowed` | packages/node-agent/src/editRecovery.ts:541-548 | an added line that starts with two pluses and a blank is dropped from the hunk or deletes the file |
| `DiffMistakenLines.ShortHunkGivesAnotherText` | packages/node-agent/src/editRecovery.ts:680-743 | a hunk without some added line never gives the intended text |
| `DiffMistakenLines.DiffPatchesExactlyWhen` | packages/node-agent/src/editRecovery.ts:745-797 | for texts without carriage returns, the printed diff patches one text into the other if and only if they differ, agree in how they end and no changed line looks like a file header |
| `DiffWindowsEndings.SplitPatchLinesOfCrlf` | packages/node-agent/src/editRecovery.ts:565-574 | a text is split into the same lines with Windows line endings as without, and only the ending to join them with differs |
| `DiffWindowsEndings.HunksApplyAlike` | packages/node-agent/src/editRecovery.ts:680-743 | hunks apply to the Windows text as to the Unix text, refusals included |
| `DiffWindowsEndings.PatchedAlike` | packages/node-agent/src/editRecovery.ts:745-797 | a patch without carriage returns does to the Windows text what it does to the Unix text |
| `DiffWindowsEndings.CrlfDiffPatchesExactlyWhen` | packages/node-agent/src/editRecovery.ts:745-797 | for texts all of whose newlines have carriage returns, the printed diff patches one into the other if and only if the texts with plain newlines meet the condition and the old text has a newline wherever the new one has |
| `NewlineStyle.CrlfTextPrefersCrlf` | packages/node-agent/src/editRecovery.ts:117-131 | a text whose newlines all have carriage returns prefers them at every range |
| `NewlineStyle.LfTextPrefersLf` | packages/node-agent/src/editRecovery.ts:117-131 | a text without them never prefers them |
| `NewlineStyle.AdaptedIsCrlf` | packages/node-agent/src/editRecovery.ts:133-138 | text adapted to such a text has a carriage return before every newline |
| `NewlineStyle.NearestNewlineDecides` | packages/node-agent/src/editRecovery.ts:117-131 | the newline inside the range, else the next one behind it, else the last one before it decides |
| `NewlineStyle.WithoutNewlinesPlain` | packages/node-agent/src/editRecovery.ts:117-131 | without any newline a plain one is preferred |
| `LineRanges.LineStarts` | packages/node-agent/src/fileTools.ts:1345-1348 | the scan finds the start of every line and of nothing else |
| `LineRanges.LineRangeOffsets` | packages/node-agent/src/fileTools.ts:1344-1362 | the offsets of a line range, or the error exactly when the lines do not exist |
| `LineRanges.OffsetsCutLines` | packages/node-agent/src/fileTools.ts:1358-1361 | the offsets cut the text between its lines |
| `LineRanges.RangeNewlines` | packages/node-agent/src/fileTools.ts:1370-1385 | a range has a trailing newline except at the end of a text without one, and a preceding one behind the first line |
| `TextSplices.SplicingIsWeaving` | packages/node-agent/src/fileTools.ts:1471-1477 | splicing ascending disjoint ranges from right to left equals concatenating gaps and replacements from left to right |
| `TextSplices.OutsideIsPreserved` | packages/node-agent/src/fileTools.ts:1471-1477 | a character outside all ranges is still there, moved by the growth before it |
| `TextSplices.WovenLength` | packages/node-agent/src/fileTools.ts:1471-1477 | the length changes by the growth of the replaced ranges |
| `TextSplices.SortIsSorted` | packages/node-agent/src/fileTools.ts:1646 | sorting orders by start and then by end |
| `TextSplices.SortKeepsAll` | packages/node-agent/src/fileTools.ts:1646 | sorting keeps every operation as often as it occurs |
| `TextSplices.OnlyOneOrder` | packages/node-agent/src/fileTools.ts:1646-1649 | non-empty disjoint ranges have only one ascending order |
| `TextEdits.ReplaceTextRanges` | packages/node-agent/src/fileTools.ts:1471-1477 | the loop from the last range to the first, with any function that gives a range its replacement |
| `TextEdits.GatherOps` | packages/node-agent/src/fileTools.ts:1620-1642 | the operations of all edits found in the original, or nothing as soon as one cannot be found |
| `TextEdits.HasOverlap` | packages/node-agent/src/fileTools.ts:1647-1649 | tells whether two neighbouring ranges overlap |
| `TextEdits.TryApplySnapshot` | packages/node-agent/src/fileTools.ts:1616-1655 | the snapshot path: taken exactly when an edit behind the first names lines, all are text edits that resolve, and no ranges overlap |
| `TextEdits.ApplyOneEdit` | packages/node-agent/src/fileTools.ts:1661-1728 | one edit of any type, with its errors |
| `TextEdits.ApplyAllEdits` | packages/node-agent/src/fileTools.ts:1657-1731 | the snapshot when it can be taken, and otherwise the edits in turn up to the first error |
| `EditGuarantees.TextEditWeaves` | packages/node-agent/src/fileTools.ts:1663-1669 | a text edit replaces its matches all at once and changes nothing else |
| `EditGuarantees.SnapshotWeaves` | packages/node-agent/src/fileTools.ts:1616-1655 | an applied snapshot replaces the ranges found in the original all at once |
| `EditGuarantees.SnapshotKeepsOutside` | packages/node-agent/src/fileTools.ts:1646-1654 | every character outside the ranges survives a snapshot |
| `EditGuarantees.ReorderedOps` | packages/node-agent/src/fileTools.ts:1620-1642 | reordering the edits only reorders the operations found for them |
| `EditGuarantees.SnapshotIgnoresOrder` | packages/node-agent/src/fileTools.ts:1616-1655 | when the snapshot is taken for one order of the edits, every order that tries it gets the same text |
| `EditGuarantees.TextEditKeepsCrlf` | packages/node-agent/src/fileTools.ts:1663-1703 | a replacement or insertion between line-ending pairs leaves every newline with its carriage return |
| `EditGuarantees.LineEditKeepsCrlf` | packages/node-agent/src/fileTools.ts:1672-1724 | so does replacing or deleting lines, with no condition on the range |
| `EditGuarantees.EditKeepsCrlf` | packages/node-agent/src/fileTools.ts:1661-1728 | so does one edit of any of the five types |
| `EditGuarantees.EditsInTurnKeepCrlf` | packages/node-agent/src/fileTools.ts:1660-1730 | so do edits in turn as long as a newline is left to go by |
| `EditGuarantees.SnapshotKeepsCrlf` | packages/node-agent/src/fileTools.ts:1628-1654 | so does a snapshot for the whole batch |
| `EditMeaning.TextEditIsAnswered` | packages/node-agent/src/fileTools.ts:1661-1703 | a text edit fails without a target, on a line window that does not exist, or on another number of matches than expected, with these numbers, and succeeds otherwise |
| `EditMeaning.TextEditMeans` | packages/node-agent/src/fileTools.ts:1663-1703 | an accepted edit puts the new text in the place of each match, the inserted text in front of it, or behind it, in the line ending of its place and otherwise as given, all at once and nothing else |
| `EditMeaning.SnapshotMeans` | packages/node-agent/src/fileTools.ts:1616-1655 | an applied snapshot does exactly this for every match of every edit, found in the original |
| `EditMeaning.SnapshotIsTakenExactlyWhen` | packages/node-agent/src/fileTools.ts:1616-1655 | the snapshot is taken if and only if an edit behind the first names lines, every edit is a text edit that would be accepted alone, and no two effects overlap |
| `EditMeaning.EditsAreAnswered` | packages/node-agent/src/fileTools.ts:1657-1731 | the edits in turn: each acts on what the one before left, and the first that fails is the answer |
| `EditMatching.MatchIsLongest` | packages/node-agent/src/fileTools.ts:1311-1334 | the match that is found at a place is one of the meanings of the pattern as a regular expression and at least as long as every other one |
| `EditMatching.FoundExactly` | packages/node-agent/src/fileTools.ts:1403-1421 | the matches are the longest ones from left to right, one behind the other, and whatever the pattern can stand for begins inside one of them |
| `EditMatching.FitsBeforeExactly` | packages/node-agent/src/fileTools.ts:1390-1393 | the guard in front of a match holds if and only if the pattern can stand for some text that ends there |
| `EditMatching.FitsAfterExactly` | packages/node-agent/src/fileTools.ts:1394-1398 | the guard behind a match holds if and only if the pattern can stand for some text that begins there |
| `EditMatching.MatchingIsExact` | packages/node-agent/src/fileTools.ts:1403-1424 | the ranges an edit works on are exactly those matches in its line window that pass both guards |
| `EditMatching.MatchingIsSound` | packages/node-agent/src/fileTools.ts:1403-1424 | they are ascending, disjoint, not empty and inside the text, as the edit engine asks |
| `EditMatching.FindMatches` | packages/node-agent/src/fileTools.ts:1403-1424 | the loop over the matches gives exactly these ranges |
| `EditMatching.MatchingKeepsPairs` | packages/node-agent/src/fileTools.ts:1311-1334 | no match of a target that does not end in a lone carriage return cuts a line ending apart |
| `EditMatching.MatchedEditKeepsCrlf` | packages/node-agent/src/fileTools.ts:1661-1728 | with these matches an edit of any type leaves every newline of a Windows text with its carriage return |
| `EditWindowsEndings.MatchAlike` | packages/node-agent/src/fileTools.ts:1311-1334 | a pattern without a carriage return of its own matches at a place of the Windows text exactly what it matches at that place of the plain text |
| `EditWindowsEndings.MatchesAlike` | packages/node-agent/src/fileTools.ts:1387-1424 | so the guarded matches of an edit stand at the same places |
| `EditWindowsEndings.TextEditActsAlike` | packages/node-agent/src/fileTools.ts:1661-1703 | a text edit fails on a Windows text as on the plain one, or leaves the same text but for the line endings |
| `EditBatchEndings.EditActsAlike` | packages/node-agent/src/fileTools.ts:1661-1728 | so does an edit of any of the five types |
| `EditBatchEndings.SnapshotActsAlike` | packages/node-agent/src/fileTools.ts:1616-1655 | so does a snapshot, which is taken for both texts or for neither |
| `EditBatchEndings.EditsActAlike` | packages/node-agent/src/fileTools.ts:1657-1731 | so does a whole list of edits, as long as nothing that is looked for holds a carriage return and every edit finds a newline to go by |
| `LineEdits.ContentIsLines` | packages/node-agent/src/fileTools.ts:1676-1679 | the text compared with expected_text is the named lines joined, without the newline behind them |
| `LineEdits.DeleteLinesTakesOutLines` | packages/node-agent/src/fileTools.ts:1704-1724 | delete_lines takes out exactly the named lines, with one trailing empty line left in the one exceptional case, or reports which error |
| `LineEdits.ReplaceLinesPutsLines` | packages/node-agent/src/fileTools.ts:1672-1689 | replace_lines puts the new lines in their place under the same errors and the same exception |
| `DesktopPlanner.KeyCodes` | packages/node-agent/src/desktopInput.ts:16-23 | the codes of the given keys in their order, exactly when these are one to eight supported and distinct keys, and nothing otherwise |
| `DesktopPlanner.PlanKeyDown` | packages/node-agent/src/desktopInput.ts:83-91 | holds every key in turn unless one is held already |
| `DesktopPlanner.PlanKeyUp` | packages/node-agent/src/desktopInput.ts:92-98 | lets the keys go from the last to the first unless one is not held |
| `DesktopPlanner.PlanDesktopInput` | packages/node-agent/src/desktopInput.ts:34-197 | all instructions of an acceptable list of 1 to 64 actions, or nothing |
| `DesktopReplay.CleanUpReleasesNoted` | packages/node-agent/src/desktopInput.ts:218-221 | the clean-up releases exactly what the script has noted as held |
| `DesktopReplay.ScopedKeepsSound` | packages/node-agent/src/desktopInput.ts:72-76 | modifiers are pressed only if not held already and released again around the body |
| `DesktopReplay.ActionKeepsSound` | packages/node-agent/src/desktopInput.ts:78-195 | every accepted action keeps the plan free of pressing what is down and releasing what is up |
| `DesktopReplay.PlanKeepsSound` | packages/node-agent/src/desktopInput.ts:78-196 | so does every accepted list of actions |
| `DesktopReplay.SoundPlanRuns` | packages/node-agent/src/desktopInput.ts:64-71 | replaying such a plan is proper at every statement, and machine, notes and planner agree at its end |
| `DesktopReplay.HeldAfterEachAction` | packages/node-agent/src/desktopInput.ts:78-196 | after each action the machine holds exactly the keys and buttons recorded as active |
| `DesktopReplay.StoppingCleansUp` | packages/node-agent/src/desktopInput.ts:215-221 | stopping behind any statement and cleaning up leaves down exactly what the very last statement pressed without a note, if it was a press |
| `DesktopReplay.StoppingCanLeaveKeyDown` | packages/node-agent/src/desktopInput.ts:64-71 | the accepted list of one key_down that leaves the key down when the script stops between its two statements |
| `DesktopReplay.AcceptedPlanIsSafe` | packages/node-agent/src/desktopInput.ts:34-224 | for every accepted list: the script runs properly, and stopping anywhere is cleaned up as above |
| `DesktopReplay.StoppingBetweenInstructions` | packages/node-agent/src/desktopInput.ts:215-221 | stopping between two instructions and cleaning up leaves nothing down |
| `DesktopEvents.PlanDoesExactlyWhen` | packages/node-agent/src/desktopInput.ts:34-197 | a list of actions is accepted if and only if every action may be carried out on what the ones before left down and the list is neither too long nor takes more than 20 seconds, and its script has exactly the events asked for, in terms of keys, buttons, points, wheels and texts |
| `DesktopEvents.ActionPlans` | packages/node-agent/src/desktopInput.ts:78-195 | an action is accepted if and only if it has events on what is down, and its instructions have exactly these: which button, how many clicks, at which point, along which route, with which modifiers held around |
| `DesktopEvents.FlagsAreTheButtons` | packages/node-agent/src/desktopInput.ts:25-31 | the flags of a button are those with which the operating system lets that button go down and up |
| `DesktopEvents.RouteIsGiven` | packages/node-agent/src/desktopInput.ts:140-166 | the points of a drag are where its places lie, each on its own display or the start's, with the drag's reference on the start's display only |
| `DesktopEvents.HoldKeysHolds` | packages/node-agent/src/desktopInput.ts:83-91 | key_down presses every key in order if none of them is down, and is refused otherwise |
| `DesktopEvents.LetGoKeysLetsGo` | packages/node-agent/src/desktopInput.ts:92-98 | key_up releases them in reverse if all of them are down, and is refused otherwise |
| `FileRollback.RestoreReports` | packages/node-agent/src/fileOpsTools.ts:137-150 | the report of a rollback is exactly which of its calls failed: a reached path is reported if and only if making its directory or writing it failed, and the rollback ends early if and only if resolving a path failed |
| `FileRollback.FailedExactly` | packages/node-agent/src/fileOpsTools.ts:141-147 | a path is reported if and only if its own calls failed |
| `FileRollback.RestoreBackupsExactly` | packages/node-agent/src/fileOpsTools.ts:137-150 | path by path: the old content where every path up to it was resolved and its own calls succeeded, else what was there; other paths are not touched |
| `FileRollback.SmoothRestore` | packages/node-agent/src/fileOpsTools.ts:137-150 | a rollback none of whose calls fails reaches every backup and reports nothing |
| `FileRollback.PutAllPuts` | packages/node-agent/src/fileOpsTools.ts:212-233 | every entry is what its path ends up with |
| `FileGuarantees.StageHasCause` | packages/node-agent/src/fileOpsTools.ts:188-210 | staging changes no file, fails only for a failing call or a changed file, and else has seen every version |
| `FileGuarantees.StageStages` | packages/node-agent/src/fileOpsTools.ts:188-210 | successful staging leaves every new content waiting beside its target |
| `FileGuarantees.ApplyApplies` | packages/node-agent/src/fileOpsTools.ts:212-233 | the files before the failing one hold their new content, the ones behind it their old one, and the failing one may be missing where it is removed before the renaming |
| `FileGuarantees.ApplyHasCause` | packages/node-agent/src/fileOpsTools.ts:212-233 | when every file to delete exists, only a failing call keeps a file from its place |
| `FileGuarantees.CommitReports` | packages/node-agent/src/fileOpsTools.ts:178-246 | what a failed transaction reports is exactly which calls of its rollback failed, and a version mismatch is reported only while staging and after a complete rollback |
| `FileGuarantees.AttemptLeaves` | packages/node-agent/src/fileOpsTools.ts:188-233 | when the rollback starts, the paths before the failing one hold their new content, the ones behind it their old one, and the failing one its old one or nothing |
| `FileGuarantees.StagedPathComesBackExactlyWhen` | packages/node-agent/src/fileOpsTools.ts:235-245 | after a failed transaction a path of it, the one removed before its renaming failed included, holds its old content if and only if it did when the rollback started, or every path up to it was resolved and its own calls succeeded |
| `FileGuarantees.FailedCommitRestoresExactlyWhen` | packages/node-agent/src/fileOpsTools.ts:235-245 | all files are as they were if and only if this is so for every path of the transaction |
| `FileGuarantees.CommittedPathComesBackExactlyWhen` | packages/node-agent/src/fileOpsTools.ts:235-245 | a path that was put in place holds its old content again if and only if every path up to it was resolved and its own calls succeeded in the rollback, or its content was not new |
| `FileGuarantees.CommitLeavesNothingForeign` | packages/node-agent/src/fileOpsTools.ts:178-246 | paths outside the transaction never change, and a path of it holds its old content, its new one or nothing |
| `FileGuarantees.CommitIsAllOrNothing` | packages/node-agent/src/fileOpsTools.ts:178-246 | a commit puts every content in place; a failed transaction whose rollback calls succeed, or that stopped at a changed file or while staging, leaves every file as it was |
| `FileGuarantees.CommitReplacesOnlySeen` | packages/node-agent/src/fileOpsTools.ts:188-233 | a transaction goes through only if every file is as its caller has seen it and every file to delete is there; if so, only a failing call keeps it from going through |
| `FileGuarantees.CommitLeavesNoStagingFile` | packages/node-agent/src/fileOpsTools.ts:196-236 | a staging file is left only by a transaction that failed, and only if a removal of staging files failed as well |
| `FileGuarantees.UnchangedStaysUnchanged` | packages/node-agent/src/fileOpsTools.ts:235-245 | rolling back a transaction that failed while staging changes nothing, however the rollback goes |
| `FileGuarantees.OneFailureIsHarmless` | packages/node-agent/src/fileOpsTools.ts:178-246 | when versions and files are as they have to be, at most one failing call leaves all of the transaction or nothing of it, and without one it goes through |
| `FileGuarantees.DirectoryFailureRestoresExactlyWhen` | packages/node-agent/src/fileOpsTools.ts:328-350 | after a failing mkdir a staged path holds its old content again if and only if every path up to it was resolved and its own calls succeeded, or its content was not new |
| `FileGuarantees.FailedDirectoryRestoresExactlyWhen` | packages/node-agent/src/fileOpsTools.ts:328-350 | all files are as they were after a failing mkdir if and only if every staged path is not new or comes back in this way |
| `FileGuarantees.OneFailureIsHarmlessWithDirectories` | packages/node-agent/src/fileOpsTools.ts:326-350 | at most one failing call, a mkdir included, leaves all of the transaction or nothing of it |
| `FileGuarantees.UnresolvedPathKeepsNewContent` | packages/node-agent/src/fileOpsTools.ts:328-350 | the run in which a mkdir and then the resolving of a path in the rollback fail, and the path keeps its new content |
| `FileSystem.StageAll` | packages/node-agent/src/fileOpsTools.ts:188-210 | the loop that checks versions, notes backups and writes the staging files, call by call |
| `FileSystem.ApplyAll` | packages/node-agent/src/fileOpsTools.ts:212-233 | the loop that puts the files in place, up to the first failure |
| `FileSystem.RestoreBackups` | packages/node-agent/src/fileOpsTools.ts:137-150 | the loop that writes the backups back and collects failures, ended by a path that cannot be resolved |
| `FileSystem.RemoveStagingFiles` | packages/node-agent/src/fileOpsTools.ts:236 | removes the staging files that are left and ignores failures |
| `FileSystem.CommitStaged` | packages/node-agent/src/fileOpsTools.ts:178-246 | the whole transaction with its rollback, as a function of files and calls; a caller with matching versions gets all or nothing as long as at most one call fails |
| `FileSystem.RunFileOps` | packages/node-agent/src/fileOpsTools.ts:326-350 | the same with the directories to make and the rollback when one cannot be made |

## Left out

- Regular expressions of a search: the matches of a query in a line are given ranges.
- EditMatching.MatchIsLongest: of the engine that runs a target's pattern it is taken that it prefers the optional carriage return and as many blanks as there are, and blanks are the characters of `/\s/`.
- UTF-8, decoding and JSON sizes: a result's size is a given natural number, a cut context line a given text.
- UnifiedDiff.WholeFileDiff: states the diff before it is cut to the 32 KB of a result, because a cut diff is not meant to be applied.
- UnifiedDiff.ParsePatch: the clean-up of header paths is a parameter here; `PatchPaths` supplies the one of the source.
- PatchFormats.PatchComesBack: in the unified format changed lines that look like headers and paths that hold the name of no file are excluded, because they are misread; what then happens is settled for the printed diff of one file in `DiffMistakenLines`.
- DiffMistakenLines.DiffPatchesExactlyWhen: texts that mix line endings or hold a carriage return elsewhere are outside this statement and the one for Windows line endings, because the printer drops carriage returns at the ends of the lines it prints.
- TextEdits.ApplyOneEdit: edits are taken as validated, so malformed edit objects, unknown types and a line window with one end only are not represented.
- EditGuarantees.EditsInTurnKeepCrlf: asks for a newline before every edit, because a text that has lost its last newline no longer shows which line ending it used.
- SearchPages.PageIsSliceExactlyWhen: takes the matches of a line in ascending order, as `matchAll` gives them.
- SearchPreparedPaging.PreparedSearchGivesPages: asks for items that fit a response alone, because a page without any result would have its own cursor as the next one.
- KeyedMutex.Normalize: keys are ordered by characters instead of UTF-16 units, which is another order only for characters beyond the basic plane; any fixed order serves the proofs.
- SearchTool.SearchFiles: the list of files is given; walking directories, globs, sizes, binary files and decoding decide what is in it and are not part of this model.
- SearchCounts.SearchCountsFiles: of the number of match details that the fast tail skipped only says that it is positive exactly when the tail is used, because it is a diagnostic that nothing else depends on.
- Match identifiers, previews, columns and query texts of search results, and matches by file name.
- ConversationStore.ConversationStore.TakeSnapshot: contexts with equal stamps are ordered arbitrarily instead of by locale comparison, which decides nothing but their order and, above 512, which of them is kept.
- ConversationStore.ConversationStore.RestoreFrom: takes a well-formed snapshot; reading, writing and scheduling the file is not part of this model.
- The order in which selections were made, because at most as many selections as contexts are ever written.
- Semaphore.Semaphore.constructor: a limit that is not a number or is infinite is not represented.
- Timers of the semaphore, of heartbeats and of the socket: their firing is a step that may come at any time it is armed.
- StreamingResponse.StreamingJsonResponse.FinishWith: the payload is a given non-empty text; serialising a value and its fallback are not part of this model.
- DesktopPlanner.PlanDesktopInput: display look-up and coordinate mapping are parameters, key names come as codes, and the script's text, its mutex and its display checks are not represented; error messages are one single refusal.
- DesktopReplay.AcceptedPlanIsSafe: a shortcut presses and releases its keys in one indivisible call, as it is one call of the operating system.
- FileSystem.CommitStaged: directories are not represented, so creating and removing them only counts as calls that may fail; a hash is compared as the content itself, and every call succeeds or fails without effect, with no outside writer.
- The duplicate-target check of `file_ops`, which never fires, and the validation of operations before staging.
- The frame codec, policies, history files, retrieval, health endpoints and the user interface: they add easy members or leave the process.
