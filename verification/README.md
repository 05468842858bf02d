# Model of the agent's stateful engines

This project models the small stateful engines inside the agent and proves what they promise.

- **The handoff journal.** Several processes share a handoff document without locks. A writer reserves a Lamport counter by
  creating a claim file exclusively, publishes an immutable operation file, and compacts the operations into a base Markdown
  document; readers fold base and journal together. `handoff_revisions.dfy` orders the revisions, `handoff_fold.dfy` folds
  operations, `handoff_journal.dfy` is the protocol as a state machine with one constructor per program point and one step
  per file-system call, and proves linearizable reads, exact log lines, stuttering compaction and unique counters over all
  interleavings. `frontmatter.dfy` prints and parses the base document; `handoff_storage.dfy` says for every run when the text
  on disk reads back as the base the protocol works with.
- **The model request limiter.** `slot_scheduling.dfy` is the scheduling by itself, on lists in grant order;
  `model_request_limiter.dfy` has the class with its maps, queue arrays and hand-back closures, held to it.
- **The background model handler.** `background_model.dfy` has the fallback with its cost accounting, and calls over two
  limited models that never hold two slots and never deadlock.
- **The sign-in state machine.** `web_auth.dfy` has the transitions, runs in which refreshes, credential reads and callbacks
  complete in any order, and the service class.
- **The streaming tag matcher.** `tag_matcher.dfy` separates the automaton from its buffer, says exactly when the way a
  stream is cut matters, and holds the class to it; `tag_blocks.dfy` says exactly when a reasoning block at the start of a
  stream comes out as its author meant it, and `tag_nesting.dfy` what that means for properly nested text.
- **Token counts.** `token_count.dfy` shows that a block's cache key determines its count; `key_trie.dfy` is the trie on the
  heap and `block_token_count_cache.dfy` the cache with its overlapping calls.
- **String codecs and scanners.** `mcp_name.dfy`, `tag_scanner.dfy`, and `json_comments.dfy` with `json_segments.dfy`, the grammar
  its result is measured against.
- `text.dfy` has the pieces of JavaScript's string library that the rest leans on.

## Conventions

Strings are sequences of Unicode scalar values. Exceptions and rejections are `None`, absent fields are `None`, and empty
strings count as absent where the code tests for truth. `localeCompare`, the tokenizer and the contents of credentials are
parameters: the results hold for every choice of them. Where the source loops or assigns to fields, the model has a method
with a loop or a class whose contract equates the new state with a function of the old one; the lemmas are about those
functions. Four places where the code does not do what a reader would expect are kept as they are, each with the exact
condition and an input that fails: the matcher can drop a nested tag, depending on how the stream is cut
(`TagMatching.CuttingMattersIff`, `TagBlocks.CutsMatterExample`); it misses a closing tag when the body ends in the middle of
what looks like a tag, so that the rest of the stream is taken for reasoning (`TagBlocks.ReasoningBlockIff`,
`TagBlocks.AngleBracketHidesClosing`); a tool name does not come back if its server has a double underscore or ends in a
hyphen, although the separator was chosen not to conflict with underscores (`McpName.RoundTripIff`,
`McpName.DoubleUnderscoreFails`); and a frontmatter value with U+2028 or U+2029 is printed but not read back
(`Frontmatter.LineRoundTrip`, `Frontmatter.SeparatorIsLost`).

## Model

| member | source | states |
|---|---|---|
| `Revisions.ReservedCounter` | packages/agent-interchange/src/handoffs.ts:501-548 | A reserved revision (and its claim) gives its Lamport counter back exactly while the counter is below 10^16; beyond that it counts as zero. |
| `Revisions.CompareIsTotalOrder` | packages/agent-interchange/src/handoffs.ts:550-559 | `compareRevisions` is a strict total order on revisions, with the empty register below everything. |
| `Revisions.CompareIsLexicographic` | packages/agent-interchange/src/handoffs.ts:550-559 | Which of two revisions is the smaller: the one with the smaller counter, at equal counters the empty register, then the order of the locale. |
| `Revisions.CounterIsReadOff` | packages/agent-interchange/src/handoffs.ts:545-548 | A revision's counter is the value of its sixteen digits when it is `v2-`, those digits, and nothing more or a hyphen; every other text counts as zero. |
| `HandoffFold.FoldOperations` | packages/agent-interchange/src/handoffs.ts:444-491 | The loop over the operations computes the fold, for every base, register state and operation list. |
| `HandoffFold.FoldMeaning` | packages/agent-interchange/src/handoffs.ts:444-491 | Each register ends with the greatest revision that set the field and that operation's value, or as it was when none is greater; no operation's time, nor the base's, comes after `updated` in dictionary order, and it is one of them; the body is the base's body with each operation's log entry appended once, in order. |
| `HandoffFold.WinnerIsUnique` | packages/agent-interchange/src/handoffs.ts:461-477 | The last-writer-wins value and register are determined by the set of operations alone. |
| `HandoffFold.FoldIgnoresOrder` | packages/agent-interchange/src/handoffs.ts:444-491 | Folding the same operations in any order, with any repeats, gives the same values, registers and `updated`. |
| `HandoffFold.FoldInBatches` | packages/agent-interchange/src/handoffs.ts:444-491 | Folding in two batches through an intermediate document is folding everything at once, log lines included. |
| `HandoffFold.FoldKeepsIdentity` | packages/agent-interchange/src/handoffs.ts:488-490 | A fold changes nothing of the document besides status, pick-up fields, `updated` and body. |
| `HandoffFold.OwnerIff` | packages/agent-interchange/src/handoffs.ts:262-272 | An operation newer than the base's register owns the register after the fold exactly when no operation that sets the field has a greater revision. |
| `HandoffFold.BeforeIsDictionaryOrder` | packages/agent-interchange/src/handoffs.ts:479 | The comparison of times is dictionary order: the shorter of a text and its continuation is the earlier one, and otherwise the one with the smaller first difference. |
| `HandoffFold.BeforeIsTotalOrder` | packages/agent-interchange/src/handoffs.ts:479 | It is a strict total order. |
| `HandoffFold.LogEntriesMean` | packages/agent-interchange/src/handoffs.ts:480-485 | A fold writes one line for each operation that has a note or sets a status, in order, `- <created> — <note>` or else `- <created> — status → <status>`, and nothing for any other. |
| `HandoffFold.LogShape` | packages/agent-interchange/src/handoffs.ts:657-666 | Appending entries one by one gives the body, with a log heading if it had none, followed by one line per entry in order; only white space at the end is lost. |
| `HandoffFold.BodyStaysInFront` | packages/agent-interchange/src/handoffs.ts:657-666 | The text of the old body stays in front, with a `### Log` heading behind it exactly when it had none. |
| `HandoffFold.LineOccurs` | packages/agent-interchange/src/handoffs.ts:657-666 | Every line that was appended stands in the body on a line of its own. |
| `HandoffJournal.InsertKeepsSorted` | packages/agent-interchange/src/handoffs.ts:414 | An operation is sorted into its place by revision. |
| `HandoffJournal.PendingIsSorted` | packages/agent-interchange/src/handoffs.ts:409-415 | The operations read are in revision order, whatever order the directory listed them in. |
| `HandoffJournal.Pending` | packages/agent-interchange/src/handoffs.ts:409-415 | Reading the journal returns exactly the listed operations the base has not folded, each once. |
| `HandoffJournal.FoldPending` | packages/agent-interchange/src/handoffs.ts:409-415 | Folding what a base does not claim to carry gives a document that carries exactly the listing, each operation once. |
| `HandoffJournal.StepIsGood` | packages/agent-interchange/src/handoffs.ts:228-594 | Every step of a writer, reader or compactor, crashes and swallowed compaction errors included, keeps its own promises, the journal's, and the base's. |
| `HandoffJournal.PerformKeepsInv` | packages/agent-interchange/src/handoffs.ts:228-594 | A step of one process keeps the invariant of the whole disk and of all other processes; journal and claims only grow. |
| `HandoffJournal.RunKeepsInv` | packages/agent-interchange/src/handoffs.ts:228-594 | The invariant holds after every run from a created document, in every interleaving. |
| `HandoffJournal.ReadInterval` | packages/agent-interchange/src/handoffs.ts:321-340 | The listing a read folds is the journal as it was at one moment between the read's start and its end, through all retries. |
| `HandoffJournal.ReadReturnsJournal` | packages/agent-interchange/src/handoffs.ts:321-340 | Reads are linearizable: a finished read returns the creation folded with exactly the operations in the journal at that moment; per field the value of the greatest revision, each log line once. |
| `HandoffJournal.BaseCarriesItsRevisions` | packages/agent-interchange/src/handoffs.ts:561-594 | On every reachable disk, after any overwriting by stale compactors, `foldedRevisions` is a subset of the journal and names exactly the operations whose log lines the body carries. |
| `HandoffJournal.CompactionStutters` | packages/agent-interchange/src/handoffs.ts:561-594 | Replacing the base by any other base a compactor may hold changes no value, register or time a read returns, and the log carries the same multiset of lines. |
| `HandoffJournal.BaseWriteStutters` | packages/agent-interchange/src/handoffs.ts:573-594 | A step of a run that writes the base leaves what every read returns as it was. |
| `HandoffJournal.QuietCompactionCatchesUp` | packages/agent-interchange/src/handoffs.ts:573-594 | A compaction that no other process disturbs leaves a base that carries the whole journal. |
| `HandoffJournal.ReadsAreBounded` | packages/agent-interchange/src/handoffs.ts:321-340 | A read lists the journal four times at the most. |
| `HandoffJournal.ErrorsAndRetries` | packages/agent-interchange/src/handoffs.ts:321-340 | A base replaced during a read makes the read start over; an error in a compaction is swallowed and any other ends the call; a claim somebody else holds makes the reservation start over. |
| `HandoffJournal.ListingsAgree` | packages/agent-interchange/src/handoffs.ts:417-423 | Two listings of the same journal are the same multiset of operations, in whatever order the directory gives them. |
| `HandoffJournal.FoldBody` | packages/agent-interchange/src/handoffs.ts:479-485 | The body of a fold is the base's body with the entries of the operations appended. |
| `HandoffJournal.ReservationInterval` | packages/agent-interchange/src/handoffs.ts:501-532 | The claims a reservation is measured against are those on disk at the moment its update started, and the same update has been under way ever since. |
| `HandoffJournal.ReservationsAdvance` | packages/agent-interchange/src/handoffs.ts:501-532 | A reserved revision is claimed and greater than every claim that existed when the reservation began; its failed attempts never outnumber the claims made meanwhile. |
| `HandoffJournal.ClaimIsReservation` | packages/agent-interchange/src/handoffs.ts:513-525 | Every step of a run that creates a claim file reserves one revision, whose counter nobody had claimed before. |
| `HandoffJournal.LaterReservationIsGreater` | packages/agent-interchange/src/handoffs.ts:501-559 | No two reservations of a run get the same counter, whatever became of their writers; and a reservation that began after another's claim file existed gets the greater revision. |
| `HandoffJournal.CountersAreUnique` | packages/agent-interchange/src/handoffs.ts:501-532 | At every moment, no two operations in the journal or about to be published share a counter. |
| `HandoffJournal.CallKeepsUpdate` | packages/agent-interchange/src/handoffs.ts:240-252 | Along every run a call stays at the update it was started with, or is a mere read when that has no status, agent, note or session id. |
| `HandoffJournal.FinishedUpdateIsPublished` | packages/agent-interchange/src/handoffs.ts:245-258 | An update that runs to its end stands in the journal its own read returned, with the status, agent, session id and note it was called with; one that carries nothing published nothing. |
| `HandoffJournal.FinishedUpdateHasItsTime` | packages/agent-interchange/src/handoffs.ts:243-257 | It carries the time of the rename that published it, which the same call made. |
| `HandoffJournal.FinishedUpdateIsLogged` | packages/agent-interchange/src/handoffs.ts:243-260 | Its line is one of those appended to the body the call returns, and stands there on a line of its own: `- <created> — <note>`, or without a note `- <created> — status → ` with the status as open, picked-up, done or abandoned. |
| `HandoffJournal.ReportIsExact` | packages/agent-interchange/src/handoffs.ts:259-272 | An update is reported to have won a field exactly when no listed operation with a greater revision sets that field. |
| `Quoting.UnquoteQuote` | packages/agent-interchange/src/handoffs.ts:688-702 | Unquoting undoes quoting for every string, with the escapes of section 7 of RFC 8259. |
| `Quoting.QuotedShape` | packages/agent-interchange/src/handoffs.ts:688-692 | A printed value is never empty, starts and ends without white space, and has a line end only if the value has U+2028 or U+2029. |
| `Quoting.ShortEscapes` | packages/agent-interchange/src/handoffs.ts:692-702 | In a quoted value a backslash is read as section 7 of RFC 8259 says, and with any other character behind it the value is no literal. |
| `Quoting.UnicodeEscapes` | packages/agent-interchange/src/handoffs.ts:692-702 | Four hex digits are read as the character they number; a surrogate needs its other half behind it. |
| `Quoting.BrokenLiterals` | packages/agent-interchange/src/handoffs.ts:692-702 | A control character, or anything behind the closing quote, makes the text no literal. |
| `Frontmatter.Serialize` | packages/agent-interchange/src/handoffs.ts:601-629 | Pushing lines to an array and joining them prints the file of the document's entries. |
| `Frontmatter.ParseFrontmatter` | packages/agent-interchange/src/handoffs.ts:631-655 | The loop over the header's lines computes the parse, for every text. |
| `Frontmatter.FileIsParsed` | packages/agent-interchange/src/handoffs.ts:631-655 | Any file is a header up to the first `---` at the start of a line, and the body behind it without at most one line end. |
| `Frontmatter.OtherTextIsNot` | packages/agent-interchange/src/handoffs.ts:631-637 | A text has no frontmatter exactly when it does not begin with `---` or has no closing fence. |
| `Frontmatter.LineIsMatched` | packages/agent-interchange/src/handoffs.ts:646-651 | A line is read whenever it is a key, a colon and a value on one line, with white space in front, around the colon or not at all. |
| `Frontmatter.MatchedIsLine` | packages/agent-interchange/src/handoffs.ts:646-651 | No other line is read. |
| `Frontmatter.LastLineCounts` | packages/agent-interchange/src/handoffs.ts:643-652 | Of several lines that set a key the last one counts, unquoted and trimmed. |
| `Frontmatter.LineRoundTrip` | packages/agent-interchange/src/handoffs.ts:636-652 | A printed line is read back exactly unless its value has U+2028 or U+2029, in which case the line is ignored. |
| `Frontmatter.SeparatorIsLost` | packages/agent-interchange/src/handoffs.ts:636-652 | A title with U+2028 in it is printed, and its line is not read back. |
| `Frontmatter.FieldsRoundTrip` | packages/agent-interchange/src/handoffs.ts:631-655 | Reading the printed lines gives exactly the non-empty values without those separators. |
| `Frontmatter.FirstFence` | packages/agent-interchange/src/handoffs.ts:631-635 | The closing fence is found where it was printed, whatever the values are. |
| `Frontmatter.FileRoundTrip` | packages/agent-interchange/src/handoffs.ts:601-655 | Parsing a printed file gives the body back character by character, whatever it contains, and exactly the storable values. |
| `Frontmatter.RevisionsRoundTrip` | packages/agent-interchange/src/handoffs.ts:369-374 | The comma-separated revisions are read back as the same set. |
| `Frontmatter.NamesAreRead` | packages/agent-interchange/src/handoffs.ts:678-686 | The names of agents and statuses are read exactly, and an unknown status counts as open. |
| `Frontmatter.BaseReadsBack` | packages/agent-interchange/src/handoffs.ts:352-406 | Every printed base reads back value by value: what is empty or has U+2028 or U+2029 becomes the reader's default for that field, everything else, body and folded revisions included, comes back. |
| `Frontmatter.BaseRoundTripIff` | packages/agent-interchange/src/handoffs.ts:352-406 | A printed base reads back as itself exactly when each value is printed and read or equals its default; no value has to be present for that where the default says so. |
| `Frontmatter.SessionReadsBackIff` | packages/agent-interchange/src/handoffs.ts:352-381 | The session id is read back exactly when it is absent, or not empty and free of U+2028 and U+2029. |
| `HandoffStorage.RunStaysClean` | packages/agent-interchange/src/handoffs.ts:228-273 | Along every run whose revisions have a suffix such as a UUID, all revisions stay readable; and with updates that print cleanly, so do all values on disk and in flight. |
| `HandoffStorage.FoldStaysStorable` | packages/agent-interchange/src/handoffs.ts:444-491 | Folding storable operations into a storable document gives a storable one. |
| `HandoffStorage.BasesReadBack` | packages/agent-interchange/src/handoffs.ts:352-406 | On every disk a run reaches, whatever values its updates carry, the text of the base parses value by value, and to the base the readers and compactors work with exactly when that base's values survive printing. |
| `HandoffStorage.CleanRunsSurvive` | packages/agent-interchange/src/handoffs.ts:352-406 | With a storable creation and updates that print cleanly the values of every base survive. |
| `SlotScheduling.PassIsGood` | src/api/model-request-limiter.ts:73-89 | After one left-to-right pass every holder fits its limit at its place in grant order, no waiter fits, and earlier holders and waiters keep their places. |
| `SlotScheduling.PassConserves` | src/api/model-request-limiter.ts:73-89 | A pass neither loses nor duplicates a request. |
| `SlotScheduling.PassSplits` | src/api/model-request-limiter.ts:73-89 | After a pass every request still has one place only, among the holders or among the waiters. |
| `SlotScheduling.PassIsSaturation` | src/api/model-request-limiter.ts:73-89 | One pass does what granting the first waiter that fits, again and again until none does, would do. |
| `SlotScheduling.GrantedHaveLargerLimits` | src/api/model-request-limiter.ts:73-89 | A granted request has a strictly larger limit than each waiter it left behind in front of it. |
| `SlotScheduling.OvertakesOnlySmaller` | src/api/model-request-limiter.ts:73-89 | Of two waiters, a later one is granted before an earlier one only if the earlier one's limit is strictly smaller. |
| `SlotScheduling.HistoryIsFair` | src/api/model-request-limiter.ts:39-89 | Over every history of acquires, releases and aborts the waiters stand in the order of their arrival, and a holder that arrived after somebody who still waits has a strictly larger limit. |
| `SlotScheduling.WithoutKeepsFit` | src/api/model-request-limiter.ts:58-64 | Taking any holder out keeps the others fitting their limits. |
| `SlotScheduling.HandleKeepsGood` | src/api/model-request-limiter.ts:39-89 | Each acquire, release or abort keeps the scheduling invariant. |
| `SlotScheduling.HistoryIsGood` | src/api/model-request-limiter.ts:39-89 | After every history of acquires, releases in any order and aborts, the holder at position k has no limit or one of at least k+1, and no waiter fits. |
| `ModelRequestLimiter.GrantFromIsPass` | src/api/model-request-limiter.ts:74-84 | The index loop with `splice` over the queue array is the pass on lists. |
| `ModelRequestLimiter.GrantFreeSlotsIsGrant` | src/api/model-request-limiter.ts:73-89 | Granting free slots on the limiter's maps is the grant of the scheduling model, and touches one model only. |
| `ModelRequestLimiter.AcquireIsValid` | src/api/model-request-limiter.ts:39-71 | An acquire keeps counters, queues and holders consistent and is the acquire of the scheduling model. |
| `ModelRequestLimiter.AbortIsValid` | src/api/model-request-limiter.ts:46-53 | An abort while waiting takes just that request out. |
| `ModelRequestLimiter.LateAbort` | src/api/model-request-limiter.ts:46-53 | An abort after the grant changes nothing. |
| `ModelRequestLimiter.ReleaseIsValid` | src/api/model-request-limiter.ts:58-64 | A first release gives the slot back and grants as the scheduling model does. |
| `ModelRequestLimiter.ValidMeans` | src/api/model-request-limiter.ts:39-99 | In a valid limiter `running` is the number of outstanding grants, holders fit, no waiter fits, each waiter's captured queue is the one in the map, and no entry is zero or empty. |
| `ModelRequestLimiter.Limiter.DropEmptyQueue` | src/api/model-request-limiter.ts:95-99 | An empty queue leaves the map, another stays. |
| `ModelRequestLimiter.Limiter.GrantOne` | src/api/model-request-limiter.ts:81-83 | One waiter leaves its array and is counted. |
| `ModelRequestLimiter.Limiter.GrantFreeSlots` | src/api/model-request-limiter.ts:73-89 | The loop over the queue computes the grant on the limiter's state. |
| `ModelRequestLimiter.Limiter.Enqueue` | src/api/model-request-limiter.ts:43-68 | The request joins the end of its model's queue, new queues entering the map. |
| `ModelRequestLimiter.Limiter.OnAbort` | src/api/model-request-limiter.ts:46-53 | The abort listener withdraws a request that is still queued and does nothing otherwise. |
| `ModelRequestLimiter.Limiter.OnRelease` | src/api/model-request-limiter.ts:58-64 | The release closure gives a slot back at most once. |
| `ModelRequestLimiter.Limiter.Acquire` | src/api/model-request-limiter.ts:39-71 | Acquiring keeps the limiter valid, is the scheduling model's acquire on its model, changes no other model, and does nothing under a signal that has already aborted. |
| `ModelRequestLimiter.Limiter.Abort` | src/api/model-request-limiter.ts:46-53 | Aborting at any time keeps the limiter valid and is the scheduling model's abort. |
| `ModelRequestLimiter.Limiter.Release` | src/api/model-request-limiter.ts:58-64 | Releasing keeps the limiter valid and is the scheduling model's release the first time, nothing the second. |
| `BackgroundModel.CreateMessageWithFallback` | src/api/BackgroundModelHandler.ts:171-228 | For every pair of streams and every way they end: the second handler is asked exactly after a retryable failure or one with status 400, 401 or 403; then the foreground stream is shown with the last cost the background stream reported added to every usage chunk, or unchanged if it reported none. |
| `BackgroundModel.DiscardedCost` | src/api/BackgroundModelHandler.ts:190-194 | The loop collects the last cost any buffered usage chunk carries, however many chunks follow it. |
| `BackgroundModel.Replay` | src/api/BackgroundModelHandler.ts:203-223 | The replay adds the discarded cost to each usage chunk and changes nothing else; a completed stream without a usage chunk gets one with that cost. |
| `BackgroundModel.FallbackCostsBoth` | src/api/BackgroundModelHandler.ts:171-228 | A completed fallback call costs what its foreground stream costs and, if positive, the last cost the discarded attempt reported; if that reported none, the foreground stream is shown as it is. |
| `BackgroundModel.CostIsLastUsage` | src/api/BackgroundModelHandler.ts:209-213 | The cost of a stream is that of its last usage chunk, and nothing without one. |
| `BackgroundModel.CostOfCharged` | src/api/BackgroundModelHandler.ts:202-218 | Charging adds the discarded cost exactly once to the cost in the last usage chunk. |
| `BackgroundModel.FallbackIsSeamless` | src/api/BackgroundModelHandler.ts:171-228 | A completed fallback call shows the foreground stream chunk by chunk and nothing of the background one, with one usage chunk more at the most. |
| `BackgroundModel.NothingToCharge` | src/api/BackgroundModelHandler.ts:202-226 | Without discarded cost the foreground stream is shown unchanged. |
| `FallbackSlots.StepKeepsInv` | src/api/model-request-limiter.ts:117-150 | Every step of a call keeps each model's slots and queue holding exactly the streams under way on it. |
| `FallbackSlots.RunKeepsInv` | src/api/model-request-limiter.ts:117-150 | The same after every run of any number of calls. |
| `FallbackSlots.StepMovesOneCall` | src/api/BackgroundModelHandler.ts:171-228 | A call goes from its background stream to the fallback or its end, and from the fallback to its foreground stream and its end; no other call moves. |
| `FallbackSlots.OneSlotPerCall` | src/api/BackgroundModelHandler.ts:171-228 | Over limited models a call never holds two slots, of whatever models. |
| `FallbackSlots.SomeCallCanGoOn` | src/api/model-request-limiter.ts:117-150 | Calls cannot deadlock each other: with limits of at least 1, as long as some call has not ended, some call can take a step without being abandoned. |
| `AuthStates.HandleKeepsGood` | packages/cloud/src/WebAuthService.ts:131-189 | Every transition keeps: token exactly in the active session, fetched for the current credentials; credentials absent exactly in initializing and logged-out; the events a chain. |
| `AuthStates.HandleAdvances` | packages/cloud/src/WebAuthService.ts:161-189 | While the credentials stay, the state only advances, and every event announces progress or repeats the active session. |
| `AuthStates.HandleKeepsUpToDate` | packages/cloud/src/WebAuthService.ts:435-473 | What a refresh in flight knows stays true across every other event. |
| `AuthStates.StepKeepsInv` | packages/cloud/src/WebAuthService.ts:131-189 | Each completion, in whatever order it arrives, keeps the invariant of the service and of everything in flight. |
| `AuthStates.RunKeepsInv` | packages/cloud/src/WebAuthService.ts:131-189 | The invariant holds in every world of every run. |
| `AuthStates.LogoutEndsTheSession` | packages/cloud/src/WebAuthService.ts:360-370 | In every run a logout leaves no state but logged-out, no credentials and no token, and announces it unless the service was logged out already. |
| `AuthStates.NothingStoredEndsTheSession` | packages/cloud/src/WebAuthService.ts:151-155 | So does a read of the secret store that finds nothing. |
| `AuthStates.NewCredentialsTakeOver` | packages/cloud/src/WebAuthService.ts:142-150 | Stored credentials that differ from the current ones in any field become current, without a token, in a first attempt; the same ones change nothing. |
| `AuthStates.TokenActivates` | packages/cloud/src/WebAuthService.ts:435-462 | A token for the current credentials makes the session active with that token, announced unless the refresh began in an active session. |
| `AuthStates.FailedAttemptIsInactive` | packages/cloud/src/WebAuthService.ts:464-473 | A failed refresh in an attempting session makes it inactive, credentials kept; in any other state, or with an invalid client token, it changes nothing. |
| `AuthStates.FailedCallbackKeepsTheSession` | packages/cloud/src/WebAuthService.ts:342-352 | A failed callback leaves a session alone and otherwise ends logged out. |
| `AuthStates.RefreshCaptures` | packages/cloud/src/WebAuthService.ts:423-436 | A refresh captures the state and credentials it begins with and changes neither. |
| `AuthStates.TokensBelongToTheSession` | packages/cloud/src/WebAuthService.ts:398-404 | In every run a session token is held exactly in the active session and was fetched for the current credentials object; the events form one chain from the initial state. |
| `AuthStates.LateTokenIsDropped` | packages/cloud/src/WebAuthService.ts:442-458 | Over every run: a refresh that is in flight when its credentials are no longer the current ones changes nothing when its token arrives, however much later and whatever happened in between. |
| `AuthStates.EndedSessionIsNotRevived` | packages/cloud/src/WebAuthService.ts:442-458 | A token fetched for credentials that were current at one moment and not at a later one changes nothing from then on: a finished session is never revived. |
| `AuthStates.SilentAssignmentIsNoOp` | packages/cloud/src/WebAuthService.ts:460 | Where the state is assigned without an event it already has the value. |
| `AuthStates.EpochIsAnInterval` | packages/cloud/src/WebAuthService.ts:138-159 | The moments with one credentials object are an interval of the run: an object never comes back. |
| `AuthStates.EpochAdvances` | packages/cloud/src/WebAuthService.ts:161-189 | Within one credentials epoch the state never goes back; an active session lasts as long as its epoch. |
| `AuthStates.StepAdvances` | packages/cloud/src/WebAuthService.ts:131-189 | A single step within an epoch advances the state or repeats the active session. |
| `AuthStates.InactiveOnce` | packages/cloud/src/WebAuthService.ts:184-189 | An inactive session is entered at most once in an epoch. |
| `WebAuth.WebAuthService.ChangeState` | packages/cloud/src/WebAuthService.ts:131-136 | The state changes and one event with the previous state is emitted. |
| `WebAuth.WebAuthService.TransitionToLoggedOut` | packages/cloud/src/WebAuthService.ts:161-169 | Credentials and token go, and the change is announced. |
| `WebAuth.WebAuthService.TransitionToAttemptingSession` | packages/cloud/src/WebAuthService.ts:171-182 | New credentials, no token, first attempt. |
| `WebAuth.WebAuthService.TransitionToInactiveSession` | packages/cloud/src/WebAuthService.ts:184-189 | The token goes, the credentials stay. |
| `WebAuth.WebAuthService.HandleCredentialsChange` | packages/cloud/src/WebAuthService.ts:138-159 | A read that finds nothing logs out; one with other content makes a fresh credentials object current, attempting and without a token; one with the same content changes nothing; the service stays valid with everything in flight. |
| `WebAuth.WebAuthService.OnToken` | packages/cloud/src/WebAuthService.ts:442-462 | A token for the current credentials object makes the session active with it; any other token changes nothing. |
| `WebAuth.WebAuthService.OnRefreshError` | packages/cloud/src/WebAuthService.ts:464-473 | A failure in an attempting session makes it inactive without a token; any other changes nothing. |
| `WebAuth.WebAuthService.OnCallbackError` | packages/cloud/src/WebAuthService.ts:342-352 | A failed callback logs out if there are no credentials and leaves a session alone otherwise. |
| `WebAuth.WebAuthService.OnStorageCleared` | packages/cloud/src/WebAuthService.ts:360-392 | Logging out leaves the state logged out, no credentials and no token, with one event unless it was so before. |
| `WebAuth.WebAuthService.GetSessionToken` | packages/cloud/src/WebAuthService.ts:398-404 | The token is given out exactly in the active session. |
| `TagAutomaton.ControlAfter` | src/utils/tag-matcher.ts:57-130 | After every input `matched` is depth > 0 and the active-tag stack has max(depth, 0) entries. |
| `TagAutomaton.NextIsSound` | src/utils/tag-matcher.ts:57-130 | The buffer is handed out exactly when the automaton falls back to text at the same depth; a tag's text stays in it only while inside a tag on both sides. |
| `TagMatching.PushIsBuffered` | src/utils/tag-matcher.ts:57-130 | One character keeps the buffer invariant: what was handed out is what was kept, the rest is nested tags and the tag under way. |
| `TagMatching.EveryChunkingEmitsTheText` | src/utils/tag-matcher.ts:131-146 | For every way of cutting the input the control state is the same, and the output is the input in order with every character outside recognised tags exactly once, no outermost tag, and perhaps without some nested tags. |
| `TagMatching.LosslessOutput` | src/utils/tag-matcher.ts:31-146 | Where no nested tag can be lost the output is the same for every cut. |
| `TagMatching.CharsKeepNested` | src/utils/tag-matcher.ts:140-146 | Fed by single characters the matcher keeps every nested tag. |
| `TagMatching.OnePieceDrops` | src/utils/tag-matcher.ts:117-119 | Fed in one piece it drops a nested tag whenever an outermost tag closes right behind one. |
| `TagMatching.CuttingMattersIff` | src/utils/tag-matcher.ts:31-146 | The output is the same for all cuts if and only if no outermost tag closes right behind a nested one. |
| `TagBlocks.CutsMatterExample` | src/utils/tag-matcher.ts:80-82 | An input of four tags whose output depends on the cuts. |
| `TagMatching.ShallowHasNoNested` | src/utils/tag-matcher.ts:57-130 | At depth at most one no tag is nested and nothing can be lost. |
| `TagMatching.ShallowBufferIsEmpty` | src/utils/tag-matcher.ts:57-146 | At depth at most one the buffer is empty whenever the matcher is in its text state, between and within chunks. |
| `TagMatching.ShallowOutput` | src/utils/tag-matcher.ts:31-146 | At depth at most one the output does not depend on the cuts, and its text is the input without the recognised tags. |
| `TagBlocks.BlockStream` | src/utils/tag-matcher.ts:57-146 | Any stream behind an opening tag of one of the names looked for, for every cut, unless a nested tag can be lost: all of it comes out flagged if the block is never closed, else what stands in front of the closing tag flagged and what stands behind it unflagged, without the two tags. |
| `TagBlocks.ReasoningBlockIff` | src/utils/tag-matcher.ts:57-146 | For every list of names looked for at the start of a stream and every one of them: for every cut the body comes out flagged, the rest unflagged and untouched and the tags not at all, if and only if reading the body ends in the text at depth one, not right behind a nested tag. |
| `TagBlocks.ContainedNeverLeaves` | src/utils/tag-matcher.ts:57-130 | A body for which that holds is inside the block all along: no part of it closes the outermost tag. |
| `TagBlocks.ReasoningBlock` | src/utils/tag-matcher.ts:57-146 | In particular the block comes out that way, for every cut, when its body has no opening angle bracket. |
| `TagBlocks.AngleBracketHidesClosing` | src/utils/tag-matcher.ts:101-108 | A body that ends in an opening angle bracket hides the closing tag: for every cut the whole stream comes out flagged, closing tag included. |
| `TagNesting.NestedBlockIff` | src/utils/tag-matcher.ts:57-146 | A block whose body is properly nested, with spaces allowed around the tag names, comes out flagged and its rest unflagged, for every cut, if and only if its body does not end in a nested tag. |
| `TagNesting.PlainStream` | src/utils/tag-matcher.ts:62-73 | Tags are looked for at the configured position only: a stream without an opening angle bracket up to there comes out unflagged and whole, for every cut. |
| `TagMatcherClass.AddChunkIsAppend` | src/utils/tag-matcher.ts:31-47 | Collecting appends the buffered text with the current flag. |
| `TagMatcherClass.AddChunkMerges` | src/utils/tag-matcher.ts:38-45 | Collected chunks are never empty and neighbours differ in their flag. |
| `TagMatcherClass.MergedIsCanonical` | src/utils/tag-matcher.ts:38-45 | Merged chunk lists with the same characters and flags are the same list. |
| `TagMatcherClass.TagMatcher.Collect` | src/utils/tag-matcher.ts:31-47 | The method hands the buffer out with the current flag. |
| `TagMatcherClass.TagMatcher.Pop` | src/utils/tag-matcher.ts:48-55 | All chunks are returned, none stays. |
| `TagMatcherClass.TagMatcher.AdvanceCandidates` | src/utils/tag-matcher.ts:101-104 | The candidates whose next character it is move past it, the others go. |
| `TagMatcherClass.TagMatcher.OpenTag` | src/utils/tag-matcher.ts:74-109 | The branch for an opening tag does what the automaton says. |
| `TagMatcherClass.TagMatcher.CloseTag` | src/utils/tag-matcher.ts:110-128 | The branch for a closing tag does what the automaton says. |
| `TagMatcherClass.TagMatcher.PlainText` | src/utils/tag-matcher.ts:62-73 | The branch for text does what the automaton says. |
| `TagMatcherClass.TagMatcher.Read` | src/utils/tag-matcher.ts:57-130 | Reading a piece is the automaton with its buffer over all its characters. |
| `TagMatcherClass.TagMatcher.Update` | src/utils/tag-matcher.ts:140-146 | An update keeps the matcher at the state of all pieces fed so far, and returns merged chunks. |
| `TagMatcherClass.TagMatcher.Final` | src/utils/tag-matcher.ts:131-139 | After the last call everything ever handed out is the output of all the pieces together. |
| `TokenCount.SerializeToolResult` | src/utils/tiktoken.ts:29-53 | The pushed lines are the specified ones, or the call throws where looking at an item does. |
| `TokenCount.ToolUseIsCounted` | src/utils/tiktoken.ts:13-24 | A tool use is counted as `Tool: <name>` and, on a line of its own, `Arguments: ` with its whole serialized input. |
| `TokenCount.InputsAreToldApart` | src/utils/tiktoken.ts:13-24 | Different inputs of a tool are counted by different texts. |
| `TokenCount.TextResultIsCounted` | src/utils/tiktoken.ts:29-40 | A text result is counted as `Tool Result (<id>)`, a line `[Error]` if it is one, and the text; without content as just its head. |
| `TokenCount.ItemIsCounted` | src/utils/tiktoken.ts:41-52 | Each item of a result adds its line: its text, `[Image content]` or `[Unsupported content block: <kind>]`; one that throws makes the count throw. |
| `TokenCount.OthersAreCounted` | src/utils/tiktoken.ts:68-94 | Text is counted as it is, an image by the rounded-up root of its data's length or as 300 without data, and other blocks as nothing. |
| `TokenCount.CeilSqrt` | src/utils/tiktoken.ts:80 | The smallest number whose square is at least the data's length. |
| `TokenCount.Fudge` | src/utils/tiktoken.ts:163-165 | One and a half times the total, rounded up to the next whole number. |
| `TokenCount.FudgeOnce` | src/utils/tiktoken.ts:159-165 | Applied per block instead of once, the factor gives more exactly when both counts are odd. |
| `TokenCount.ItemsKeyParts` | src/utils/tiktoken.ts:129-137 | The loop over a tool result's items gives their key parts. |
| `TokenCount.BlockCountKeyParts` | src/utils/tiktoken.ts:106-144 | The key parts of every kind of block, or a throw. |
| `TokenCount.KeyDeterminesTokens` | src/utils/tiktoken.ts:66-144 | A key exists exactly where counting does not throw, and the raw count can be computed from the key alone, the serialized text being rebuilt from it. |
| `TokenCount.EqualKeysEqualTokens` | src/utils/tiktoken.ts:97-105 | Blocks with equal key parts have equal raw counts, whatever the tokenizer. |
| `TokenCount.Tiktoken` | src/utils/tiktoken.ts:151-177 | The uncached count: the factor on the sum of the raw counts, or a rejection if one block throws. |
| `TokenCount.TotalOfParts` | src/utils/tiktoken.ts:172-176 | The total counts every block exactly once. |
| `KeyTrie.Lookup` | src/utils/BlockTokenCountCache.ts:129-138 | The count stored at the end of the key, if the trie has one. |
| `KeyTrie.AddChild` | src/utils/BlockTokenCountCache.ts:118-121 | A new node adds exactly one path to the trie. |
| `KeyTrie.Insert` | src/utils/BlockTokenCountCache.ts:116-127 | The node of the key, the paths already there keeping their nodes, new nodes being empty and on the way to the key. |
| `BlockTokenCache.TokenizerIsKeyable` | src/utils/BlockTokenCountCache.ts:20-27 | The local tokenizer cannot tell blocks with equal key parts apart, so a cache may rely on them. |
| `BlockTokenCache.KeyOfBlock` | src/utils/BlockTokenCountCache.ts:106-114 | The key is encoding, scope and key parts, absent where the parts throw. |
| `BlockTokenCache.KeysKeepScopesApart` | src/utils/BlockTokenCountCache.ts:106-114 | Equal keys have the same scope and the same key parts. |
| `BlockTokenCache.KnownOrMissing` | src/utils/BlockTokenCountCache.ts:56-78 | The keys to be tokenized are exactly the request's unknown ones. |
| `BlockTokenCache.MissingOnce` | src/utils/BlockTokenCountCache.ts:56-78 | No key is tokenized twice in a call. |
| `BlockTokenCache.MissingDecides` | src/utils/BlockTokenCountCache.ts:80-90 | If the missing blocks could be counted, so can every block of the request. |
| `BlockTokenCache.InsertKeys` | src/utils/BlockTokenCountCache.ts:58-59 | A new trie with one node per distinct key, all without counts. |
| `BlockTokenCache.Place` | src/utils/BlockTokenCountCache.ts:63-77 | One block: its node gets the known count or is queued, unless an earlier block has its key. |
| `BlockTokenCache.FindMissing` | src/utils/BlockTokenCountCache.ts:60-78 | The loop fills in the known counts and finds exactly the missing blocks, in order. |
| `BlockTokenCache.StoreCounts` | src/utils/BlockTokenCountCache.ts:80-90 | Every node gets the count of its key; counts of blocks without a key are added up. |
| `BlockTokenCache.SumNodes` | src/utils/BlockTokenCountCache.ts:92-98 | The counts at the nodes add up to the keyed part of the total; the entries are the distinct keys. |
| `BlockTokenCache.Settle` | src/utils/BlockTokenCountCache.ts:80-98 | The two loops after the await give the uncached total. |
| `BlockTokenCache.BlockTokenCountCache.Begin` | src/utils/BlockTokenCountCache.ts:47-78 | The part before the await reads the known counts and leaves the cache as it is. |
| `BlockTokenCache.BlockTokenCountCache.Finish` | src/utils/BlockTokenCountCache.ts:80-103 | Whatever other calls did meanwhile: the answer is the uncached one and the cache holds exactly this call's keys with right counts; a failed tokenizer rejects and changes nothing. |
| `BlockTokenCache.BlockTokenCountCache.Count` | src/utils/BlockTokenCountCache.ts:47-103 | A call nothing overlaps with returns exactly the uncached count or rejects where it would. |
| `BlockTokenCache.Start` | src/utils/BlockTokenCountCache.ts:47-78 | Beginning a call keeps every call under way valid and apart from the others. |
| `BlockTokenCache.Complete` | src/utils/BlockTokenCountCache.ts:80-103 | However calls overlap, each returns the uncached count, the others stay valid, and the last to finish decides what is kept. |
| `McpName.SanitizeIsSanitized` | src/utils/mcp-name.ts:90-115 | A sanitized name is not empty, has only allowed characters, starts with a letter or underscore and has no double hyphen. |
| `McpName.SanitizeIsIdempotent` | src/utils/mcp-name.ts:90-115 | Sanitizing leaves exactly the sanitized names alone, so it is idempotent. |
| `McpName.SpacesInFront` | src/utils/mcp-name.ts:96 | Every run of white space becomes one underscore, and what is around it is treated by itself. |
| `McpName.SpacesSanitize` | src/utils/mcp-name.ts:90-115 | White space between two sanitized words is one underscore in the sanitized name. |
| `McpName.KeptCharacter` | src/utils/mcp-name.ts:99 | Exactly ASCII letters, digits, underscores and hyphens are kept. |
| `McpName.KeepAllowedAppend` | src/utils/mcp-name.ts:99 | Each character is kept or dropped by itself. |
| `McpName.HyphensInFront` | src/utils/mcp-name.ts:102 | Every run of hyphens becomes one, and what is around it is treated by itself. |
| `McpName.SanitizeFirst` | src/utils/mcp-name.ts:90-115 | An empty name becomes `_`, one nothing is kept of `_unnamed`, and a digit or hyphen in front gets an underscore. |
| `McpName.CollapseHyphens` | src/utils/mcp-name.ts:102 | No two hyphens in a row are left, no character is invented, the last one stays. |
| `McpName.BuildIsApiName` | src/utils/mcp-name.ts:127-140 | A built name starts with the prefix and has only characters an API accepts, 64 at most; it is the prefix and both sanitized names with separators exactly when those fit, and otherwise their first 64 characters. |
| `McpName.BuildIsInjective` | src/utils/mcp-name.ts:127-140 | Of names that fit, with servers that come back, two are the same exactly when both the server and the tool sanitize alike. |
| `McpName.JoinSplitMatches` | src/utils/mcp-name.ts:55-61 | Splitting at separators and joining with hyphens changes separators only. |
| `McpName.NormalizeMatches` | src/utils/mcp-name.ts:44-65 | Normalizing changes a name at most between hyphens and underscores. |
| `McpName.NamesMatchMeans` | src/utils/mcp-name.ts:188-190 | Names match exactly when they have the same length and differ in hyphens against underscores only. |
| `McpName.ParseMeans` | src/utils/mcp-name.ts:149-178 | A name is parsed only as a name built like it, up to hyphens and underscores. |
| `McpName.RoundTripIff` | src/utils/mcp-name.ts:127-190 | Parsing a built name gives the sanitized server exactly and a matching tool if and only if the server has no double underscore, does not end in a hyphen, and the full name has at most 64 characters. |
| `McpName.FuzzyRoundTripIff` | src/utils/mcp-name.ts:127-190 | After every hyphen became an underscore both names still match if and only if the underscored server has no double underscore, does not end in one, and the full name has at most 64 characters. |
| `McpName.DoubleUnderscoreFails` | src/utils/mcp-name.ts:127-178 | A short, valid server name with a double underscore that does not come back. |
| `TagScanner.LeftmostMatchIsUnique` | packages/agent-interchange/src/briefing.ts:356-361 | Lazy matching from a position has one result. |
| `TagScanner.FindIsLeftmost` | packages/agent-interchange/src/briefing.ts:384-400 | The two `indexOf` searches find what lazy matching finds; one failed search for a closing tag rules out all later matches. |
| `TagScanner.LazySplitIff` | packages/agent-interchange/src/briefing.ts:374-407 | The scan's matches are exactly those of replacing every lazy match from left to right, orphan and nested opening tags included. |
| `TagScanner.PiecesRebuild` | packages/agent-interchange/src/briefing.ts:374-407 | From every position on, the parts kept and the blocks removed interleave back to the text. |
| `TagScanner.TextIsRebuilt` | packages/agent-interchange/src/briefing.ts:374-407 | The parts kept and the blocks removed interleave back to the whole text. |
| `TagScanner.StripTakesFirst` | packages/agent-interchange/src/briefing.ts:374-407 | Stripping takes the leftmost block out, up to the first closing tag behind it, keeps what is in front, and goes on behind it; extracting gives that block's trimmed content, if any, and those behind it. |
| `TagScanner.StripKeepsRest` | packages/agent-interchange/src/briefing.ts:374-407 | A text without a block is left as it is. |
| `TagScanner.FirstBlockOrNone` | packages/agent-interchange/src/briefing.ts:374-407 | Every text has a leftmost block or none. |
| `Text.TrimSplits` | packages/agent-interchange/src/briefing.ts:417 | Trimming gives a part of the text with white space in front of it and behind it and none at its ends. |
| `Text.TrimIsTheMiddle` | packages/agent-interchange/src/briefing.ts:417 | There is only one such part. |
| `TagScanner.Seek` | packages/agent-interchange/src/briefing.ts:384 | A search from a position looks at no more positions than up to its find, or to the end. |
| `TagScanner.StripLoop` | packages/agent-interchange/src/briefing.ts:381-404 | The cursor loop, against any function that agrees with each step of the scan. |
| `TagScanner.StripOneTag` | packages/agent-interchange/src/briefing.ts:374-407 | The result is the text outside the matches, and the positions looked at are at most one more than the text is long. |
| `TagScanner.ExtractLoop` | packages/agent-interchange/src/tools.ts:304-323 | The search loop, against any function that agrees with each step of the scan. |
| `TagScanner.ExtractTagContents` | packages/agent-interchange/src/tools.ts:300-325 | The results are the trimmed, non-empty bodies of the matches, in order, with the same bound on the work. |
| `TagScanner.StripTaggedBlocks` | packages/agent-interchange/src/briefing.ts:363-371 | The kinds of tags are stripped one after the other, in order. |
| `TagScanner.StripAllInOrder` | packages/agent-interchange/src/briefing.ts:363-371 | The kinds of tags are stripped one after the other, each from what the ones before it left. |
| `JsonComments.StripJsonComments` | packages/agent-interchange/src/locate.ts:182-242 | The character loop with its flags computes the stripped text, for every input. |
| `JsonSegments.EveryTextHasSegments` | packages/agent-interchange/src/locate.ts:182-242 | Every text consists of code, string literals with escapes, line comments up to their line end and block comments up to their first end mark, the last literal or comment possibly unfinished. |
| `JsonSegments.StrippedIsPrinted` | packages/agent-interchange/src/locate.ts:182-242 | However a text consists of such segments, the result is the segments that are not comments, as they were. |
| `JsonComments.StrippedIsText` | packages/agent-interchange/src/locate.ts:182-242 | The stripped text is the input's characters that are not part of a comment, in order. |
| `JsonComments.Relex` | packages/agent-interchange/src/locate.ts:182-242 | Reading the result again gives every kept character the part it had, and no comments. |
| `JsonComments.StrippingIsIdempotent` | packages/agent-interchange/src/locate.ts:182-242 | Stripping twice changes nothing more, and the result has no comments left. |
| `JsonComments.LiteralsUnchanged` | packages/agent-interchange/src/locate.ts:175-242 | The sequence of string literals is unchanged for every input, terminated or not. |
| `JsonComments.NoCommentOutsideStrings` | packages/agent-interchange/src/locate.ts:182-242 | In the result, two slashes or a slash and a star in a row only stand inside a string. |

## Left out

- The file system, the network, the editor and the clock: only the steps the protocols need are modelled (exclusive creation, atomic rename, reading a file, listing a directory, a request that completes with a value or an error).
- The identity of a replaced base file (inode, size, time): the comparison of two identities is an arbitrary boolean, so the results do not depend on it.
- `localeCompare`: an arbitrary total order; that it is one for all locales is not shown.
- Counters of 10^16 and more: no reservation is made there (`Revisions.ReservedCounter` says why), and the precision of JavaScript numbers is not modelled.
- Operation files that are not valid operations, files of other programs in the journal directory, and handoff ids with characters the code refuses.
- The `markdown` and `path` fields of a handoff, its rendering in lists, and creating documents beyond the state a creation leaves.
- The order of the log lines across compactions: the reads give the exact order of one fold, and compactions the same multiset of lines.
- Lone surrogates: strings have none, a stream is not cut inside a code point, and strings are compared by code points (the times that are compared are ASCII).
- HandoffStorage.BasesReadBack: is about revisions whose random suffix has no comma, no U+2028 or U+2029 and no white space at its end, as the UUIDs the code uses.
- The promises and microtasks of the limiter: a grant is the moment the promise is resolved, not the moment its continuation runs; removing the abort listener is not modelled, and `ModelRequestLimiter.LateAbort` shows that a late abort would do nothing.
- `completePrompt` of the limited and the background handler, model selection and token counting of the latter.
- How an error's status and whether it can be retried are read off the error object; they are fields of a failure here.
- Rounding of costs: they are real numbers.
- `userInfo`, the clearing of invalid client tokens, the refresh timer, and listeners that throw or call back into the sign-in service.
- A tag name that is the empty string together with an empty list of names, which the types rule out; the matcher's `transform` option; and using a matcher after `final`.
- TagBlocks.ReasoningBlockIff: is about tag names without `>` and space that do not start with a slash, as the configured names are, and about a matcher that only matches at the start of the stream.
- The byte-pair encoder and the worker pool: any function from text to a number, and any call may fail.
- `Math.sqrt` and its rounding: the square root is the exact one.
- Blocks that are mutated while one `count` call waits.
- Image data and tool inputs of types the interfaces rule out, beyond throwing.
- Cache keys as JavaScript strings of the block: keys are values, so nothing is said about which strings stay in memory.
- TagScanner.StripOneTag: asks for tags that are not empty, as all the constant tags are.
- The remaining cleaning of a briefing, the settings that `stripJsonComments` prepares for parsing, redaction rules, schemas, model lists, path containment, and the Python service.
