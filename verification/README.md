# Verification of the job service

A Dafny model of the algorithms and protocols in the job service around SQLite that carry
guarantees over whole runs, with proofs of those guarantees. `dafny verify dfyconfig.toml`
checks everything.

Where the source loops over mutable state, a method with the same loop is proved equal to a
specification function (or, in a class, to a function of its old state), and the theorems are
lemmas about those functions.

| files | source | subject |
|---|---|---|
| `PyText`, `MarkdownLexer`, `MessageSplitter`, `SplitterLoops`, `SplitterChoices`, `SplitterState`, `SplitterBalance`, `SplitterLimits`, `SplitterLengths`, `SplitterRuns` | `utils/text_processing.py` | splitting long Markdown messages: conservation, carried state, balance, termination, lengths |
| `RateLimiters` | `utils/telegram/rate_limiter.py`, `utils/edgar_rate_limiter.py` | sliding windows over unsorted, pruned deques |
| `WriteOutcomes`, `WriteQueue`, `ReadYourWrites` | `database/writer.py`, `database/connection.py` | the single writer and the generation-stamped readers |
| `ArticleIndex`, `ArticleDatabase`, `ArticleStore` | `database/schemas/vector.py`, `database/articles/store.py` | full-text and vector tables kept by triggers |
| `Schema`, `TableAlterations`, `Reconciler`, `ReconcilerLaws`, `Migration` | `database/management/` | schema reconciliation and migration by clone |
| `DomTraversal`, `ElementMarking`, `ElementMarkingLaws` | `utils/javascript/frame_mark_elements.js` | identifiers and marks on a page |
| `Delivery`, `DeliveryCrashes` | `utils/telegram/publisher.py` | resumable delivery |
| `JobLifecycle` | `bot/engine/worker.py`, `api/routes.py` | executions, resumes and callbacks of a job |
| `Ulids` | `utils/id_generator.py` | monotonic identifiers |
| `FiscalQuarters`, `TidyNotes` | `tools/stock_notes/` | fiscal quarters, tidy tables |
| `CashFlow` | `tools/stock_financials/extractor.py` | quarters from year-to-date values |
| `DraftEditor` | `tools/draft_editor/tool.py` | the Top 10 swap editor |

What comes from outside (clocks, random bits, send results, which SQL statements fail, how a
tool ends) is an oracle: a parameter the theorems quantify over. Times are reals.

Some things the code does differ from what it is meant to do. They are modelled as they are:

- The splitter does not return once a turn is blocked (`NeverReturnsIff`): by a leading link
  whose closing parenthesis lies past the split (`LongLinkNeverReturns`), and with limits below
  3 also by a leading token or for want of any room (`NoProgressIff`).
- A limit below the buffer of 50 need not bound anything (`TinyLimitBoundsNothing`,
  `TinyLimitChunkFitsIff`), a hard cut ignores the carried delimiters (`HardChunkFitsIff`) and
  can split an escape (`HardCutSplitsEscape`) or, in a run of equal characters, a token
  (`HardCutSplitsToken`); in all other cases the carried state is that of the text
  (`CutsAlignIff`, `CarriedStackIsPrefixScan`).
- The plain fallback does not return for limit 0 unless the text is blank (`PlainReturnsIff`).
- The EDGAR limiter lets through more than 8 requests a second exactly when a call meets a
  deque of more than 8 unforgotten stamps and sleeps only for the oldest (`RunBoundIff`); that
  takes a clock that still shows the last stamp (`CrowdedIff`, `RepeatedClockBreaksTheBound`).
- With a period below a second the Telegram limiter can forget the last message to any chat
  before the second that a private chat is to wait after it is over (`ForgettingMattersIff`).
- When a migration fails before the clone exists, its rollback drops the original table
  (`FailedCloneKeepsTableIff`); a failed plan ends as ROLLED_BACK, so the following plans are
  carried out although FAILED would stop them.
- A successful migration with nothing to copy loses all rows (`RowCountKeptIff`).
- A committed article upsert can break the vector tables (`UpsertKeepsInvIff` says exactly when):
  if its url and id belong to different articles (`MisdirectedUpsertBreaksInv`), or if it marks
  a row EMBEDDED for which no bytes came (`EmbeddedWithoutBytesBreaksInv`).
- An article scraped again under a new id, with an embedding, never commits: the url keeps the
  row of the old id, and the backup has no article to refer to (`VectorUpsertCommitsIff`).
- A type drift makes the reconciler raise, because the plan asks a declared type, which is a
  string, for its own type; a missing column without a declared type is added as TEXT, so that
  the next pass sees a drift (`AddedShapeIff`, `SettlesIff`).
- Marking a page again without unmarking it can repeat an identifier (`RemarkingCanRepeatABid`;
  `DistinctBidsIff` says when), and the reported number of marks counts those taken back
  (`ReportedCountIsExactIff`).
- A callback retry that takes longer than a poll is started again by every poll
  (`OverlappingRetriesAreUnbounded`); any such poll can lead to a round too many
  (`DuePollKeepsBudgetIff`).
- The count of delivered messages is recorded through the writer queue, so nothing makes a
  record land before the next message; a crash repeats what it had not recorded
  (`LateRecordsForgetMany`).

## Model

| member | source | states |
|---|---|---|
| `MarkdownLexer.ScanState` | utils/text_processing.py:293-308 | the scanning loop returns exactly the stack of the recursive scanner, for every text, end, mode and initial stack |
| `MarkdownLexer.TogglesAre` | utils/text_processing.py:166-176 | in both modes a token opens or closes something exactly if it is neither "[" nor ">" |
| `MarkdownLexer.CodeIsOpaque` | utils/text_processing.py:296-300 | in code of either kind nothing is read until its own delimiter comes again |
| `MarkdownLexer.TokensTakeEffect` | utils/text_processing.py:301-307 | outside code, and not behind a backslash, the first matching token closes the innermost delimiter if that is the same and is opened otherwise |
| `MarkdownLexer.ScanKeepsWellFormed` | utils/text_processing.py:296-307 | every scan keeps the stack well formed: only toggle delimiters, no two equal ones on top of each other, nothing above an open code delimiter |
| `MarkdownLexer.ScanCompose` | utils/text_processing.py:293-308 | scanning to a middle point and on from where that scan landed is the scan to the end, even if the middle point lies inside a token |
| `MarkdownLexer.ScanSuffix` | utils/text_processing.py:221-229 | scanning the remaining text from 0 is scanning the whole text from its offset: same stop, same stack |
| `MarkdownLexer.SameSpanReads` | utils/text_processing.py:293-308 | the scanner reads equal spans of two different texts alike, if it reads the first one exactly to its end and no token leaks over either end |
| `MarkdownLexer.AlignedIff` | utils/text_processing.py:293-308 | on any text and stack, a scan stops exactly at p unless it reads a backslash right before p that escapes the character at p, or a token that begins before p and ends behind it |
| `MarkdownLexer.SafeCutIsAlignedIff` | utils/text_processing.py:293-308 | at a cut no token straddles only the escape is left |
| `PyText.RFind` | utils/text_processing.py:281-288 | the result is the last match inside the clipped Python bounds, or -1 if there is none |
| `PyText.JoinAppend` | utils/text_processing.py:248-253 | joining is a homomorphism from lists of parts to text |
| `PyText.IsSpaceIff` | utils/text_processing.py:264-267 | the characters that strip removes are the 29 white-space ones of Unicode |
| `PyText.DecimalReadsBack` | utils/javascript/frame_mark_elements.js:84-87 | a number is written so that its digits, read in base ten, give it back, without a leading zero |
| `SplitterLoops.FindSplitPoint` | utils/text_processing.py:277-290 | the two-pass search returns the specified split point |
| `SplitterLoops.RollbackIfInsideAtom` | utils/text_processing.py:323-334 | the nested token loops and the bracket search return the specified rollback |
| `SplitterLoops.Assemble` | utils/text_processing.py:311-320 | the newline-counting loop yields newlines, quote prefix, openers, body and closers in that order |
| `SplitterLoops.MergeDelimiterOnlyChunks` | utils/text_processing.py:263-274 | the merge loop returns the specified list |
| `SplitterLoops.ChooseCut` | utils/text_processing.py:218-229 | scan, rollback and re-scan give the specified cut and stack |
| `SplitterLoops.CutLoop` | utils/text_processing.py:207-243 | the main loop returns the rendered pieces of the run, and fails to return exactly when the run does |
| `SplitterLoops.SplitBoundaryOnly` | utils/text_processing.py:337-350 | the fallback loop returns the specified chunks, and fails to return exactly when the specification says so |
| `SplitterLoops.SmartSplitMessage` | utils/text_processing.py:183-245 | the whole call equals the specification on every text, limit and mode |
| `MessageSplitter.BoundaryWithin` | utils/text_processing.py:277-289 | a boundary lies inside the searched range, is positive and follows a blank or newline |
| `MessageSplitter.ThreeQuarters` | utils/text_processing.py:279-280 | the search begins at three quarters of the bound, rounded down, or towards zero for a negative bound |
| `SplitterChoices.BoundaryFromIff` | utils/text_processing.py:281-289 | a range is cut after its last newline, else after its last sentence, else after its last space, and nowhere else |
| `SplitterChoices.BoundaryIff` | utils/text_processing.py:277-290 | the boundary is the best cut of the range from q on if that holds a blank at all, and of the whole range otherwise, where q is the whole number with 4q at most three times the bound and 4q + 4 above it |
| `SplitterChoices.HardSplitIff` | utils/text_processing.py:290 | a text is split hard exactly if there is no newline and no space within the search bound |
| `SplitterChoices.RollbackToLinkIff` | utils/text_processing.py:329-334 | at a split no token straddles, the rollback moves to p exactly if p is the last "[" before the split and its nearest ")" is at or past it |
| `SplitterChoices.RollbackToToken` | utils/text_processing.py:324-328 | at any other split it moves to the start of a token that lies across the split |
| `SplitterChoices.PlainCutIff` | utils/text_processing.py:346-347 | the fallback cuts at the last newline before the limit, and at the limit if there is none |
| `SplitterChoices.MergeGroups` | utils/text_processing.py:263-274 | merging groups the chunks in order: within a group all but the first are bare delimiters that fit, and no group begins with a chunk that could have joined the one before |
| `SplitterChoices.DelimiterOnlyIff` | utils/text_processing.py:264-267 | a chunk may be merged exactly if, without the whitespace at its ends, it is empty or one of the four delimiters |
| `SplitterState.NextInv` | utils/text_processing.py:207-243 | the loop invariant: the stack is well formed, the openers spell it, and the rest counts as a quotation only if it starts with "> " |
| `SplitterLengths.NextQuoteIff` | utils/text_processing.py:243 | after a cut the rest counts as a quotation exactly if the mode is MarkdownV2 and it starts with "> " |
| `SplitterChoices.InBlockquoteIff` | utils/text_processing.py:256-260 | a place is in a quotation exactly if the line it lies in starts with "> " |
| `SplitterState.OpenersSpellTheStack` | utils/text_processing.py:248-253 | the "[" case of both builders is dead: openers are the stack joined, closers have the same length and no "]" |
| `SplitterState.QuotePrefixNeverInserted` | utils/text_processing.py:256-260 | in every reachable state a chunk is leading newlines, carried openers, rest of the text, closers: the "> " prefix is never inserted |
| `SplitterState.PiecesSpellTheText` | utils/text_processing.py:207-243 | for every text and mode the raw pieces of a run that returns spell the text: nothing lost, nothing repeated |
| `SplitterState.CarriedStackIsPrefixScan` | utils/text_processing.py:219-242 | after any number of aligned cuts the carried stack is the stack of one scan over the whole prefix, which stops exactly at the cut |
| `SplitterState.WhichCutsAreSafe` | utils/text_processing.py:277-290 | which cuts no token straddles: cuts from a boundary, rollbacks to a bracket, and hard cuts that were not rolled back |
| `SplitterState.SafeCutIff` | utils/text_processing.py:323-334 | a cut is one that no token straddles exactly if the split it comes from is, or it is 0, or the character before it differs from the one behind it: the rollback stops at the start of a token, which a longer run of its character makes the middle of another |
| `SplitterState.CutsAlignIff` | utils/text_processing.py:219-229 | any cut of any turn is aligned exactly if it separates neither a backslash from the character it escapes nor the characters of a token the scan reads |
| `SplitterState.SafeCutsAlignIff` | utils/text_processing.py:219-229 | a cut that no token straddles splits no token the scan reads, so it is aligned exactly if it splits no escape |
| `SplitterState.BoundaryCutsAlign` | utils/text_processing.py:281-289 | a kept boundary cut is aligned without further conditions |
| `SplitterBalance.OpenersRead` | utils/text_processing.py:252-253 | reading the carried openers rebuilds the carried stack, opener by opener |
| `SplitterBalance.ClosersRead` | utils/text_processing.py:248-249 | reading the closers of a stack empties it |
| `SplitterBalance.AssembledChunkIsBalanced` | utils/text_processing.py:311-320 | newlines + openers + body + closers scans from the empty stack back to the empty stack, if in the text the scan of the body ended exactly at its end and took the one stack to the other, and no token crosses a seam |
| `SplitterBalance.ChunkClosesItself` | utils/text_processing.py:210-239 | every chunk cut off by the loop at a safe and aligned cut is balanced by itself, if no token crosses a seam |
| `SplitterBalance.LastChunkIsBalancedIff` | utils/text_processing.py:210-216 | the last chunk gets no closers: its scan ends with exactly the stack the scan of the rest of the text ends with, so it is balanced exactly if that is empty; no token may cross the end of an opener |
| `SplitterLimits.RollbackToStart` | utils/text_processing.py:329-334 | the rollback reaches 0 exactly when the text starts with "[", its nearest ")" is at or past the split and no later "[" comes before the split |
| `SplitterLimits.NoProgressIff` | utils/text_processing.py:218-229 | for every limit, a turn consumes nothing exactly when the limit is 0 and there is no boundary, or the split is safe and a leading link lies across it, or a leading token lies across it and no later one does |
| `SplitterLimits.OnlyLinksBlock` | utils/text_processing.py:218-229 | from limit 3 on only the leading link is left: no token is longer than the limit |
| `SplitterLimits.WithoutLinksItReturns` | utils/text_processing.py:207-243 | a text without "[" or without ")" is split under every positive limit no token of the text exceeds, hence under every limit from 3 on |
| `SplitterLimits.StuckStays` | utils/text_processing.py:240-243 | a turn without progress is followed only by turns without progress |
| `SplitterLimits.NeverReturnsIff` | utils/text_processing.py:207-243 | the run fails to return exactly when, after some number of turns that each cut something off, it comes to a turn blocked by the guards above |
| `SplitterLimits.NeverReturnsIsEndless` | utils/text_processing.py:207-243 | and then, and only then, the loop is still cutting after every number of turns |
| `SplitterRuns.SplitReturnsIff` | utils/text_processing.py:183-245 | a call returns exactly if the text fits, or the mode is unknown and the limit positive or the text blank, or no turn of the loop is ever blocked |
| `SplitterLengths.LongLinkNeverReturns` | utils/text_processing.py:329-333 | a whole family of texts on which the call never returns: a link text without blanks at least as long as the limit |
| `SplitterLengths.BoundaryChunkLength` | utils/text_processing.py:218-239 | a chunk cut at a boundary is at most the limit minus 50 plus its closers, hence within the limit if the closers take at most 50 |
| `SplitterLengths.AnyChunkLength` | utils/text_processing.py:218-239 | with a non-negative search bound any chunk exceeds the limit by no more than its own openers and closers |
| `SplitterLengths.HardChunkFitsIff` | utils/text_processing.py:290 | a hard cut that is not rolled back meets the limit exactly when no delimiter is open on either side of it (or the two characters set aside for a quotation alone made it a cut) |
| `SplitterLengths.LastChunkFits` | utils/text_processing.py:208-216 | the last chunk is within the limit |
| `SplitterLengths.LastIff` | utils/text_processing.py:208-216 | the rest is the last chunk exactly if that chunk, with two characters more in a quotation, is within the limit |
| `SplitterLengths.SearchBoundIs` | utils/text_processing.py:218 | the search bound is the limit less the carried openers, two characters in a quotation, and 50 |
| `SplitterLengths.RunChunksWithin` | utils/text_processing.py:207-243 | over a whole run, if no turn carries more than c and c and the buffer fit into the limit, every chunk is at most the limit plus one c on each side |
| `SplitterLengths.MergeKeepsTheText` | utils/text_processing.py:263-274 | merging keeps the concatenation of the chunks |
| `SplitterLengths.MergeKeepsTheBound` | utils/text_processing.py:268-270 | merging makes no chunk longer than a bound the chunks and the limit already met |
| `SplitterLengths.MessagesCarryTheText` | utils/text_processing.py:183-245 | the messages sent for a text join to the joined chunks, whose raw parts are the text |
| `SplitterRuns.CarryWithinDelimiters` | utils/text_processing.py:219-242 | wherever the loop cuts, no turn carries more than the total length of the delimiters that start in the text |
| `SplitterRuns.MessagesWithin` | utils/text_processing.py:183-245 | if the delimiters of the text, a quotation mark and the buffer fit into the limit, no message is longer than the limit plus those delimiters on each side |
| `SplitterRuns.MessagesFit` | utils/text_processing.py:183-245 | if the text has at most 50 characters of delimiters, and a blank in every stretch as long as the limit leaves after these, a quotation mark and the buffer, no message is longer than the limit |
| `SplitterRuns.NegativeBoundaryIff` | utils/text_processing.py:278-289 | a negative search bound cuts at the best cut of the text less that many characters at its end |
| `SplitterRuns.TinyLimitChunkFitsIff` | utils/text_processing.py:218-239 | with a negative search bound a chunk stays within the limit and its own openers and closers exactly if that best cut lies within the limit, or a link that lies across it starts within the limit |
| `SplitterLengths.TinyLimitBoundsNothing` | utils/text_processing.py:218-219 | below the buffer size the limit bounds nothing: the search bound turns negative and the first chunk is as long as the first part of the text |
| `SplitterLengths.HardCutSplitsEscape` | utils/text_processing.py:290 | a family of texts on which a hard cut separates a backslash from the character it escapes; `CutsAlignIff` says when |
| `SplitterLengths.HardCutSplitsToken` | utils/text_processing.py:323-328 | a family of texts on which a hard cut is rolled back into a token: of three bars around the limit the cut keeps the first, and the scan reads the first two as one token |
| `SplitterLengths.PlainReturnsIff` | utils/text_processing.py:343-350 | the plain fallback returns exactly when the limit is positive or there is only whitespace |
| `SplitterLengths.PlainChunksFit` | utils/text_processing.py:343-350 | every chunk of the plain fallback is within the limit |
| `SplitterLengths.PlainLosesOnlySpace` | utils/text_processing.py:343-350 | the chunks appear in the text in order with nothing but whitespace between and after them |
| `SlidingWindow.Prune` | utils/telegram/rate_limiter.py:40-41 | pruning leaves a tail of the deque, drops only entries older than a period and stops at the first that is not |
| `SlidingWindow.ReserveKeepsSpacing` | utils/telegram/rate_limiter.py:50-65 | a reservation that respects the remembered entry `rate` places back respects it in the whole history: a forgotten one is too old to matter |
| `SlidingWindow.SameResidueIsLater` | utils/telegram/rate_limiter.py:52-53 | of two reservations whose numbers agree modulo the rate the later one is at least a period after the earlier |
| `SlidingWindow.WindowBound` | utils/telegram/rate_limiter.py:10 | in a spaced history no half-open window of one period holds more than `rate` reservations, although the times are not sorted |
| `TelegramRateLimiter.SlidingWindowRateLimiter.WaitAndBlock` | utils/telegram/rate_limiter.py:35-69 | one reservation, never before the clock or the freeze, is appended to the history of all chats and of the group at the slot specified on whole histories; all spacing is kept |
| `TelegramRateLimiter.ForgettingMattersIff` | utils/telegram/rate_limiter.py:36-65 | that slot is the one of a limiter that never prunes, and earlier exactly when, for a private chat, all reservations are older than the period but the last is less than a second before the later of the clock and the freeze |
| `TelegramRateLimiter.LongPeriodsForgetInTime` | utils/telegram/rate_limiter.py:24 | that never happens with an overall period of a second or more, as the default is |
| `TelegramRateLimiter.SlidingWindowRateLimiter.ReserveInGroup` | utils/telegram/rate_limiter.py:43-67 | the slot in a group is raised to the window of the whole group history and the freeze, and recorded in the group |
| `TelegramRateLimiter.SlidingWindowRateLimiter.ReservePrivate` | utils/telegram/rate_limiter.py:58-62 | a private chat waits one second after the last reservation of the whole history, unless none is remembered |
| `TelegramRateLimiter.SlidingWindowRateLimiter.RecordRetryAfter` | utils/telegram/rate_limiter.py:79-80 | the freeze is set to the clock plus the wait plus 0.1, replacing any earlier one |
| `TelegramRateLimiter.SlidingWindowRateLimiter.RunBound` | utils/telegram/rate_limiter.py:35-69 | over any run with a clock that does not go back, every window of a period holds at most the maximum, over all chats and within each group |
| `EdgarRateLimiter.StepKeepsSpacingIff` | utils/edgar_rate_limiter.py:31-47 | on any clock that does not go back, a call keeps the spacing of the whole history exactly if it does not meet a crowded deque, one with more unforgotten entries than the rate |
| `EdgarRateLimiter.CrowdedIff` | utils/edgar_rate_limiter.py:33-47 | on a spaced history that is exactly when the deque holds more than 8 entries, the first reading shows the ninth from the end plus a period, and the second less than the eighth from the end plus a period |
| `EdgarRateLimiter.AdvancingClockIsNeverCrowded` | utils/edgar_rate_limiter.py:33-36 | a clock that has moved past the last stamp never meets a crowded deque |
| `EdgarRateLimiter.WindowBoundIff` | utils/edgar_rate_limiter.py:28-47 | of a sorted history no window of a second holds more than 8 requests exactly if it is spaced |
| `EdgarRateLimiter.EdgarLimiter.Wait` | utils/edgar_rate_limiter.py:28-47 | a call, on any clock that does not go back, appends its second clock reading and leaves exactly the specified deque; it is recorded whether it met a crowded deque |
| `EdgarRateLimiter.EdgarLimiter.RunBoundIff` | utils/edgar_rate_limiter.py:28-47 | over any run, no window of one second holds more than 8 requests exactly if no call met a crowded deque |
| `EdgarRateLimiter.RepeatedClockBreaksTheBound` | utils/edgar_rate_limiter.py:36-47 | with a clock that stands still the bound fails by any amount: n more requests at one instant |
| `WriteQueue.Writer.AttemptTableRepair` | database/writer.py:102-122 | a repair works exactly if there is a script and each of its statements passes; it leaves at most one residue of the script in the database and commits no task |
| `WriteQueue.Writer.TryOnce` | database/writer.py:237-245 | one attempt passes exactly if the statement and then the commit do; it either commits the statement, bumps the generation and resolves the receipt, or reports the failure and leaves no trace |
| `WriteQueue.Writer.ProcessSingle` | database/writer.py:236-291 | a single statement is committed exactly if its first attempt passes, or fails for want of a table that is then repaired, and the second passes; otherwise it is rejected, with at most two repairs left behind |
| `WriteQueue.Writer.RunStatements` | database/writer.py:198-201 | a transaction passes exactly if each of its statements and then the commit do; otherwise the first failure is reported with nothing committed |
| `WriteQueue.Writer.ProcessTransaction` | database/writer.py:193-231 | a transaction is committed exactly if one of its first three attempts passes and all before it failed with a recoverable vector-table error; otherwise it leaves no trace and is rejected |
| `WriteQueue.Writer.ProcessScript` | database/writer.py:183-191 | a script succeeds exactly if all its statements pass and is then one commit; a failed one leaves a beginning of itself behind and commits nothing |
| `WriteQueue.Writer.ProcessTask` | database/writer.py:180-327 | one turn of the worker: the task succeeds exactly if the engine lets it, as above; commit and receipt agree, what is left behind is as its kind allows, and the task is marked done once, also through a reconnect |
| `WriteQueue.Writer.Drain` | database/writer.py:157-327 | over any queue each task succeeds exactly if the engine answers its calls so, in queue order; the log grows task by task by what the task may leave behind and its commit; the committed tasks are the successful ones in order, the generation counts them, every task is done once and every receipt is resolved or rejected and never both |
| `WriteQueue.EveryThirdReconnects` | database/writer.py:293-317 | over tasks none of which succeeds, the connection is replaced at every third transaction or script that fails; failed single statements do not count |
| `WriteOutcomes.AllSucceedWithoutFailures` | database/writer.py:157-327 | if no engine call fails, every task of the queue succeeds |
| `WriteOutcomes.TransactionEnds` | database/writer.py:216-231 | a transaction ends with its first attempt that passes, fails otherwise than recoverably, or is the third, and passes exactly if that one does |
| `WriteQueue.TransactionsLeaveTheirCommits` | database/writer.py:193-231 | a queue of transactions adds exactly the commits of those that succeeded, in order |
| `WriteQueue.ReplayAppend` | database/writer.py:237-245 | replaying one more log entry applies its statements to the database replayed so far |
| `ReadYourWrites.RunKeepsInv` | database/connection.py:117-147 | in every interleaving, at every moment, every reader's connection contains all commits up to the generation recorded for it |
| `ReadYourWrites.ResolvedIff` | database/writer.py:239-243 | in every run, at every moment, the resolved receipts are exactly those of the writes made, without the last while the writer is not done with it |
| `ReadYourWrites.ResolveAnswers` | database/writer.py:241-242 | the resolve step answers the last commit |
| `ReadYourWrites.CallReusesOrOpens` | database/connection.py:117-147 | a call hands out the connection the thread has if that was stamped with the current generation, and otherwise one opened during the call, which shows every commit made until then |
| `ReadYourWrites.GenerationIsKept` | database/connection.py:117-146 | a thread keeps the generation it read until it stamps it |
| `ReadYourWrites.ReadYourWrite` | database/connection.py:117-147 | a thread that asks for a connection after the receipt of a write was resolved gets one that contains the write, whatever the writer and all other threads do meanwhile |
| `ReadYourWrites.BeforeTheBumpIsTooEarly` | database/writer.py:239-243 | a run in which a reader asks again while a write is durable but not yet bumped and is handed its old connection, so resolving before the bump would break the guarantee |
| `ArticleIndex.PostingsTake` | database/schemas/vector.py:33-37 | the index image of the table is that of any one article plus that of the others |
| `ArticleIndex.UpdateKeepsFts` | database/schemas/vector.py:54-59 | an update with its two index triggers keeps the full-text index exact |
| `ArticleIndex.UpsertKeepsFts` | database/articles/store.py:154-167 | so does an upsert, whether it inserts or updates the row of the same url |
| `ArticleIndex.DeleteKeepsFts` | database/schemas/vector.py:49-53 | so does a delete |
| `ArticleIndex.ExecKeepsFts` | database/schemas/vector.py:44-64 | so does every statement that succeeds |
| `ArticleIndex.TransactionKeepsFts` | database/schemas/vector.py:44-64 | any committed transaction leaves the full-text index exactly the image of the article table, with no condition on rowids |
| `ArticleDatabase.Database.AfterInsert` | database/schemas/vector.py:45-48 | the insert trigger adds the posting of the new row |
| `ArticleDatabase.Database.AfterDelete` | database/schemas/vector.py:49-53 | the delete trigger removes the posting and the vector of the old row |
| `ArticleDatabase.Database.AfterUpdate` | database/schemas/vector.py:54-63 | the update triggers replace the posting and remove the vector if the rowid changed or the new status is PENDING |
| `ArticleDatabase.Database.InsertOrUpdate` | database/articles/store.py:154-167 | insert or update on the tables in place is the specified statement; a failed one changes nothing |
| `ArticleDatabase.Database.Execute` | database/articles/store.py:143-193 | every statement executed in place equals its specification |
| `ArticleDatabase.Database.Transact` | database/writer.py:197-213 | a transaction in place is all statements or none |
| `ArticleStore.EnsureUniqueVecRowid` | database/articles/store.py:18-47 | the rowid returned is that of the article itself or of none, so it belongs to no other article if rowids are unique; a free one is kept; it raises only if the wanted one and nine random ones are taken |
| `ArticleStore.BuildUpsertStatements` | database/articles/store.py:143-193 | the appended list is the specified one |
| `ArticleStore.UpsertWrites` | database/articles/store.py:154-191 | what a committed upsert with any arguments makes of articles, vectors and backups: row of the url or the id written, stale vector removed, vector and backup stored if bytes came for an EMBEDDED row, hash set |
| `ArticleStore.UpsertRows` | database/articles/store.py:154-191 | field by field: the target row has the text, metadata, status, rowid and date of the upsert, and its hash if it is that of the id, but keeps when it was first scraped; the row of the id is at most marked as embedded and hashed, and all others stay |
| `ArticleStore.UpsertEffect` | database/articles/store.py:154-191 | on a database with the invariant and to a rowid no other article has, exactly the vectors its status and bytes call for change, and the hash statement removes none |
| `ArticleStore.UpsertCommitsIff` | database/articles/store.py:154-191 | an upsert commits exactly when it has a rowid, its id is new if its url is, and known if its url is known and a vector is stored |
| `ArticleStore.UpsertKeepsInvIff` | database/articles/store.py:143-193 | a committed upsert keeps the whole invariant (unique urls and rowids, exact index, every vector of an article, PENDING without and EMBEDDED with its vector, backups of articles) exactly if the rowid is not taken by another than the target, an EMBEDDED row without bytes is an existing one that keeps its rowid and has a vector, and a vector stored for another than the id finds one at the id already |
| `ArticleStore.DeleteKeepsInv` | database/articles/store.py:197-200 | a delete commits, removes the article and keeps the invariant |
| `ArticleStore.DeleteEffect` | database/schemas/vector.py:49-53 | a delete takes away the article, its vector and its backups, and nothing else |
| `ArticleStore.VectorUpsertCommitsIff` | database/articles/store.py:184-191 | an upsert that stores a vector commits exactly when url and id are both known or both new, so a known url under a new id never does |
| `ArticleStore.MisdirectedUpsertBreaksInv` | database/articles/store.py:154-191 | with any hash, an upsert whose url belongs to one article and whose id to another, pending one commits and breaks the invariant |
| `ArticleStore.EmbeddedWithoutBytesBreaksInv` | database/articles/store.py:154-191 | so does one that adds an article as EMBEDDED without bytes |
| `ArticleStore.AlwaysInvIff` | database/articles/store.py:143-200 | over any sequence of upserts and deletes, committed or failed, the invariant holds all the time exactly if every upsert that committed met that condition |
| `ArticleStore.RunKeepsLatest` | database/articles/store.py:143-200 | over such a sequence, every article that has a vector has the bytes last stored for it |
| `ArticleStore.EmbeddedHaveTheirLatestVector` | database/articles/store.py:143-200 | and every EMBEDDED article has one |
| `Migration.Coordinator.RenameTable` | database/management/migration_coordinator.py:80-81 | a rename works exactly when the table exists and the name is free, and moves the table unchanged |
| `Migration.BuildSources` | database/management/migration_coordinator.py:95-110 | the loop builds the specified insert and select lists |
| `Migration.SourcesIff` | database/management/migration_coordinator.py:97-110 | a column is copied exactly if old and new table have it and it is not skipped, and filled exactly if it is skipped and NOT NULL, with its default or the zero of its affinity |
| `Migration.NewRowFollowsTheLists` | database/management/migration_coordinator.py:115-118 | each row of the new table holds what INSERT with these lists gives it, column by column |
| `Migration.RowsAllowedIff` | database/management/migration_coordinator.py:115-118 | the copy meets the NOT NULL constraints exactly if no copied column of that kind holds NULL and each that is not copied is skipped or has a default |
| `Migration.Coordinator.RepopulateFromClone` | database/management/migration_coordinator.py:86-119 | on success the new table holds the specified rows, on failure nothing has changed |
| `Migration.Coordinator.AutofillSkippedColumns` | database/management/migration_coordinator.py:121-130 | the registered fillers of the skipped columns run one after the other, and change no table but this one and no other column |
| `Migration.Coordinator.RollbackFromClone` | database/management/migration_coordinator.py:143-150 | the two statements of the rollback, either of which may fail, have the specified effect |
| `Migration.Coordinator.MigrateOperational` | database/management/migration_coordinator.py:44-78 | SUCCESS exactly if the clone, create, copy and commit steps get through, and then the table is migrated; once the clone exists the original table stays under its own name or that of the clone, whatever fails; otherwise ROLLED_BACK, which after the clone restores the tables if its own statements work, and before it has the effect of the two rollback statements; all other tables are untouched; never FAILED |
| `Migration.Coordinator.Execute` | database/management/migration_coordinator.py:21-42 | every plan is carried out on what the one before it left, and its status and its tables are related as above, with the fillers run on success; none ends as FAILED, so none is skipped; tables that are neither named nor clones are untouched |
| `Migration.MigrationSucceeded` | database/management/migration_coordinator.py:86-119 | equal row count and row-by-row equality on the shared columns that are not skipped |
| `Migration.RollbackRestores` | database/management/migration_coordinator.py:143-150 | once the clone exists, dropping the table and renaming the clone back restores the database |
| `Migration.FailedCloneKeepsTableIff` | database/management/migration_coordinator.py:71-76 | if the clone step itself failed, a rollback whose statements work keeps the table exactly when the clone name held an identical table or neither existed |
| `Migration.RowCountKeptIff` | database/management/migration_coordinator.py:112-113 | a success keeps the number of rows exactly when there was something to copy or nothing to lose |
| `Migration.NothingToCopyIff` | database/management/migration_coordinator.py:95-113 | the insert list is empty exactly when each new column is unknown to the old table or skipped, and no skipped one is NOT NULL |
| `Migration.SkippedColumnsGetDefaults` | database/management/migration_coordinator.py:102-110 | before fillers run a skipped NOT NULL column holds its default in every row |
| `Schema.Find` | database/management/schema_introspector.py:109-117 | the column of a name is in the list, and the only one of that name if names are distinct |
| `Schema.AffinityIff` | database/management/schema_introspector.py:36-47 | the affinity of a declared type is that of the first rule it mentions, in any case |
| `Schema.UpperIs` | database/management/schema_introspector.py:38 | the upper-case form changes each lower-case letter and nothing else |
| `TableAlterations.AddAllEffect` | database/management/reconciler.py:291-317 | adding the missing columns keeps all columns and cells, adds each as ADD COLUMN creates it, and adds exactly those that do not fail |
| `TableAlterations.WithoutEffect` | database/management/reconciler.py:349-351 | dropping removes exactly the named columns |
| `TableAlterations.MissingEffect` | database/management/reconciler.py:173-176 | the missing columns are exactly the declared ones whose name the table lacks |
| `TableAlterations.AddedShapeIff` | database/management/reconciler.py:294-308 | what ADD COLUMN creates has the declared shape exactly if the column is no key column and has a declared type |
| `TableAlterations.NoDriftIff` | database/management/reconciler.py:180-188 | nothing drifts exactly when all common columns agree in affinity, NOT NULL and key position |
| `TableAlterations.AlteredEffect` | database/management/reconciler.py:206-244 | the columns and cells of a table after its ALTERs; no cell of a declared column is touched |
| `TableAlterations.NewColumnsAreFilled` | database/management/reconciler.py:294-308 | every declared column that was missing and could be added is there, with its declared type, and in every row its declared default, or the zero of its affinity if it is NOT NULL, or NULL |
| `TableAlterations.AlteredMatchesIff` | database/management/reconciler.py:206-244 | a table without drift meets its declaration afterwards exactly when every ALTER it needs works and no missing column is a key column or typeless |
| `Reconciler.SchemaReconciler.PruneUnexpected` | database/management/reconciler.py:105-142 | exactly the tables that are neither expected nor spared by a prefix are dropped and reported |
| `Reconciler.KeptIff` | database/management/reconciler.py:116-138 | a table is spared exactly if it is expected, or begins with an expected name and an underscore or with one of four prefixes |
| `Reconciler.SchemaReconciler.AddMissingColumns` | database/management/reconciler.py:291-317 | the loop has the specified effect, reports exactly the columns added and tells whether there was one |
| `Reconciler.SchemaReconciler.DropExtraColumns` | database/management/reconciler.py:327-363 | in any order, exactly the columns whose DROP works are dropped and reported; it raises exactly if a failed one has a usable backup |
| `Reconciler.SchemaReconciler.AlterTable` | database/management/reconciler.py:206-244 | the last part of the review: both loops, and `unchanged` only if neither altered anything |
| `Reconciler.SchemaReconciler.ValidateOne` | database/management/reconciler.py:157-244 | the review of one table has the specified effect and report, or raises with the table untouched or half altered; no other table changes |
| `Reconciler.SchemaReconciler.ValidateStructures` | database/management/reconciler.py:151-246 | the tables before the first one that raises are reviewed, the rest is as before |
| `Reconciler.SchemaReconciler.Reconcile` | database/management/reconciler.py:61-103 | a pass ends normally exactly when no expected table raises, and then has the specified result and report |
| `Reconciler.ReviewStep` | database/management/reconciler.py:154-157 | reviewing one more table touches that table only |
| `ReconcilerLaws.ColumnsMatchIff` | database/management/schema_introspector.py:106-125 | schema_matches compares equal exactly when nothing drifts and the column names agree |
| `ReconcilerLaws.UnchangedIff` | database/management/reconciler.py:194-244 | an existing ordinary table is reported unchanged exactly when nothing drifts and no ALTER it needs works |
| `ReconcilerLaws.UnchangedExactlyWhenSchemaMatches` | database/management/schema_introspector.py:85-125 | if no ALTER fails that is exactly when schema_matches holds |
| `ReconcilerLaws.UnparsedDeclarationDropsColumns` | database/management/schema_introspector.py:103-104 | for a declaration that does not parse schema_matches holds, yet the reconciler drops every column it can |
| `ReconcilerLaws.SettlesIff` | database/management/reconciler.py:157-244 | after its review a table matches its declaration exactly when it was missing or virtual, or did not drift, its ALTERs work and its missing columns can be created as declared |
| `ReconcilerLaws.PassSettlesIff` | database/management/reconciler.py:61-103 | a pass brings all expected tables to their declarations exactly when each of them settles |
| `ReconcilerLaws.SecondPassIsQuiet` | database/management/reconciler.py:61-103 | once all expected tables match, a further pass prunes nothing, alters nothing and reports every expected table as unchanged and nothing else |
| `ReconcilerLaws.PassKeepsCells` | database/management/reconciler.py:206-244 | a pass that ends loses no cell of a declared column |
| `ReconcilerLaws.PassFillsNewColumns` | database/management/reconciler.py:291-317 | and it fills every declared column it could add with its default |
| `ReconcilerLaws.PassCreatesMissingTables` | database/management/reconciler.py:157-172 | a pass that ends has created each expected table that was missing as declared, without rows |
| `ReconcilerLaws.StoppedPassKeepsCells` | database/management/reconciler.py:353-362 | neither does one that raises halfway |
| `DomTraversal.SplicedIsFull` | utils/javascript/frame_mark_elements.js:40-50 | splicing shadow content into document order gives the recursive order: element, shadow tree, children |
| `DomTraversal.CollectElements` | utils/javascript/frame_mark_elements.js:40-50 | the loop that splices while walking ends with exactly that order |
| `DomTraversal.FullOrderParentsFirst` | utils/javascript/frame_mark_elements.js:40-50 | in that order every element comes after its parent |
| `ElementMarking.CollectedParents` | utils/javascript/frame_mark_elements.js:102-121 | on a collected page the parent of an element is found among the earlier ones |
| `ElementMarking.Marker.InjectBid` | utils/javascript/frame_mark_elements.js:77-88 | the identifier is kept if it is new and generated otherwise |
| `ElementMarking.Marker.ClearAncestors` | utils/javascript/frame_mark_elements.js:115-121 | the walk up the parents unmarks exactly the ancestors |
| `ElementMarking.Marker.MarkElement` | utils/javascript/frame_mark_elements.js:58-125 | one turn of the loop equals its specification |
| `ElementMarking.Marker.MarkElements` | utils/javascript/frame_mark_elements.js:52-126 | the loop over all elements is the specified run |
| `ElementMarkingLaws.FinalMarksAreInnermost` | utils/javascript/frame_mark_elements.js:97-124 | on a page without marks the marked elements at the end are exactly those picked at their turn that contain no other picked one |
| `ElementMarkingLaws.FinalMarksAreAnAntichain` | utils/javascript/frame_mark_elements.js:114-121 | no marked element is inside another one |
| `ElementMarkingLaws.RecordedButtonsStayMarked` | utils/javascript/frame_mark_elements.js:101-113 | a recorded button is marked at the end and nothing inside it was ever picked |
| `ElementMarkingLaws.PicksIff` | utils/javascript/frame_mark_elements.js:91-113 | an element is picked exactly if it is clickable or of an interactive kind, not too small, in no recorded button, and not all that a marked span with a role contains |
| `ElementMarkingLaws.MarkedIff` | utils/javascript/frame_mark_elements.js:58-66 | an element is numbered exactly if it is visible and, on a page of standard HTML, has an HTML tag |
| `ElementMarkingLaws.ReportedCountIsExactIff` | utils/javascript/frame_mark_elements.js:114-130 | the reported count is at least that of the marks left, and equal exactly when no picked element is inside another |
| `ElementMarkingLaws.FreshPageIsNumbered` | utils/javascript/frame_mark_elements.js:77-89 | on a page without identifiers the marked elements are bid_0, bid_1, ... in visiting order and the count is their number |
| `ElementMarkingLaws.FreshPageHasDistinctBids` | utils/javascript/frame_mark_elements.js:77-89 | no two of them share an identifier |
| `ElementMarkingLaws.SharedBidIff` | utils/javascript/frame_mark_elements.js:77-88 | on any page two elements end with the same identifier exactly when the earlier one comes with an identifier that is not taken and is the one the later one is given anew, both told from the identifiers the page comes with |
| `ElementMarkingLaws.DistinctBidsIff` | utils/javascript/frame_mark_elements.js:77-88 | all identifiers end up distinct exactly when no element keeps one whose number is below the count of elements given new ones |
| `ElementMarkingLaws.ForeignBidsStayDistinct` | utils/javascript/frame_mark_elements.js:77-88 | if no identifier looks like a generated one all are distinct |
| `ElementMarkingLaws.RemarkingCanRepeatABid` | utils/javascript/frame_mark_elements.js:77-88 | a two-element page on which both end up as bid_0 |
| `Delivery.StopAt` | utils/telegram/publisher.py:86-112 | a run stops past the last message or at the first that does not get through, and all before it got through |
| `Delivery.TakesIff` | utils/telegram/publisher.py:35-43 | the briefing takes up the translated Top 10 that no phase has published, the archive every translated article that it has not published itself |
| `Delivery.ChannelPublisher.SendMessage` | utils/telegram/publisher.py:104-112 | a message is tried once; a delivered one is appended to the chat and, in a job, recorded |
| `Delivery.ChannelPublisher.SendChunks` | utils/telegram/publisher.py:100-112 | the chunk loop delivers exactly the messages up to the stop, and tries these and the one at the stop once each |
| `Delivery.ChannelPublisher.SendArticle` | utils/telegram/publisher.py:84-112 | so do the link, unless it is recorded, and the chunks, which are left alone if it fails |
| `Delivery.ChannelPublisher.Publish` | utils/telegram/publisher.py:53-123 | one article: the messages from the record to the stop are delivered in order, none is tried twice, the record is the stop, COMPLETED and the status of the phase exactly if that is the end, a transient failure raises; other articles are untouched |
| `Delivery.ChannelPublisher.PublishPhase` | utils/telegram/publisher.py:35-125 | over any articles and any number of runs each chat holds exactly its first `chunks_sent` messages, all of them once COMPLETED; articles taken up are recorded to their stop and get the status of the phase or of a failure, the others as before; it raises exactly at the first article whose stop is a transient failure; without a job each article taken up is sent from the start |
| `DeliveryCrashes.EachArrivesOncePlusItsLosses` | utils/telegram/publisher.py:101-112 | whatever crashes happen, no message overtakes another, and each sent one has arrived once, plus once per restart that had forgotten it |
| `DeliveryCrashes.CompletedMeansAll` | utils/telegram/publisher.py:114-116 | a count at the total means that every message has arrived |
| `DeliveryCrashes.PromptRecordsRepeatOnePerRestart` | utils/telegram/publisher.py:101-112 | if whenever a message goes out all before it are recorded, each restart repeats at most one message |
| `DeliveryCrashes.PromptRunIsExact` | utils/telegram/publisher.py:101-112 | a run that records each message before the next delivers and records all of them, and a restart after it forgets nothing |
| `DeliveryCrashes.LateRecordsForgetMany` | utils/telegram/publisher.py:101-112 | otherwise a single restart can forget any number of messages that have gone out |
| `DeliveryCrashes.NothingForgottenMeansExact` | utils/telegram/publisher.py:101-112 | the chat is exactly the first messages in order exactly when no restart forgot one |
| `JobLifecycle.WorkerManager.PollRow` | bot/engine/worker.py:227-282 | a waiting job is started, a due pending callback retried, anything else left alone |
| `JobLifecycle.WorkerManager.EndExecution` | bot/engine/worker.py:368-409 | status, retry count and error count after a result, a pause or an exception |
| `JobLifecycle.WorkerManager.EndCallback` | bot/engine/worker.py:286-313 | status and retry count after a callback retry |
| `JobLifecycle.WorkerManager.ResumeJob` | api/routes.py:150-192 | a resume queues the job unless it is paused, not resumable or out of attempts; out of attempts it fails the job |
| `JobLifecycle.RunKeepsExecutionInv` | bot/engine/worker.py:202-409 | in every run, with executions, retries and resumes overlapping, starts, crashes and waiting states balance |
| `JobLifecycle.ExecutionsAreBounded` | bot/engine/worker.py:401-409 | in every such run a job is executed at most 3 times for its creation and 3 times for each resume |
| `JobLifecycle.ExecutionBoundIsReached` | bot/engine/worker.py:401-409 | the bound is reached for every number of resumes |
| `JobLifecycle.RunKeepsCallbackInv` | bot/engine/worker.py:286-313 | callback rounds made and left stay within three per finished execution if retries do not overlap |
| `JobLifecycle.RunKeepsBudget` | bot/engine/worker.py:286-313 | if retries do not overlap, the callback rounds made and left do not grow between two finished executions |
| `JobLifecycle.CallbackRoundsAreBounded` | bot/engine/worker.py:286-313 | so from where an execution finishes to the next finish there are at most three callback rounds |
| `JobLifecycle.CallbackRoundsInTotal` | bot/engine/worker.py:286-313 | and at most three for each finished execution in total |
| `JobLifecycle.DuePollKeepsBudgetIff` | bot/engine/worker.py:233-248 | a due poll of a pending callback keeps every later course without overlap within the rounds left exactly if no retry is under way |
| `JobLifecycle.OverlappingRetriesAreUnbounded` | bot/engine/worker.py:233-248 | if a poll sees the job while a retry is under way, any number of rounds can happen for one execution |
| `JobLifecycle.StepsLeftDecreases` | bot/engine/worker.py:202-409 | everything the manager does decreases a measure that only a resume can raise |
| `JobLifecycle.WorkIsBounded` | bot/engine/worker.py:202-409 | without a resume the manager does at most as many steps as the measure says |
| `JobLifecycle.WorksIff` | bot/engine/worker.py:227-282 | the manager works at an event of its own exactly if that changes the job |
| `JobLifecycle.RestComesInTime` | bot/engine/worker.py:202-409 | so a run in which it works at every event has at most as many events as the measure says |
| `Ulids.Generator.Encode128Bit` | utils/id_generator.py:32-37 | the shifting loop writes the last 26 base-32 digits, most significant first |
| `Ulids.RoundTrip` | utils/id_generator.py:32-37 | decoding undoes encoding for every value that fits |
| `Ulids.EncodingIs` | utils/id_generator.py:8 | the 32 digits are the decimal ones and the capital letters but I, L, O and U |
| `Ulids.EncodeOrderIff` | utils/id_generator.py:32-37 | encoded strings compare exactly as the numbers, and are equal exactly for equal numbers |
| `Ulids.HighDigitsAreCutOff` | utils/id_generator.py:32-37 | values that differ by the capacity encode alike |
| `Ulids.Generator.Generate` | utils/id_generator.py:14-29 | for any clock, also one going back, the value issued is greater than all before it: the random part counts up, and on overflow the call waits for a later time |
| `Ulids.Generator.WaitPast` | utils/id_generator.py:23-26 | the waiting loop ends on the first reading of the clock past the last timestamp |
| `Ulids.ValueGrows` | utils/id_generator.py:28 | a later timestamp outweighs any random part, and all values fit into 26 digits |
| `Ulids.IssuedStringsGrow` | utils/id_generator.py:14-29 | every identifier of a run is greater, as a string, than all issued before it |
| `Ulids.IdentifierDeterminesParts` | utils/id_generator.py:28-37 | timestamp and random part can be read off the identifier |
| `FiscalQuarters.FiscalQuarterIsFloor` | tools/stock_notes/fiscal.py:94-101 | 4(fy-1)+(q-1) is the number of months since year 0 less the closing month, divided by three and rounded down |
| `FiscalQuarters.FiscalQuarterIsMonotone` | tools/stock_notes/fiscal.py:94-101 | a later month is never in an earlier quarter, and three months later is the next quarter |
| `FiscalQuarters.MonthsOfAQuarter` | tools/stock_notes/fiscal.py:94-101 | a month belongs to a quarter exactly if it is one of its three months |
| `FiscalQuarters.ParseQuarterDate` | tools/stock_notes/fiscal.py:104-113 | a date is accepted only as it is, with a month from 1 to 12 and a year after 1900 |
| `FiscalQuarters.QuarterDateRange` | tools/stock_notes/fiscal.py:116-139 | the list holds exactly the consecutive quarters from start to end, capped; empty for invalid dates; an error for years past 9999 |
| `FiscalQuarters.UncappedRangeCoversEveryMonth` | tools/stock_notes/fiscal.py:116-139 | if the cap is not reached, the quarter of every month between the dates is in the list |
| `CashFlow.DeriveQuarters` | tools/stock_financials/extractor.py:192-207 | the loops derive exactly the quarters whose two year-to-date values are there |
| `CashFlow.DerivedIff` | tools/stock_financials/extractor.py:192-207 | a first quarter is derived with its value, a later one with the difference to the period before, each exactly if the values it needs are there |
| `CashFlow.SameLabelIff` | tools/stock_financials/extractor.py:48-57 | dated quarters share a label exactly if they are the same quarter of the same year, where a fourth quarter ending by March counts for the year before |
| `CashFlow.QuartersTelescope` | tools/stock_financials/extractor.py:198-207 | an unbroken run of quarters adds up to the difference of the year-to-date values at its ends |
| `CashFlow.QuartersAddUpToTheYear` | tools/stock_financials/extractor.py:204-207 | if all four values are there, the four quarters add up to the year |
| `CashFlow.DropDuplicates` | tools/stock_financials/extractor.py:210 | dropping duplicates keeps the first record of each concept and label |
| `CashFlow.SameFactIff` | tools/stock_financials/extractor.py:210 | two records count as duplicates exactly if concept and label agree |
| `CashFlow.KeptAreDistinct` | tools/stock_financials/extractor.py:210 | no two kept records share concept and label |
| `CashFlow.FirstIsKept` | tools/stock_financials/extractor.py:210 | each concept and label of the list is kept, by the first of its records |
| `CashFlow.LatestIsKept` | tools/stock_financials/extractor.py:210 | on the sorted list that is the one with the latest fiscal year |
| `CashFlow.LimitKeepsTheLatest` | tools/stock_financials/extractor.py:105-108 | a positive limit keeps at most that many labels with all their records, and drops no label later than one it keeps |
| `CashFlow.NoLimitKeepsAll` | tools/stock_financials/extractor.py:105-106 | without a positive limit everything is kept |
| `DraftEditor.ApplyKeeps` | tools/draft_editor/tool.py:69-86 | every operation, valid or not, keeps the length of the Top 10, the set of all articles, and no article twice or on both sides |
| `DraftEditor.RunOperations` | tools/draft_editor/tool.py:69-86 | so does the loop over any operations, which equals their fold |
| `DraftEditor.ApplyCanBeUndone` | tools/draft_editor/tool.py:78-86 | each operation can be undone by one more |
| `DraftEditor.BuildStatements` | tools/draft_editor/tool.py:88-102 | the two loops emit one ranked update for each Top 10 entry in order and one clearing update for each other article |
| `DraftEditor.SaveAllSets` | tools/draft_editor/tool.py:92-105 | updates of distinct articles set each to its row and no other |
| `DraftEditor.SavedDraft` | tools/draft_editor/tool.py:92-105 | after saving, the Top 10 has ranks 0 to n-1 in its order, every other article is cleared and rows outside the batch are untouched |
| `TidyNotes.TransformToTidy` | tools/stock_notes/tidy_transform.py:47-72 | exactly rows times period columns records, each at its place with the text of its cell |
| `TidyNotes.RecordIs` | tools/stock_notes/tidy_transform.py:51-70 | a record holds the concept of its row, its period, the place of the row and the text of the cell, and is named by its six coordinates joined by bars |
| `TidyNotes.EveryRecordIsACell` | tools/stock_notes/tidy_transform.py:47-58 | every record is that of one cell |
| `TidyNotes.DetailIdIsAKey` | tools/stock_notes/tidy_transform.py:67-72 | two cells have the same detail_id exactly if they are the same cell of the same table, even if concepts or periods contain the separator |
| `TidyNotes.SeparatorInAccessionCollides` | tools/stock_notes/tidy_transform.py:67-72 | with the separator in an accession number, cells of different tables can have the same detail_id |

## Left out

- MessagesWithin: bounds each message by the limit plus the delimiters of the text on each side and not by the limit alone, because a hard cut ignores the carry; `MessagesFit`, `HardChunkFitsIff` and `BoundaryChunkLength` say when the limit itself is met.
- RunChunksWithin: takes the carry of the run as given; `CarryWithinDelimiters` bounds it by the text.
- SafeCutIsAlignedIff: covers positions that no token straddles; `AlignedIff` covers all.
- SafeCutsAlignIff: likewise, with `CutsAlignIff` for all cuts.
- ChunkClosesItself: assumes that no token crosses a seam between openers, body and closers (for example a carried `_` glued to a `_` of the body, which MarkdownV2 reads as one token, or backticks next to each other), because Markdown then reads other tokens there; and a cut that no token straddles.
- LastChunkIsBalancedIff: assumes that no token crosses the end of a carried opener.
- PublishPhase: assumes that the messages of an article are the same in every run; a changed translation between two runs would be continued at the old count.
- CallbackRoundsAreBounded: assumes that the poll loop does not see a job while a callback retry of it is under way; `DuePollKeepsBudgetIff` shows that this is needed.
- SecondPassIsQuiet: covers pruning and the review of tables; triggers, fillers and the probe of vector tables are not modelled.
- DetailIdIsAKey: takes accession numbers without the separator (`SeparatorInAccessionCollides` shows why), and one table for each accession, note and detail number.
- Generate: needs a clock below 2^50 milliseconds, more than the 2^48 of the ULID format, and one that moves on when the random part overflows.
- Negative length limits of the splitter, lone surrogates, and text as anything but a sequence of characters.
- A send that Telegram carries out but reports as failed.
- Floating point: times are reals, and 0.75 of an integer is computed exactly and truncated.
- SQLite itself: statements, commits, rollbacks and triggers are taken to do what they say; conversion of values by column affinity, rewriting of foreign keys and indexes on a rename, and dependent indexes of dropped columns are not modelled.
- In the writer: failing rollbacks, a failing reconnect, DDL inside transactions, a commit that reports a missing table, the commit after a script, at which nothing is pending, checkpoints, and a full queue.
- In the article store: extra statements of the callers, the search for a content hash, and the copies sent to the cloud.
- In the coordinator: the order in which plans are sorted, the in-memory check of the new declaration, and statements outside the migrated tables.
- In the marking script: geometry and style are attributes of an element, and the copying of form values is left out.
- In the worker: the order and the number of rows a poll reads, logging, result payloads, and jobs other than the one looked at.
- In the draft editor: the initial sort of the Top 10, and input validation by the schema.
- Fiscal dates are taken as parsed integers; the search for the closing month of a company is not part of this model.
- The income and balance statements, blueprint enrichment and upserts of `tools/stock_financials/extractor.py`; pandas sorts, the sorted lists being taken as given, and the choice of the longest fact for a period.
- HTTP routes other than resume, the tools, prompts, browser driver, backup and cloud synchronisation, artifacts and logging.
