# Kahya: a verified model of its stateful core

This project models six parts of the Kahya daemon and its tools in Dafny and proves what they promise over every
input and every run:

- **Cost governor** (`Width`, `Pricing`, `Estimate`, `Books`, `Bounds`, `Boot`, `Governor`, `Retry`, `Stream`,
  `Proxy`, `Booted`): the check-and-reserve protocol under one lock, the retry loop around a call, the capture of streamed
  usage, and the replay at boot.
- **Approval cards** (`Text`, `Decimal`, `Diff`, `Chunk`, `Bytes`, `Payload`, `Card`): the line diff, the Telegram
  paginator, the canonical bytes that are approved, and what those bytes tell about a file.
- **Ledger anchor** (`Ledger`, `Spaces`, `AnchorLog`, `Push`, `Pusher`, `Verify`): the digest chain, the pusher whose
  git steps can fail anywhere, the log it writes and the tamper check that reads it back.
- **File writes, deletes and undo** (`Trash`, `Fs`, `FsServer`).
- **Memory rendering and memory files** (`Render`, `MemoryFile`).
- **Nightly snapshots** (`Retention`, `Backup`, `Snapshotter`).

## How it is built

Code that changes state in place is a class (`Governor`, `RetryTransport`, `UsageCapturingBody`, `Pusher`,
`FsServer`, `MemoryServer`, `Snapshotter`) or a method with loops over arrays and sequences. Each such method is tied
to a function on values, and the properties of whole runs are lemmas about those functions. A run is any sequence of
operations, which for code under one lock is any interleaving of concurrent requests. Calls to the outside (git, the
file system, the ledger database, the network) are steps that happen or fail where a parameter says; where the source
can be left with half a file, the failing step leaves arbitrary bytes. Clock readings, decoded JSON, random names and
hash functions are parameters. Nothing is assumed of a hash but the size of its output. Every hash with finitely many
outputs has collisions somewhere, so no theorem is excused by one existing: the exception each names is a clash between
the very byte strings at hand, two things hashed along the two ledgers that are compared, or the bytes an undo restores
and those that were there.

A string is a sequence of characters, one per byte where the source works on bytes (diff, payloads, digests, files)
and one per rune where it works on runes (pagination, rendering, white space). Dollars and scores are real numbers,
token counts are 64-bit integers with wrap-around, instants are UTC calendar instants.

## What turned out not to hold

For each of these the code is modelled as it is, with a lemma for a concrete input or family of inputs and the
condition under which the promise does hold. The condition is exact, an if-and-only-if, unless the entry says otherwise.

- The per-task ceiling: an estimate near the largest 64-bit number wraps to a negative one and makes room for more
  (`Bounds.WrapBreaksCeiling`; `Bounds.GrantUnderCeilingIff` and `Estimate.TokensWithinReserve` are exact for one grant,
  `Bounds.TaskCeilingHolds` and `Booted.SmallTaskCeiling` give sufficient conditions for whole runs).
- The daily budget across midnight (`Bounds.MidnightCarry`; `Bounds.BudgetHolds` has the carry as a term instead of a
  condition).
- The reserved price across a price rise (`Estimate.PriceChangeCostsMore`; `Estimate.CoveredIff`).
- The local tamper check raises an alarm on an honest history in a database that had events when the digest table was
  made: it recomputes from the first event, while the digest was only kept since (`Verify.FirstAnchorBlamed`,
  `Verify.UpgradeRaisesAlarm`; `Verify.LocalExactly`, where the objection is certain up to a clash of the hash).
- The remote tamper check raises an alarm on an honest history while the latest row is pending and its line is not in
  the log that is read, and when a tick succeeds between its two reads (`Verify.PendingRowRaisesAlarm`,
  `Verify.TickBetweenRaisesAlarm`; `Verify.RemoteExactly`).
- The remote check reads the working copy after a pull, not the remote: a forged working copy passes
  (`Verify.ForgedWorkingCopyPasses`; `Verify.RewriteDetected`, and `Verify.FreshCloneDetects` for a fresh clone).
- Dropping checkpoints is noticed by the remote check, except when all of them are dropped: then there is nothing to
  compare and both checks pass (`Verify.DroppedRowsUnnoticed`; `Verify.DroppedRowsExactly`).
- A pending row is not always retried to an end: a clone made before the remote has its branch can never be pulled
  (`Push.CheckFirstSticks`, `Push.LostFirstPushSticks`, `Push.NeverPushed`; `Push.ReadyIff`, and `Push.CatchesUp` for
  every other case).
- An approval does not fix the bytes of a file: a final newline, and for large files everything but line and byte
  counts, is not in it (`Card.FinalNewlineIsInvisible`; `Card.SameApprovalIff`, and `Card.PlainApprovalIff` for the
  cards as they are rendered), and a hidden character reads as its escape spelled out (`Card.HiddenOrSpelledOut`;
  `Card.SameBytesIff`).
- The hunk header counts two summary lines once the diff table would be too large (`Diff.HeaderCountsIff`).
- A restore from the trash that stops half way is not "nothing": the partial file stays and blocks every retry
  (`Fs.PartialRestoreSticks`; `Fs.FailedUndoDelete`).
- Undoing a delete brings back whatever its trash entry holds by then (`Fs.EmptiedTrashMixesFilesUp`,
  `Fs.StaleRecordTakesEntry`; `Fs.UndoDeleteIsExact`).
- A printed hit with a line break in it takes more than one line of the block (`Render.BlockLines`).
- A failing memory write can leave bytes that are not committed when the write itself stops half way or the restore
  fails (`MemoryFile.FailedWriteLeaves`; `MemoryFile.FileHoldsWhatStayed`).

## Where code and comments disagree

The model follows the code.

- kahyad/internal/anthproxy/governor.go:385-390 says that a JSON body without a positive max_tokens falls back for the
  whole count; lines 405-410 use the fallback for the output part only.
- kahyad/internal/anthproxy/proxy.go:410-413 says that a non-retryable reason is only ever set on the first attempt;
  kahyad/internal/anthproxy/retry.go:116-145 sets it on later ones too (`Retry.NonRetryableCanComeLater`).
- kahyad/internal/approval/payload.go:130-135 says that the content of a file edit is hashed exactly as given; what is
  hashed is its rendered diff (`Card.SameApprovalIff`, `Card.HiddenOrSpelledOut`).
- kahyad/internal/anchor/push.go:153-158 says that a pending row is retried and never duplicated: the row is not, but
  its line in anchors.log can be, once per failed attempt (the proofs allow for that), and the retry can fail for good
  (`Push.NeverPushed`).
- kahyad/internal/anchor/verify.go:5-11 says that the remote's log is compared with the local rows; what is read is the
  local working copy after a pull (`Verify.ForgedWorkingCopyPasses`).
- mcp/memory/server.go:190-195 says that a failing call never leaves bytes on disk that are not also committed,
  reindexed and ledgered; a failed reindex keeps the write, and see above.

## Model

| member | source | states |
|---|---|---|
| Bounds.TaskCeilingHolds | kahyad/internal/anthproxy/governor.go:330-363 | over any interleaving of check, record and release whose counters stay inside 64 bits, completed plus reserved tokens of a non-empty task never exceed the larger of the ceiling and the starting total, plus the amounts by which recorded calls outgrew their own reservations |
| Bounds.BudgetHolds | kahyad/internal/anthproxy/governor.go:342-358 | with no condition at all on sizes: completed plus reserved dollars of any day or month never exceed the larger of the budget and the starting total, plus the excess of calls over their reservations and the whole cost of calls recorded in another day or month than their reservation |
| Bounds.MidnightCarry | kahyad/internal/anthproxy/governor.go:574-587 | the carry term is needed: a call reserved before midnight and recorded after it takes the new day to 12 dollars of a budget of 10 although nothing cost more than was reserved |
| Bounds.GrantUnderCeilingIff | kahyad/internal/anthproxy/governor.go:330-341 | a granted request is really under the ceiling exactly when its true projected total is at most the largest 64-bit number |
| Bounds.WrapBreaksCeiling | kahyad/internal/anthproxy/governor.go:398-427 | without that bound the ceiling is passed with no call recorded: an estimate that wraps negative makes room for 600007 tokens under a ceiling of 500000 |
| Bounds.GrantedIff | kahyad/internal/anthproxy/governor.go:330-363 | in range, a request is granted exactly when adding its whole estimate to completed and reserved totals passes none of the caps that are switched on |
| Bounds.VerdictNames | kahyad/internal/anthproxy/governor.go:330-363 | in range, a refusal names the first cap that the whole estimate would pass, the task's before the day's before the month's, and a grant hands out the next id |
| Bounds.ReserveExact | kahyad/internal/anthproxy/governor.go:455-466 | a reservation raises the exposure of its own task by exactly its tokens and of no other task |
| Bounds.ReleaseExact | kahyad/internal/anthproxy/governor.go:472-484 | a release lowers the exposure of its own task by exactly what was booked, and does nothing for an unknown id |
| Bounds.RecordExact | kahyad/internal/anthproxy/governor.go:259-272 | a recorded call raises the exposure of its own task by exactly its billable tokens |
| Books.RunConserves | kahyad/internal/anthproxy/governor.go:455-500 | any run keeps this: each token pool equals the sum of the outstanding reservations as a 64-bit register holds it, each dollar pool equals the exact sum, and every outstanding id was handed out |
| Books.PoolsDrain | kahyad/internal/anthproxy/governor.go:472-484 | with nothing outstanding every pool reads zero |
| Books.ReleasedForever | kahyad/internal/anthproxy/governor.go:472-500 | a released id never comes back, and releasing it again, after any run, changes nothing |
| Boot.BootRefinesLive | kahyad/internal/anthproxy/governor.go:249-272 | a governor booted from any reordering of the recorded calls has exactly the per-task, daily and monthly totals of the live governor that wrote them, whatever was checked and released in between |
| Boot.ReplayAnyOrder | kahyad/internal/anthproxy/governor.go:249-256 | replay depends only on the multiset of the recorded calls |
| Boot.TotalsAreSums | kahyad/internal/anthproxy/governor.go:259-272 | each total is the plain sum of the billable tokens (in a 64-bit register) or dollars of the calls that belong to it |
| Boot.DaysCount | kahyad/internal/anthproxy/governor.go:259-284 | the daily row counts the calls of that day and sums their input and their cache-read tokens |
| Boot.MonthsAreSumsOfDays | kahyad/internal/anthproxy/governor.go:259-284 | in every state of a live governor each month's total is the sum of its days' totals |
| Booted.BootedIsSound | kahyad/internal/anthproxy/governor.go:249-256 | a governor booted from any history meets every condition that runs keep |
| Booted.BootedPools | kahyad/internal/anthproxy/governor.go:455-500 | so in every state reachable from a boot the pools equal the sums of what is outstanding |
| Booted.BootedTaskCeiling | kahyad/internal/anthproxy/governor.go:330-363 | from a boot on, completed plus reserved tokens of a task stay under the larger of the ceiling and its boot total, plus overruns, while counters stay in range |
| Booted.BootedBudget | kahyad/internal/anthproxy/governor.go:342-358 | from a boot on, completed plus reserved dollars of a day or month stay under the larger of its budget and its boot total, plus overrun and carry |
| Booted.SmallRunsStayInRange | kahyad/internal/anthproxy/governor.go:330-363 | a condition that can be checked beforehand: when the starting totals and as many of the largest amounts as there are operations fit 64 bits together, no counter leaves the range, whatever the interleaving |
| Booted.SmallTaskCeiling | kahyad/internal/anthproxy/governor.go:330-363 | under that condition the task ceiling holds for a booted governor outright |
| Booted.BootedQuiet | kahyad/internal/anthproxy/proxy.go:485-515 | whenever no request is in flight after a boot, nothing is outstanding and every pool reads zero |
| Governor.Governor.constructor | kahyad/internal/anthproxy/governor.go:195-205 | a new governor has empty books |
| Governor.Governor.Replayed | kahyad/internal/anthproxy/governor.go:249-256 | booting replays the recorded calls in order on empty books |
| Governor.Governor.RecordLocked | kahyad/internal/anthproxy/governor.go:259-282 | books the usage of one call into the task, the day and the month |
| Governor.Governor.ReserveLocked | kahyad/internal/anthproxy/governor.go:455-466 | hands out the next id and adds the booking to the three pools |
| Governor.Governor.ReleaseReservation | kahyad/internal/anthproxy/governor.go:472-500 | takes the booking of an outstanding id out of the three pools; an unknown id is ignored |
| Governor.Governor.CheckBeforeForward | kahyad/internal/anthproxy/governor.go:330-363 | estimates, judges and reserves in one step; a refusal changes nothing |
| Governor.Governor.RecordUsage | kahyad/internal/anthproxy/governor.go:574-590 | releases the reservation and books the actual usage in one step |
| Estimate.CostWithinReserve | kahyad/internal/anthproxy/governor.go:398-427 | a call inside the byte-derived input bound and the output bound, priced by the row it was reserved under, costs at most the reserved dollars, on the parsed and on the fallback branch |
| Estimate.TokensWithinReserve | kahyad/internal/anthproxy/governor.go:398-427 | such a call uses at most the reserved tokens exactly when the reserved sum fits 64 bits |
| Estimate.DecodedFailsClosed | kahyad/internal/anthproxy/governor.go:398-427 | in the request's own numbers: a decoded body reserves one token for every 3 of its bytes, at least one, plus max_tokens or, when that is not positive, the configured fallback of 50000 unless set; every call with no more input and output costs at most the reserved dollars and uses at most the reserved tokens when they fit, and one such call reaches the dollars |
| Estimate.FallbackFailsClosed | kahyad/internal/anthproxy/governor.go:398-427 | the same for an empty body or one that does not decode, with the whole fallback at the output price |
| Estimate.CoveredIff | kahyad/internal/anthproxy/governor.go:398-427 | for a priced model, every call inside its bounds costs at most what was reserved exactly when the introductory price of one model did not end between reservation and recording |
| Estimate.WorstCaseCost | kahyad/internal/anthproxy/governor.go:398-427 | the reservation is tight: the dearest call inside the bounds costs exactly what is reserved under the row it is priced by |
| Estimate.PriceChangeCostsMore | kahyad/internal/anthproxy/usage.go:100-119 | a concrete case: for any limits and body the dearest call inside the bounds, reserved on the last introductory day and recorded on the first standard one, costs more than was reserved |
| Estimate.InputSideCost | kahyad/internal/anthproxy/usage.go:47-54 | whatever the mix of plain, cache-read and cache-write input, it costs at most the cache-write rate |
| Pricing.PriceCoverage | kahyad/internal/anthproxy/usage.go:92-134 | for each listed model the dated rows cover every instant exactly once, and no other model is priced |
| Pricing.RateOrder | kahyad/internal/anthproxy/usage.go:92-119 | in every row cache read, input, cache write and output rates are positive and rise in this order |
| Estimate.PriceList | kahyad/internal/anthproxy/usage.go:92-119 | the four rates of every model at every instant, in dollars per million tokens |
| Estimate.CostOfCall | kahyad/internal/anthproxy/usage.go:47-54 | a call costs its four token counts at those four rates |
| Pricing.FindRow | kahyad/internal/anthproxy/usage.go:121-134 | the row found applies, and none found means none applies |
| Retry.RetryTransport.RoundTrip | kahyad/internal/anthproxy/retry.go:74-166 | between 1 and maxInline attempts, all with the same body; ends at the first attempt that is not retryable; every response not handed on is closed; one wait between attempts and none after the last; exhausted exactly when all attempts were retryable |
| Retry.RetryTransport.TryOnce | kahyad/internal/anthproxy/retry.go:88-163 | one attempt: sends the body, decides unless the outcome is retryable, closes a response it does not hand on |
| Retry.AnswerMeaning | kahyad/internal/anthproxy/retry.go:74-166 | exhaustion means every attempt was retryable; a response is handed on exactly when the first attempt that was not retryable came back without a transport error |
| Retry.AnswerIs | kahyad/internal/anthproxy/retry.go:74-166 | what is handed on is the first outcome that is not retryable, as a failure when it came with a transport error |
| Retry.MayRetryIff | kahyad/internal/cloudretry/taxonomy.go:63-140 | retryable are seven statuses, and without a response the failures of the network, and nothing else |
| Retry.WaitsAre | kahyad/internal/anthproxy/retry.go:171-187 | three attempts unless another number is set; each wait is what the response asked for, and the back-off of its attempt when it asked for nothing or for no time |
| Retry.ClosedOnce | kahyad/internal/anthproxy/retry.go:140-145 | no response is closed twice |
| Retry.NonRetryableCanComeLater | kahyad/internal/anthproxy/retry.go:116-145 | a non-retryable answer may end the call on its second attempt |
| Proxy.ServeHTTP | kahyad/internal/anthproxy/proxy.go:439-515 | on every path of one request nothing of its reservation is left and no pool has moved; its task grows by one recorded call, and its day and month by the price of that call, exactly when an answer came back and some read of it returned an error, the end of file included; the reply is that of the first check that fails, "cloud unreachable" after retryable failures only, "bad gateway" after another transport failure, and otherwise the status of the first attempt that was not retryable |
| Proxy.Admit | kahyad/internal/anthproxy/proxy.go:439-490 | a request goes on exactly when it is authorised, allowed out, readable and granted; a refusal leaves the books alone and names the first check that failed |
| Proxy.Forward | kahyad/internal/anthproxy/proxy.go:492-515 | usage is recorded once, as extracted from the bytes up to the first read error, for a response that is read that far, and not otherwise; the reply tells a missing credential, exhausted attempts, a transport failure and a relayed status apart |
| Proxy.UsageOfIs | kahyad/internal/anthproxy/proxy.go:655-681 | what is billed is the usage of everything received up to and including the first read that came with an error |
| Proxy.Complete | kahyad/internal/anthproxy/proxy.go:492-515 | after the deferred release the books are settled whatever the upstream did |
| Proxy.RunTracked | kahyad/internal/anthproxy/proxy.go:485-515 | however requests interleave, the outstanding reservations are exactly those of the requests in flight that have not recorded yet |
| Proxy.QuietMeansZero | kahyad/internal/anthproxy/proxy.go:485-515 | whenever no request is in flight nothing is outstanding and every pool reads zero |
| Proxy.AllQuiet | kahyad/internal/anthproxy/proxy.go:485-515 | however requests were interleaved, when each of those in flight has ended nothing is in flight or outstanding any more and nothing more was billed |
| Proxy.DrainedOnce | kahyad/internal/anthproxy/proxy.go:655-694 | the first read error of a response releases its reservation and records the call in its task, day and month; a second one does nothing |
| Proxy.ReleasedExactlyOnce | kahyad/internal/anthproxy/proxy.go:728-735 | every reservation granted during a run leaves the books exactly once or is still outstanding |
| Stream.Relay | kahyad/internal/anthproxy/proxy.go:655-694 | however a response is cut into reads, onDone is called at most once, with the first error and the usage folded over the complete lines received up to it; the carried partial line is what follows the last newline |
| Stream.ExtractedIs | kahyad/internal/anthproxy/usage.go:191-239 | the three input-side counts are those of the last complete "data: " line that decodes to a start, and the output count is that of the last one that decodes to a running count, each 0 when there is none; a response that is no stream is decoded whole |
| Stream.UsageCapturingBody.constructor | kahyad/internal/anthproxy/proxy.go:643-653 | a fresh capture has read nothing and reported nothing |
| Stream.UsageCapturingBody.Read | kahyad/internal/anthproxy/proxy.go:655-680 | one read keeps usage, carried line, buffer and report equal to functions of the bytes received so far |
| Stream.UsageCapturingBody.FeedSSE | kahyad/internal/anthproxy/proxy.go:683-694 | a chunk cut anywhere leaves the usage of all complete lines and the text after the last newline |
| Stream.FeedAllAppend | kahyad/internal/anthproxy/usage.go:197-234 | feeding lines in two batches is feeding them in one |
| Diff.DiffIsOptimal | kahyad/internal/approval/diff.go:83-124 | context and remove lines spell the old text, context and add lines the new one, the context lines are a common subsequence, and no common subsequence is longer |
| Diff.LcsDiff | kahyad/internal/approval/diff.go:83-124 | the table and its walk produce that diff, with 32-bit entries that cannot overflow within the size guard |
| Diff.FillTable | kahyad/internal/approval/diff.go:84-101 | every entry is the length of a longest common subsequence of the two suffixes |
| Diff.FillRow | kahyad/internal/approval/diff.go:90-100 | one row from the row below it, leaving the other rows alone |
| Diff.Walk | kahyad/internal/approval/diff.go:103-117 | the walk emits the backtrace until one side is used up |
| Diff.BacktraceSpells | kahyad/internal/approval/diff.go:103-124 | the emitted lines spell both suffixes and keep as many lines as the table says |
| Diff.RemovedComeFirst | kahyad/internal/approval/diff.go:100-125 | within a change the removed lines come before the added ones |
| Diff.LcsIsUpperBound | kahyad/internal/approval/diff.go:84-101 | no common subsequence of two suffixes is longer than the table entry |
| Diff.HeaderCountsIff | kahyad/internal/approval/diff.go:49-62 | the two counts of the hunk header are the line counts of the two contents exactly when the product of the counts is within the size guard |
| Diff.SameDiffIff | kahyad/internal/approval/diff.go:49-79 | within the guard two edits have the same diff exactly when both sides agree up to one final newline |
| Diff.SameLinesIff | kahyad/internal/approval/diff.go:69-79 | two contents are cut into the same lines exactly when they are equal or differ by one final newline after a non-empty last line |
| Diff.RenderUnifiedDiff | kahyad/internal/approval/diff.go:131-156 | the rendered header counts the lines of each side and the body shows each line behind its sign |
| Diff.UnifiedDiff | kahyad/internal/approval/diff.go:49-62 | the text of a content pair is the rendering of its diff, or of two summary lines past the guard |
| Chunk.ChunkForTelegram | kahyad/internal/approval/diff.go:253-293 | the chunks concatenate to the text, each has 1 to limit runes (4096 when no positive limit is given), the lines that fit a chunk are carried whole and in order, and a chunk of lines followed by another could not have taken its first line |
| Chunk.ChunkLines | kahyad/internal/approval/diff.go:253-293 | the loop over the lines keeps that, up to and including the chunk that is open at the end |
| Chunk.AddLine | kahyad/internal/approval/diff.go:264-291 | one line keeps what the chunks so far promise, whether it joins, opens a chunk or is cut |
| Chunk.CutLine | kahyad/internal/approval/diff.go:271-281 | a line over the limit closes the open chunk and becomes pieces |
| Chunk.OpenLine | kahyad/internal/approval/diff.go:282-284 | a line that does not fit any more closes the open chunk and opens the next |
| Chunk.Flush | kahyad/internal/approval/diff.go:257-263 | closing the open chunk appends it once, if it is not empty |
| Chunk.HardSplit | kahyad/internal/approval/diff.go:300-312 | an over-long line becomes pieces of at most limit runes |
| Chunk.PiecesConcat | kahyad/internal/approval/diff.go:300-312 | the pieces concatenate to the line |
| Chunk.PiecesFull | kahyad/internal/approval/diff.go:300-312 | every piece but the last has exactly limit runes |
| Chunk.PagesAreLossless | kahyad/internal/approval/diff.go:253-293 | the chunks of a text concatenate to it and none is empty or over the limit |
| Payload.DecodeEncode | kahyad/internal/approval/payload.go:103-112 | a decoder inverts the length-prefixed encoding for field lists of any length |
| Payload.EncodeInjective | kahyad/internal/approval/payload.go:103-112 | equal encodings mean equal field lists |
| Payload.FieldAt | kahyad/internal/approval/payload.go:103-112 | each field stands behind its length in eight bytes, right after the fields before it, and there is nothing else |
| Payload.EncodeAll | kahyad/internal/approval/payload.go:103-112 | the loop writes that encoding |
| Bytes.Put64Is | kahyad/internal/approval/payload.go:103-112 | a length is eight bytes, the most significant first |
| Payload.CanonicalBytesInjective | kahyad/internal/approval/payload.go:136-240 | two payloads of any kinds with the same canonical bytes have the same kind and the same serialised fields |
| Payload.CanonicalFields | kahyad/internal/approval/payload.go:136-240 | the canonical bytes decode to the name of the kind and its fields in their order |
| Card.SameTextIff | kahyad/internal/approval/diff.go:131-156 | two cards for one path read alike exactly when they show the same signed lines |
| Card.CardReads | kahyad/internal/approval/diff.go:131-156 | a card read back sign by sign: the header holds the path and the two line counts, and what stands behind ' ' or '-' is the displayed old side, what stands behind ' ' or '+' the displayed new one: all lines of the contents within the guard, one summary line each past it |
| Card.LinesSpell | kahyad/internal/approval/diff.go:64-80 | the lines of a content spell it, with a newline after the last one |
| Card.SameBytesIff | kahyad/internal/approval/payload.go:136-151 | the canonical bytes of two edits of one path are equal exactly when their diffs show the same signed lines |
| Card.SameApprovalIff | kahyad/internal/approval/payload.go:136-151 | two edits of one path whose different lines are shown differently: small ones share their bytes exactly when they agree up to a final newline on either side, those past the size guard exactly when their line and byte counts agree, and a small one with a large one exactly when it spells out the large one's summary |
| Card.SameLinesAlike | kahyad/internal/approval/diff.go:49-62 | the same three cases decide when two edits have the same diff lines |
| Card.SummaryInjective | kahyad/internal/approval/diff.go:53-57 | a summary line determines the line and byte count in it |
| Card.FinalNewlineIsInvisible | kahyad/internal/approval/payload.go:130-151 | a file edit serialises alike with and without a newline after its last line, whatever the display |
| Card.DisplayIsLineWise | kahyad/internal/canon/normalize.go:165-198 | the display of a line is a line, so the condition on shown lines applies to it |
| Card.PlainApprovalIff | kahyad/internal/canon/normalize.go:165-198 | so on the cards as they are rendered those three cases are exact for any two edits whose diff lines have no control character and are in the normal form already |
| Card.PlainCardSpells | kahyad/internal/approval/diff.go:131-156 | from such a card within the guard both contents can be read back, up to a final newline |
| Card.HiddenOrSpelledOut | kahyad/internal/canon/normalize.go:165-198 | that display does not tell all lines apart: a file with a hidden control character and one that spells out its escape have one card |
| Ledger.PreimageInjective | kahyad/internal/ledgerdigest/digest.go:49-57 | the bytes hashed for an event determine the previous digest, the event id and the payload |
| Ledger.LinkIs | kahyad/internal/ledgerdigest/digest.go:35-57 | each digest is the hash of the one before, the event id as eight bytes with the most significant first, and the payload; the first one before is 32 zero bytes |
| Ledger.DigestBinds | kahyad/internal/ledgerdigest/digest.go:35-57 | two ledgers with the same running digest are equal event by event, unless the hash gives one digest for two different things hashed along these two ledgers, or the genesis digest for one of them |
| Ledger.CheckLocal | kahyad/internal/anchor/verify.go:94-116 | silent exactly when every checkpoint the loop visits agrees; otherwise it names the first one in ledger order that does not |
| Ledger.TamperEvident | kahyad/internal/anchor/verify.go:98-116 | if the check passes a checkpoint whose event is still in the ledger, every id and payload up to it are those that were anchored, unless the hash clashes between these two ledgers |
| Ledger.DroppedEventUnnoticed | kahyad/internal/anchor/verify.go:104-111 | the presence condition is needed: dropping the last checkpointed event goes unnoticed |
| AnchorLog.ReadsLastRecord | kahyad/internal/anchor/repo.go:145-196 | a log to which only records were appended reads back as the last record appended (host name respaced), as empty when there is none, and as malformed exactly when that record's host name is blank |
| AnchorLog.LastAnchorLine | kahyad/internal/anchor/repo.go:156-196 | the scan returns the last non-blank line parsed into its fields, or what is wrong with it; a missing file reads as empty |
| AnchorLog.RecordAppended | kahyad/internal/anchor/repo.go:121-131 | appending a record to a file of whole lines adds exactly one line |
| AnchorLog.ParseBody | kahyad/internal/anchor/repo.go:180-195 | a written record is parsed back, and is malformed exactly when its host name is blank |
| AnchorLog.ScanIntText | kahyad/internal/anchor/repo.go:145-147 | a 64-bit event id printed in decimal scans back to itself |
| AnchorLog.ScanIs | kahyad/internal/anchor/repo.go:186-189 | of any text the number after an optional sign is read, whatever follows it; without a digit there, or past 64 bits, nothing |
| Push.RunStaysHonest | kahyad/internal/anchor/push.go:124-253 | over any interleaving of appended events, ticks that fail at any step, checks and losses of the clone, from a database with any events in it: row ids strictly increase, only the latest row can be pending, every row carries the true digest of the events since the digest table was made up to its own, every log line repeats a row in ledger order, and the remote log reaches every row marked pushed |
| Push.RunBehind | kahyad/migrations/0010_ledger_anchor.sql:32-42 | events from before the digest table change no step: a run with them in front is the run without them, with them in front |
| Push.CatchesUp | kahyad/internal/anchor/push.go:124-253 | after any run, however its ticks failed, two ticks in which nothing fails leave a row pushed that reaches all events there were, at the end of the remote log (the row of the running digest when they note nothing), unless a clone was made before the remote had its branch |
| Push.PendingIsPushed | kahyad/internal/anchor/push.go:168-170 | a pending row is retried: a tick in which nothing fails pushes it, adds no row, and ends the remote log with its line |
| Push.NewDigestIsPushed | kahyad/internal/anchor/push.go:159-176 | a digest without a row gets one, pushed by the same tick |
| Push.IdleTick | kahyad/internal/anchor/push.go:171-173 | a tick does nothing when the latest row is pushed for the last event, or there is nothing to anchor |
| Push.FailedTickLeavesPending | kahyad/internal/anchor/push.go:188-253 | a tick that fails marks no row, adds at most one pending row, and changes the remote only when a push lands without its answer or before a mark that fails |
| Push.PullOutcomes | kahyad/internal/anchor/repo.go:88-119 | a pull fails exactly when the remote has no branch, when both sides have commits of their own, or when it would overwrite changes; otherwise no line of either side is lost |
| Push.InsertKeepsHonest | kahyad/internal/store/db.go:266-305 | appending an event with its digest step in one transaction keeps all of that |
| Push.ClaimKeepsHonest | kahyad/internal/anchor/push.go:159-186 | so does claiming: a pending row is retried, a new one is written only for a digest not anchored yet |
| Push.ClaimsLatest | kahyad/internal/anchor/push.go:159-176 | the row a tick pushes is always the latest one |
| Push.EnsureKeepsHonest | kahyad/internal/anchor/repo.go:88-119 | so does cloning or pulling, which fails while the remote has no branch, and what follows has a clone |
| Push.PushKeepsHonest | kahyad/internal/anchor/push.go:195-253 | so does a push, wherever it stops, also when a push lands but is reported as failed |
| Push.TickKeepsHonest | kahyad/internal/anchor/push.go:124-149 | so does a whole tick |
| Push.LoseKeepsHonest | kahyad/internal/anchor/repo.go:88-98 | so does losing the local clone with unpushed lines in it |
| Push.ReadyIff | kahyad/internal/anchor/repo.go:88-119 | without faults an honest clone is usable exactly when it is fresh or the remote has the branch |
| Push.NeverPushed | kahyad/internal/anchor/push.go:195-206 | once there is a clone and the remote has no branch, no run of appends, ticks and checks pushes anything or marks a row, until the clone is lost |
| Push.CheckFirstSticks | kahyad/internal/anchor/verify.go:137-148 | one check before the first push is enough to get there |
| Push.LostFirstPushSticks | kahyad/internal/anchor/push.go:228-230 | and so is a first push that does not land |
| Pusher.Pusher.constructor | kahyad/internal/anchor/push.go:88-96 | a fresh ledger and no clone |
| Pusher.Pusher.InsertEventWithDigest | kahyad/internal/store/db.go:266-305 | the event and its digest step happen together or not at all |
| Pusher.Pusher.InsertPending | kahyad/internal/anchor/push.go:178-186 | a new row takes the current event id and digest and is pending |
| Pusher.Pusher.ClaimPendingRow | kahyad/internal/anchor/push.go:159-176 | returns the pending row, a new row, or none, as the state machine says |
| Pusher.Pusher.CloneOrPull | kahyad/internal/anchor/repo.go:88-119 | clones what the remote has, or fast-forwards; a remote without the branch cannot be pulled |
| Pusher.Pusher.CommitAndPush | kahyad/internal/anchor/push.go:211-235 | append, add, commit and push, stopping where the fault says |
| Pusher.Pusher.MarkAnchorPushed | kahyad/internal/anchor/push.go:237-251 | the row flips to pushed, and the ledger may note it |
| Pusher.Pusher.PushRow | kahyad/internal/anchor/push.go:195-253 | the row's status is the last thing to change |
| Pusher.Pusher.Run | kahyad/internal/anchor/push.go:124-149 | one tick of the state machine |
| Verify.NoFalseAlarm | kahyad/internal/anchor/verify.go:89-173 | after any run from any database and whatever happens between the reads of the check: the local check passes when there are no events from before the digest table or nothing is anchored, and the remote check passes when the latest row is pushed at the time the log is read, its host name is not blank, and no row is added before the latest row is read |
| Verify.LocalNeverFalse | kahyad/internal/anchor/verify.go:94-116 | the local check never objects to an honest history whose digest was kept from its first event on, also when the reader saw only a prefix of the events |
| Verify.LocalExactly | kahyad/internal/anchor/verify.go:89-116 | with events from before the digest table, and ids that only grow, the local check is content exactly when there are none or no event that it read was anchored by the time it reads the checkpoints, up to a clash of the hash between the ledger with and without those events |
| Verify.UpgradeRaisesAlarm | kahyad/internal/anchor/verify.go:104-116 | once anything is anchored in a database that was upgraded with events in it, the local check objects, up to such a clash |
| Verify.FirstAnchorBlamed | kahyad/migrations/0010_ledger_anchor.sql:38-42 | a false alarm: one event, the upgrade, another event that is appended and anchored; the check reports the second event, up to a clash of the hash on these two |
| Verify.RemoteExactly | kahyad/internal/anchor/verify.go:137-173 | the log of an honest moment against the latest row of any later one: content exactly when there is nothing to compare, or that log has a line for that row; otherwise it blames the event of the row |
| Verify.BlankHostFails | kahyad/internal/anchor/verify.go:150-153 | a blank host name in the last line makes the check fail as malformed |
| Verify.PushedIsInLog | kahyad/internal/anchor/push.go:228-246 | a row is marked pushed only when every readable log has its line |
| Verify.PendingRowRaisesAlarm | kahyad/internal/anchor/verify.go:155-173 | a false alarm: anchor one event, append another, tick while the remote is down; the next check reports the second event |
| Verify.TickBetweenRaisesAlarm | kahyad/internal/anchor/verify.go:148-173 | another: a tick that succeeds between reading the log and reading the latest row, which is pushed at both moments |
| Verify.LatestIsWanted | kahyad/internal/store/queries/queries.sql:748-774 | the two queries agree: the digest wanted for the latest row's event is the latest row's, also when other rows have the same event id |
| Verify.DroppedRowsUnnoticed | kahyad/internal/anchor/verify.go:89-116 | the local check never notices that the latest checkpoints were dropped |
| Verify.DroppedRowsExactly | kahyad/internal/anchor/verify.go:148-173 | the remote check does, when the latest of them was pushed, and blames the event anchored last, unless all of them were dropped: then it passes |
| Verify.IncreasingIsListed | kahyad/internal/store/queries/queries.sql:767-774 | a table whose event ids increase is listed as it is |
| Verify.RewriteDetected | kahyad/internal/anchor/verify.go:89-173 | someone rewrites events, checkpoints and even the log that is read, and both checks pass on an event that is still there: everything up to it is as it was, up to a clash of the hash between the two ledgers, exactly when the last line of the log that is read is true of the honest ledger |
| Verify.FreshCloneDetects | kahyad/internal/anchor/verify.go:137-173 | when there is no working copy the check clones one, and the rewrite is detected |
| Verify.AnchoredWorkingCopyDetects | kahyad/internal/anchor/verify.go:137-173 | so it is when the working copy, after the pull, ends in a line that was anchored |
| Verify.ForgedWorkingCopyPasses | kahyad/internal/anchor/verify.go:137-173 | the condition is needed: a forged working copy survives the pull, and both checks pass on any ledger without the remote having been touched |
| Verify.Verify | kahyad/internal/anchor/verify.go:89-127 | passes exactly when the local check is silent and the remote one, if configured, is content; a local mismatch wins and is the first in ledger order |
| Fs.UndoWriteIsExact | mcp/fs/undo.go:117-160 | over any run of writes, deletes, undos, purges and outside edits, with copy slots shared between traces, a successful undo puts the target back to what it was just before the trace's last recorded write and touches no other file: absent if it was absent, otherwise the same bytes or others with the very same hash; a failing one touches no file |
| Fs.UndoWriteSucceedsIff | mcp/fs/undo.go:117-160 | over any run and without faults: a write that made a new file can be undone exactly while there is a file at its path; any other, as long as no later step touched the slot or blob of its pre-image, exactly when the bytes saved there have the hash of those read (always so without git), and then those bytes come back |
| Fs.WriteSucceedsIff | mcp/fs/server.go:490-552 | a write happens exactly when it is allowed, the old file could be read and kept, and the new one written; the record says where the old bytes are; otherwise no file, record or trash entry changes |
| Fs.UndoneOnce | mcp/fs/undo.go:117-160 | a write is undone at most once, and its copy slot is emptied with it when that can be done |
| Fs.PurgeForgets | mcp/fs/undo.go:204-215 | an expired record can never be undone, its slot is emptied when that can be done, and nothing else is touched |
| Fs.RegistryTells | mcp/fs/undo.go:73-90 | the record of a trace describes what its last recorded operation found |
| Fs.SharedSlot | mcp/fs/server.go:958-968 | of two writes that share a copy slot, the first can be undone exactly when both pre-images have the same hash |
| Fs.WriteThenUndo | mcp/fs/undo.go:117-160 | a write undone at once leaves the files as before |
| Fs.WriteThenUndoRun | mcp/fs/undo.go:117-160 | so it does after any run, with the pre-image in a copy or in a blob, and not when git has dropped the blob |
| Fs.UndoCreation | mcp/fs/undo.go:123-131 | the write of a new file is undone exactly when the file is there and can be moved to the trash; its bytes are then in the trash |
| Fs.TaskDirName | mcp/fs/server.go:979-986 | the directory name of any task is one safe path component |
| Fs.TaskDirsCollideIff | mcp/fs/server.go:979-986 | two tasks share a directory exactly when their trimmed names are the same, or both are unsafe, or one is and the other is named like the placeholder |
| Fs.UndoDeleteIsExact | mcp/fs/undo.go:167-182 | a successful undo of a delete puts what its trash entry holds at the free path of the trace's last recorded delete and touches no other file; that is the file the delete found exactly when the entry still holds it, and it does whenever nobody else touched the entry since and no earlier record still named it |
| Fs.UndoDeleteSucceedsIff | mcp/fs/server.go:1136-1177 | when its entry was kept that way, it succeeds, without faults, exactly when the path has not been taken again |
| Fs.RunKeepsEntries | mcp/fs/server.go:1052-1099 | every deleted file that can still be undone is in the trash under a name of its own |
| Fs.UntouchedTrashIsKept | mcp/fs/server.go:1052-1099 | while nobody else changes the trash, every entry is kept for its undo |
| Fs.DeleteThenUndo | mcp/fs/undo.go:167-182 | delete then undo is the identity on files and trash |
| Fs.DeleteSucceedsIff | mcp/fs/server.go:556-604 | a delete happens exactly when it is allowed, the file is there and nothing fails; its bytes are then in the trash under a name that was free, and otherwise no file and no record changes |
| Fs.UndoDeleteOutcomes | mcp/fs/server.go:1136-1177 | the whole state that an undo of a delete leaves, for each way in which it can go |
| Fs.FailedUndoDelete | mcp/fs/server.go:1136-1177 | a failed undo of a delete leaves the files alone exactly when it did not get as far as creating the target |
| Fs.PartialRestoreSticks | mcp/fs/server.go:1158-1170 | a restore that stops half way leaves what it copied, and every retry then fails |
| Fs.EmptiedTrashMixesFilesUp | mcp/fs/undo.go:167-182 | the entry must be left alone: when it is emptied and its name reused, undoing the first delete brings back the second file |
| Fs.StaleRecordTakesEntry | mcp/fs/undo.go:167-182 | and leaving it alone from the delete on is not enough while an earlier record still names it |
| Fs.DeletesLoseNothing | mcp/fs/server.go:1052-1099 | no sequence of deletes and undone deletes, wherever they fail, loses a copy of any content; without faults the number of copies is the same |
| Fs.TrashNeverOverwritten | mcp/fs/server.go:1078-1097 | no call of the server changes an entry of the trash that it leaves there |
| Trash.CollisionSafePath | mcp/fs/server.go:1110-1122 | the loop ends, with the first free candidate |
| Trash.FreshNameIsFirst | mcp/fs/server.go:1110-1122 | that candidate is free, all earlier ones are taken, and it is among the first |trash|+1 |
| Trash.CandidatesDiffer | mcp/fs/server.go:1114-1117 | the candidates are pairwise distinct |
| Trash.CandidateIs | mcp/fs/server.go:1110-1122 | the candidates are the name itself and then stem-1.ext, stem-2.ext and so on, the extension starting at the last dot |
| Trash.BaseNameIs | mcp/fs/server.go:588 | the trash name of a path is what follows its last separator |
| FsServer.FsServer.constructor | mcp/fs/server.go:238-258 | a server starts with an empty registry |
| FsServer.FsServer.CopyPreImage | mcp/fs/server.go:958-968 | the pre-image goes to the slot of its task directory and path; a failed copy may leave anything there |
| FsServer.FsServer.CheckpointPreImage | mcp/fs/server.go:918-954 | absent, blob or copy, with the hash of the bytes read; changes no file |
| FsServer.FsServer.HandleWrite | mcp/fs/server.go:490-552 | the target changes and the record is put only after the checkpoint and the write both succeeded |
| FsServer.FsServer.MoveToTrash | mcp/fs/server.go:1052-1099 | copied under a fresh name first, removed second |
| FsServer.FsServer.HandleDelete | mcp/fs/server.go:556-604 | a record is put only for a move that completed |
| FsServer.FsServer.UndoWrite | mcp/fs/undo.go:117-160 | checks the hash of the recovered bytes before writing; a created file goes to the trash |
| FsServer.FsServer.RestoreFromTrash | mcp/fs/server.go:1136-1177 | never over an existing file; the entry goes last |
| FsServer.FsServer.UndoDelete | mcp/fs/undo.go:167-182 | the record is consumed only by a restore that completed |
| FsServer.FsServer.PurgeExpired | mcp/fs/undo.go:204-215 | forgets the record and removes its copy |
| Render.RenderKept | mcp/memory/render.go:108-142 | the hits kept are the longest prefix of the stable top k whose wrapped block fits 4000 runes, the block prints exactly them, and the caller's array is not touched |
| Render.RenderedIs | mcp/memory/render.go:108-161 | in the caller's terms: the best hits, at most k of them or 6, one line each of the form "- [path#seq] text" with the text cut after 400 runes and an ellipsis, between the two tags; the longest beginning that fits 4000 runes is printed and kept, or nothing |
| Render.DropToFit | mcp/memory/render.go:132-141 | dropping trailing entries leaves the longest prefix that fits and its block |
| Render.RankedIsStable | mcp/memory/render.go:117-126 | the order is descending in score, and within a score it is the order of the input |
| Render.StableOrderUnique | mcp/memory/render.go:117-126 | there is only one such order |
| Render.StableSort | mcp/memory/render.go:117-126 | sorting the private copy in place produces it |
| Render.Sink | mcp/memory/render.go:122 | one insertion moves a hit behind all hits with at least its score |
| Render.TruncateRunes | mcp/memory/render.go:155-161 | at most max runes and the ellipsis, unchanged when it fits |
| Render.FitsIsMonotone | mcp/memory/render.go:134-141 | dropping trailing entries one by one finds the longest prefix that fits |
| Render.BlockLines | mcp/memory/render.go:128-149 | the block has one line for each hit kept exactly when no printed hit contains a line break |
| MemoryFile.StripHeader | mcp/memory/server.go:493-513 | stripping a file the tool wrote returns its body, for every body |
| MemoryFile.HeaderIs | mcp/memory/server.go:504 | the header is three lines that declare the tier |
| MemoryFile.WrittenText | mcp/memory/server.go:500-504 | a write puts the stripped old file and a rule behind the header, if there was one, and the new content |
| MemoryFile.WritesAddUp | mcp/memory/server.go:493-513 | after k writes there is one header, then the stripped original if there was a file, and the k contents, joined by the separator |
| MemoryFile.FileHoldsWhatStayed | mcp/memory/server.go:196-246 | over any calls on any files with any failures, a file holds exactly what it last went back to (the original, a half-written file or what a failed restore left) and the contents since then that got past their commit |
| MemoryFile.NoDamage | mcp/memory/server.go:196-246 | as long as no call leaves damage at its path, what the file goes back to is the original |
| MemoryFile.FailedWriteLeaves | mcp/memory/server.go:196-246 | the exact cases in which a failing call leaves the files as they were |
| MemoryFile.WriteKeepsSync | mcp/memory/server.go:196-246 | a path whose disk bytes are committed stays so, and a successful write makes it so |
| MemoryFile.WriteOutcomes | mcp/memory/server.go:196-246 | a write succeeds exactly when nothing goes wrong, and then the new text is on disk, committed and indexed alike; it is committed and not indexed exactly when the reindex alone fails |
| MemoryFile.StripTakesABlock | mcp/memory/server.go:547-562 | what is removed is whole lines up to the second delimiter line; without two of them nothing is |
| MemoryFile.IsDelimIff | mcp/memory/server.go:547-562 | a delimiter line is three dashes, any carriage returns and its newline |
| MemoryFile.StripLeadingFrontMatter | mcp/memory/server.go:547-562 | the loop computes that |
| MemoryFile.MemoryServer.constructor | mcp/memory/server.go:95-105 | the tool starts on what is on disk |
| MemoryFile.MemoryServer.WriteMemoryFile | mcp/memory/server.go:493-513 | returns the prior bytes and writes the header around old body and new content |
| MemoryFile.MemoryServer.RestoreMemoryFile | mcp/memory/server.go:523-537 | puts the prior bytes back, or removes a new file |
| MemoryFile.MemoryServer.HandleWrite | mcp/memory/server.go:196-246 | write, commit, reindex, and the restore when the commit fails |
| Backup.AlwaysVerified | kahyad/internal/backup/backup.go:127-178 | over any sequence of runs, failing anywhere, dated copies only ever hold contents that passed the integrity check |
| Backup.FailedNightTouchesNothing | kahyad/internal/backup/backup.go:188-201 | a run that fails at or before the rename leaves every file but its staging file as it was |
| Backup.RenamesIff | kahyad/internal/backup/backup.go:139-163 | a run gets past the rename exactly when the contents check out and nothing before it fails |
| Backup.CompletesIff | kahyad/internal/backup/backup.go:127-178 | a run completes exactly when the contents check out, nothing fails and no snapshot past the seven newest is stuck; when the ledger or the listing fails nothing is pruned |
| Backup.StagingLeft | kahyad/internal/backup/backup.go:188-201 | exactly which runs leave a staging file behind |
| Backup.CompletedNight | kahyad/internal/backup/backup.go:127-178 | a run that completes leaves exactly the 7 newest dates of the previous ones and its own, with the other contents unchanged |
| Backup.RenamedNight | kahyad/internal/backup/backup.go:163-178 | past the rename, whatever fails, the 7 newest are there, nothing else appears and nothing else changes |
| Backup.NewestAlwaysThere | kahyad/internal/backup/backup.go:207-242 | over any sequence of runs, the 7 newest of all snapshots ever renamed into place are there, and only such snapshots are |
| Backup.ExactlyTheNewest | kahyad/internal/backup/backup.go:207-242 | and right after a run that completes they are exactly what is there |
| Backup.NeverFewer | kahyad/internal/backup/backup.go:127-178 | the number of dated copies never falls below what it was at the start, or 7 |
| Retention.KeepIsNewest | kahyad/internal/backup/backup.go:226-241 | keeping a snapshot when fewer than 7 are newer keeps as many as allowed, each newer than each one dropped |
| Retention.NewestUnique | kahyad/internal/backup/backup.go:226-241 | there is only one such choice |
| Retention.BeforeIsLess | kahyad/internal/backup/backup.go:203-206 | on dates of eight digits the text order is the numeric order |
| Retention.KeepOfLess | kahyad/internal/backup/backup.go:207-242 | pruning earlier never changes which snapshots are the newest later |
| Retention.DateOfSnapName | kahyad/internal/backup/backup.go:22-25 | the target name of a date is recognised as that date |
| Retention.SnapNameOfDate | kahyad/internal/backup/backup.go:22-25 | no other name is recognised |
| Snapshotter.SnapsNewestFirst | kahyad/internal/backup/backup.go:208-226 | the listing is filtered to snapshot names and sorted newest first by the text of the date |
| Snapshotter.Snapshotter.constructor | kahyad/internal/backup/backup.go:92-100 | starts on a given directory |
| Snapshotter.Snapshotter.ReadDir | kahyad/internal/backup/backup.go:208-211 | names every file once |
| Snapshotter.Snapshotter.Remove | kahyad/internal/backup/backup.go:232-241 | removes what can be removed and reports whether that was all |
| Snapshotter.Snapshotter.Prune | kahyad/internal/backup/backup.go:207-242 | drops exactly the snapshots past the seventh |
| Snapshotter.Snapshotter.Fail | kahyad/internal/backup/backup.go:188-201 | removes only the staging file, best effort |
| Snapshotter.Snapshotter.Finish | kahyad/internal/backup/backup.go:163-178 | rename, ledger, prune, in this order |
| Snapshotter.Snapshotter.Run | kahyad/internal/backup/backup.go:127-178 | one night: stage, verify, rename, note, prune |

## Left out

- Bounds.TaskCeilingHolds: asks that no counter addition of the run leaves 64 bits; past that the bound is false, as Bounds.WrapBreaksCeiling shows, and Booted.SmallRunsStayInRange gives a condition that can be checked beforehand.
- Estimate.CostWithinReserve: dollars are exact reals, so floating-point rounding is not captured.
- Verify.RewriteDetected: asks that rows for one event come in row order in the list of checkpoints, as an index on the event id lists them; that the table still has a row; and that the event the last line names is still in the ledger.
- Push.RunStaysHonest: asks that the host name has no line break and the time stamp is one word; other writers to the remote are not modelled.
- Card.SameBytesIff: asks that the display of a line is a line, and that a rendered diff is shorter than 2^63 bytes.
- Daemon wiring, command line, MCP, HTTP and Telegram transport: plumbing.
- JSON decoding, the Unicode normal form and the SQL store: parameters or abstract steps. Decoders are functions, so a body decodes the same way every time.
- Downgrade, alarm and cache-buster flags of RecordUsage: they feed notices, not the books.
- Several clock readings inside one method: each method takes one instant.
- The 64-bit wrap of the reservation counter, which takes 2^64 grants.
- A request body that cannot be replayed in the retry loop: ServeHTTP always installs one that can.
- Parsing of Retry-After and the jitter of the back-off: a wait is the delay asked for or the attempt it backs off from.
- The shaping of requests for one model family, the scan flags of approval payloads and the other Render sections: branch by branch, no state.
- SSH key handling, the local fallback copy of anchor lines and the stale-pending alarm: side effects that no check reads.
- A half-written anchors.log line, and lines over one megabyte.
- Policy checks, deny globs and argument decoding of the file tools: one flag says whether a write or delete is allowed.
- The walk of os.Root components, directories, file modes and symbolic links: a target is a path, and reading, writing and moving are single steps.
- Distinct spellings of one path and file systems that ignore case: paths and names are compared as they are.
- NaN scores, whose order is not one.
- Section removal and whole-file forgetting in the memory tool.
- The git index of the memory repository; only the committed contents are kept.
- Subdirectories of the backup directory, the hash and size reported to the ledger, and the alarm text.
- Invalid UTF-8.
