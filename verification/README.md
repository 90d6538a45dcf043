# Review service: a verified model

The service accepts unified diffs, reviews them in the background, and serves the results by
polling and as an event stream. This project models its behaviour in Dafny and proves what it
promises.

- **Tables and protocol.** `Database` holds the rows of the tables as values and one function for
  each committed transaction; `Protocol` is the state machine over these transactions with any
  number of workers, including a failure transaction that itself raises (`Lost`) and a restart at
  any point (`Restarted`). `DatabaseInvariant` has the invariant, `Progress` the liveness results,
  `Transparency` what the cache and the interleaving cannot change, `Submissions` what the tables
  hold of the submissions of a run. `ReviewStore` is the same
  code as it is written, a class with tables updated in place, each method proved equal to its
  transaction, up to a single-worker loop that ends every job.
- **Streams.** `Stream` has the polling loop of one reader over the snapshots it happens to see,
  and places it beside any run of the protocol.
- **Diffs.** `Parser` is the line state machine, as methods with loops proved against functions.
  `UnifiedDiff` defines the format independently: edit scripts, the patched file, and the text.
  `ParserSoundness` and `ParserRoundTrip` prove what parsing the text gives back, for all contents
  of the lines, and exactly when that is the patch; `FinalNewline` extends this to diffs whose last
  line is not terminated. `ParserTotals` and `LineByLine` hold on every accepted input, the latter by
  the positions and first characters of the lines; `PathNames` says what path a header line names,
  `HunkHeader` proves the hand-written header scanner equal to the pattern, and `Utf8` that sizes
  are those of the encoding.
- **Chunks, providers, results.** `Chunker` (greedy packing is optimal), `MockProvider` (brace
  scanner, rules), `Comments` (what counts as an empty block), `MockFindings` (what is reported, by
  positions), `ProviderIndependence` (neither chunking nor file order matters), `Findings` and
  `Sorting` (the normaliser), `Pipeline` (all of it in one statement over runs).
- **Rate limiter.** `RateLimiter`: the pruned deque of the class decides as the full history does.

`Text` and `Wrappers` are helpers. A job is identified by its position in the order of submission.
Transactions are atomic, and one that raises has no effect. `created_at` is a parameter of
submission; where the order of creation matters it is a hypothesis (`Fifo`, `Clocked`), and
`Progress.ClockRegressionStalls` shows that it is needed.

Where the code does not meet its purpose, the exact condition is proved, and a concrete input or run
at which it fails:

| what fails | exactly when | where it does |
|---|---|---|
| a hunk's new side is recorded whole | `HunkSoundIff`, `ParseOfRender`: an inserted text starts with `++`, or a deleted one that starts with `--` is followed in its hunk by a new-side line | `FailingDiffs.InsertedPlusPlusLost`, `FailingDiffs.KeptAfterDashesLost` |
| the files of a plain diff are told apart | `ParseOfRender`: a deleted text that starts with `-- ` stands right before an inserted one that starts with `++ ` | `FailingDiffs.MimickedHeader` |
| work goes on, with the clock in order | `StalledIffOrphans`: all workers rest or wait for a lost source | `Progress.LostSourceStalls` |
| work goes on, with no job lost | `StalledIffSourcesQueued`: all workers wait for queued sources | `Progress.ClockRegressionStalls` |
| a stream of an ended job closes | `EndedJobCloses`: the job is done and the cursor is at or beyond its last event | `Stream.DoneStreamPolls` |
| the mock provider answers | `ReviewFailsIff`: it reports the first line of a hunk whose header starts at 0 | `ZeroLines.ZeroDiffFails` |

`dafny verify dfyconfig.toml` checks the project.

## Model

| member | source | states |
|---|---|---|
| Protocol.StepKeepsInv | app/workers/review_worker.py:29-181 | Every step, from every state, keeps the table invariant, keeps workers on distinct running jobs, and keeps limits within bounds |
| Protocol.RunKeepsInv | app/workers/review_worker.py:156-181 | Over every run, with losses and restarts anywhere, the invariant holds: exclusive processing, log grammar, cache ownership |
| Protocol.ReachableLogs | app/services/events.py:14-25 | In every reachable state each log is numbered 1..n and reads (queued running)*, an unfinished part or one ending, with nothing after the ending; its last status event is the row's status |
| Protocol.ReachableEntries | app/services/jobs.py:95-115 | In every reachable state a cache entry's source is the one job of its request with cache_hit false, and the entry is running, done or failed exactly as that job is |
| Protocol.OnlyTheSourceChangesItsEntry | app/workers/review_worker.py:99-152 | A cache entry is changed only by the step that ends its own source job; a follower's failure leaves it alone |
| Protocol.RunExtends | app/workers/review_worker.py:92-153 | Over every run done and failed are absorbing, logs only grow, keys and settled cache entries are never changed |
| Protocol.OnlyRestartRequeues | app/services/jobs.py:139-146 | A running job becomes queued again by a restart, and by every restart, and by nothing else |
| Protocol.RepeatedSubmission | app/services/jobs.py:80-94 | After an accepted submission under a key, however many steps and restarts later, the same body gets the same job and a different body is refused, and neither changes anything |
| Protocol.KeylessSubmissionIsNew | app/services/jobs.py:81-136 | However many steps and restarts after an accepted submission, one with an empty or a missing key is a different, new job even with the same body, leaves no record, and the two kinds of key make no difference |
| Protocol.FailureIsReported | app/workers/review_worker.py:135-153 | A failed job's row, its last event and polling all give the exception's text, its first 1000 characters, or the fixed text |
| Submissions.RowsAreSubmissions | app/services/jobs.py:95-136 | In every reachable state the j-th row holds the diff, provider, limit, sizes and time of the j-th submission accepted as a new job, hit the cache exactly if an earlier one asked for the same, and keys and entries are those of these submissions |
| Submissions.AnswersOfRun | app/services/jobs.py:80-136 | After every run: a key used before gives the job of its first use, or a conflict for another body; any other submission is a new job |
| Submissions.PollingReportsSubmission | app/api/reviews.py:24-38 | In every reachable state polling reports the status the log last told and the usage of the job's submission, the same that closes its log |
| Submissions.ResultIsOfSubmission | app/workers/review_worker.py:49-132 | In every reachable state polling a done job gives the normalised review of the diff that was submitted, by the provider that was named, cut to the limit that was given |
| Submissions.StepKeepsRecords | app/services/jobs.py:74-136 | Every step keeps rows, entries and keys equal to those read off the submissions so far |
| DatabaseInvariant.SubmitKeeps | app/services/jobs.py:74-136 | Submission keeps the invariant and never finds an inconsistent idempotency record |
| DatabaseInvariant.ClaimKeeps | app/workers/review_worker.py:29-46 | Claiming keeps log grammar, cache ownership and agreement of row, log and entry |
| DatabaseInvariant.FinishSourceKeeps | app/workers/review_worker.py:99-132 | The success transaction of a source keeps them, the entry holding the full normal form |
| DatabaseInvariant.FinishFollowerKeeps | app/workers/review_worker.py:49-69 | Finishing from the cache keeps them: normalising the cached result again only cuts it |
| DatabaseInvariant.FailJobKeeps | app/workers/review_worker.py:133-153 | The failure transaction keeps them, whichever job fails and for whatever reason |
| DatabaseInvariant.RecoverFirstKeeps | app/services/jobs.py:139-146 | Recovery keeps them after any number of rows |
| DatabaseInvariant.OneOwner | app/services/jobs.py:95-115 | The one job of a request that did not hit the cache owns its entry and was submitted before all others of that request |
| DatabaseInvariant.DoneJobsAgree | app/workers/review_worker.py:49-69 | Whatever the provider answers, two done jobs of one request have the same findings |
| DatabaseInvariant.ResultConserved | app/workers/review_worker.py:101-132 | The finding events of a done job are, in order, the findings of its row; the closing event has their count and the job's usage |
| DatabaseInvariant.PollingAgreesWithLog | app/api/reviews.py:24-38 | For every job in every status: polling reports the status last told by the log, the job's usage, a result exactly for done jobs, that of the finding events, and an error exactly for failed ones, that of the last event |
| DatabaseInvariant.LastStatusIsRow | app/services/events.py:8-26 | The last status event of a log is the status of the row |
| Database.NextSequence | app/services/events.py:14-17 | Under gap-free numbering, max + 1 is the next natural number |
| Database.AppendAllNumbered | app/services/events.py:8-26 | Appending events one after the other keeps numbering gap-free and the older events in place |
| Database.RecoverFirstRows | app/services/jobs.py:139-146 | Recovery touches exactly the running rows, each of which becomes queued with one more event |
| Database.ErrorText | app/workers/review_worker.py:142-142 | The stored error is the exception's text, its first 1000 characters if it is longer, and the fixed text if it is empty |
| Progress.WorkLowers | app/workers/review_worker.py:29-153 | Every claim, finish or due failure lowers 2 * queued + running by exactly one |
| Progress.WorkGoesOn | app/workers/review_worker.py:72-153 | With at least one worker, the clock in order and no job lost, work is stuck exactly when every job has ended, whatever providers answer |
| Progress.StalledIffOrphans | app/workers/review_worker.py:79-90 | With the clock in order, work is stuck exactly when every worker rests with nothing queued or waits for a source that was lost while running |
| Progress.StalledIffSourcesQueued | app/workers/review_worker.py:79-90 | Without any assumption on the clock, unfinished work with no job lost is stuck exactly when every worker holds a follower whose source is still queued |
| Progress.ClockRegressionStalls | app/workers/review_worker.py:30-36 | A concrete run: two submissions of one request, the second not created later, one worker, and work is stuck for ever |
| Progress.LostSourceStalls | app/workers/review_worker.py:135-181 | A concrete run with the clock in order: the only worker loses a source in a raising failure transaction, claims its follower, and work is stuck for ever |
| Progress.StepKeepsFifo | app/workers/review_worker.py:29-46 | Claims being first in first out, the source of a running follower is never queued: kept by every step |
| Progress.RunKeepsFifo | app/workers/review_worker.py:29-46 | The same over every run with the clock in order, crashes included |
| Progress.OrphansComeFromLosses | app/workers/review_worker.py:133-181 | A running job without a worker arises only from a failure transaction that raised; a restart leaves none |
| Progress.StepKeepsHealthy | app/workers/review_worker.py:156-181 | Health (the invariant, first in first out, no lost job, a worker) is kept by every submission, claim, outcome and restart at which no job is lost |
| Progress.RunKeepsHealthy | app/workers/review_worker.py:156-181 | The same over every run without losses |
| Progress.Drain | app/workers/review_worker.py:156-181 | From a healthy state, once submissions stop, the workers take exactly 2 * queued + running more steps in any interleaving, after which every job has ended |
| Progress.ServiceDrains | app/workers/review_worker.py:156-181 | The same of every service started with a worker, after any submissions, outcomes and restarts that lose no job |
| Progress.RestartedServiceDrains | app/services/jobs.py:139-146 | The same after any past, losses included, from the next restart on |
| Progress.RestartMakesHealthy | app/services/jobs.py:139-146 | After any run from an empty store, losses and crashes included, a restart leads to a state that drains |
| Progress.RunningJobsAreHeld | app/workers/review_worker.py:165-176 | With no job lost the running jobs are the held ones, at most one for each worker |
| Transparency.CacheIsTransparent | app/workers/review_worker.py:49-132 | In every reachable state a done job's findings are the normalised review of its own diff cut to its own limit, whether or not it hit the cache |
| Transparency.DrainOutcome | app/workers/review_worker.py:79-153 | From a healthy state, a job that drains ends done exactly when the review of its request had succeeded or was undecided and the provider answers; else failed, and polling tells the provider's reason or, of a follower, that its source failed |
| Transparency.ServiceOutcome | app/workers/review_worker.py:79-153 | The same of every unfinished job of a started service that has lost none, whatever it has taken by then |
| Transparency.RestartedServiceOutcome | app/services/jobs.py:139-146 | The same after any past, losses included, from the next restart on |
| Transparency.WorkKeepsFate | app/workers/review_worker.py:79-153 | No step of work changes what becomes of a request, and a job it ends, ends accordingly |
| Database.MaxSequenceIsMax | app/services/events.py:14-17 | The aggregate is an upper bound of all numbers in the log and is taken by one of them, or 0 for none |
| ReviewStore.AppendedNumber | app/services/events.py:14-25 | Whatever state a log is in, the new event's number is above all numbers in it, so none is given twice; a gap-free log stays gap-free |
| ReviewStore.Store.AppendEvent | app/services/events.py:8-26 | In place: one event is added at the end of one log and no other log changes; its number was not yet taken, and it is the next one if the log was gap-free |
| ReviewStore.Store.CreateOrReuseJob | app/services/jobs.py:74-136 | In place: answers and changes the tables as the submission transaction, on every branch |
| ReviewStore.Store.ClaimJob | app/workers/review_worker.py:29-46 | In place: claims a job created no later than any other queued one, or changes nothing when none is queued |
| ReviewStore.Store.FinishFromCache | app/workers/review_worker.py:49-69 | In place, event by event: the follower's transaction, or no effect while the entry holds no result |
| ReviewStore.Store.CompleteSource | app/workers/review_worker.py:98-132 | In place, event by event: the source's success transaction, or no effect when the cache row is missing |
| ReviewStore.Store.RecordFailure | app/workers/review_worker.py:135-153 | In place: the failure transaction |
| ReviewStore.Store.RecoverAbandonedJobs | app/services/jobs.py:139-146 | In place, row by row: recovery |
| ReviewStore.Store.ProcessJob | app/workers/review_worker.py:72-153 | Ends the held job unless it is a follower that must wait, and by exactly the protocol step that is due, missing rows included |
| ReviewStore.Store.WorkerLoop | app/workers/review_worker.py:156-181 | One worker on recovered tables terminates with every job ended and what had ended before unchanged |
| Stream.EventsAfterIsAfter | app/services/events.py:29-39 | The query returns exactly the log entries above the cursor, in order, and nothing for a cursor beyond the log |
| Stream.SendBatch | app/api/reviews.py:86-96 | A batch is sent whole and in order, the cursor follows it, and the stream closes exactly when its last event ends the job |
| Stream.StreamReview | app/api/reviews.py:78-102 | What a reader was sent is the log of the last query without its first Last-Event-ID entries, all of it without an id or with a negative one, numbered consecutively from the id plus one; the stream ends in the first turn that shows the end of the job, finds it failed with no news, or finds the client gone, and for that reason |
| Stream.StreamInTwo | app/api/reviews.py:78-102 | Two runs of the loop: a reader cut off after any event that comes back with its id has in the end been sent exactly what lies above its first cursor, every event once, consecutively numbered |
| Stream.EndedJobCloses | app/api/reviews.py:83-102 | A job that has ended closes a stream in any turn exactly when it failed or the cursor is below its last event |
| Stream.DoneStreamPolls | app/api/reviews.py:83-102 | A concrete run: a stream of a done job opened at its last event polls through any number of turns |
| Stream.ClosingIsLast | app/api/reviews.py:93-96 | Nothing follows an event that closes streams, and a log has one exactly when its job has ended |
| Stream.DeliveredIsComplete | app/api/reviews.py:93-96 | A stream closed by an event has sent the job's last event for all time: done with its usage, or failed with its error |
| Stream.FailedCloseMisses | app/api/reviews.py:97-99 | For every cursor: a stream closed on a failed row missed exactly what a reconnect delivers; for a cursor within the log, the events committed between query and refresh |
| Stream.ResumeContinues | app/api/reviews.py:78-85 | Stopping after any event and resuming from its id gives the same total sequence as one stream |
| Stream.ReadersSeeOneHistory | app/api/reviews.py:83-102 | Every interleaving of a reader with a legal run gives the snapshots that the stream results ask for |
| Parser.ParseUnifiedDiff | app/diff/parser.py:56-121 | The loops compute the specification function, each error in its order |
| Parser.ParseFile | app/diff/parser.py:73-117 | One section: headers, path and body, or the first error |
| Parser.ScanBody | app/diff/parser.py:86-115 | The inner state machine computes the fold of its one-line transition |
| HunkHeader.HunkStartMatchesPattern | app/diff/parser.py:33-33 | The header scanner accepts exactly the lines the pattern describes and reads the captured number |
| ParserSoundness.HeaderReadBack | app/diff/parser.py:89-94 | A written hunk header reads back as the number of the hunk's first new-side line |
| ParserSoundness.AddedLineRecordedIff | app/diff/parser.py:100-105 | One line: an added line is recorded if and only if its text does not start with "++"; otherwise nothing is recorded and the line number is forgotten |
| ParserSoundness.DeletedLineSkippedIff | app/diff/parser.py:112-115 | One line: a deleted line leaves the state alone if and only if its text does not start with "--"; otherwise the line number is forgotten |
| ParserSoundness.RestOfHunkLost | app/diff/parser.py:95-96 | Once the line number is forgotten, the rest of the hunk is passed over unrecorded |
| ParserSoundness.HunkScanned | app/diff/parser.py:95-115 | For every contents: scanning a written hunk records exactly its new side up to the first inserted "++" or deleted "--" text, with consecutive numbers, and nothing after that in the hunk |
| ParserSoundness.HunkSoundIff | app/diff/parser.py:95-115 | The recorded lines of a hunk are its whole new side if and only if no inserted text starts with "++" and no deleted text that starts with "--" is followed by a new-side line |
| ParserSoundness.ScriptScanned | app/diff/parser.py:86-115 | Scanning a written edit script records exactly what is read of its hunks, each hunk starting afresh |
| ParserSoundness.ScriptReadIffReadable | app/diff/parser.py:86-115 | What is read is a selection of the new-side hunk lines of the patched file, all of them if and only if every hunk is readable |
| ParserRoundTrip.SectionsFound | app/diff/parser.py:45-68 | The sections of a rendered diff are found exactly, git-style or plain |
| ParserRoundTrip.FileSectionShape | app/diff/parser.py:45-53 | A rendered section is taken for one file if and only if the diff is git-style or no deleted "-- " text stands right before an inserted "++ " one |
| ParserRoundTrip.SectionParsed | app/diff/parser.py:73-117 | A rendered file section parses to the file's path, its own text and what is read of its script |
| ParserRoundTrip.ParseReadsRender | app/diff/parser.py:56-121 | Parsing any rendered diff whose files can be told apart returns the paths in order, each with its own text and what is read of it; one without any hunk is refused |
| ParserRoundTrip.ParseOfRender | app/diff/parser.py:56-121 | Parsing a rendered diff returns exactly the paths, texts and new-side hunk lines of the patched files if and only if there is a hunk and every file is readable and cannot be taken for two |
| ParserRoundTrip.ParsedLinesAreThePatch | app/diff/parser.py:88-115 | For every contents: each recorded line stands in the patched file under its number and with its text, `added` exactly if inserted; they are all the new-side hunk lines if and only if the script is readable |
| FinalNewline.FinalNewlineIrrelevant | app/diff/parser.py:56-121 | On every text with an unterminated last line: terminating it changes nothing but the raw text of the last file |
| FinalNewline.HunkStartLonger | app/diff/parser.py:33-33 | A hunk header is recognised alike with and without its terminator |
| FinalNewline.UnterminatedRender | app/diff/parser.py:56-121 | Every rendered diff without its last terminator is read as the whole one |
| FailingDiffs.InsertedPlusPlusLost | app/diff/parser.py:100-105 | A concrete diff: after an inserted "++i;" neither of two inserted lines is recorded |
| FailingDiffs.KeptAfterDashesLost | app/diff/parser.py:112-115 | A concrete diff: the line kept after a deleted "-- old" is not recorded |
| FailingDiffs.MimickedHeader | app/diff/parser.py:49-53 | A concrete plain diff: a deleted "-- a" before an inserted "++ b" is taken for the headers of another file |
| ParserTotals.RawsCoverDiff | app/diff/parser.py:65-84 | On every accepted input the raw texts concatenate to the diff from its first section on, at least one file results, and byte sizes add up |
| ParserTotals.LinesAreNumbered | app/diff/parser.py:86-115 | On every accepted input the lines of one hunk are numbered consecutively from its header's start, and deletions record nothing |
| LineByLine.RecordedLines | app/diff/parser.py:86-115 | On every accepted input, by positions: exactly the "+" (not "+++") and " " lines between a hunk header and the first later line of no known kind or the next header are recorded, in order, each with the header's number plus the new-side lines before it, its text and its kind; from a line of no known kind to the next header nothing is; the path is the one named by the first "+++ " line |
| LineByLine.LineEffect | app/diff/parser.py:89-115 | What one line does, by its first characters: start a hunk, nothing, record, or forget the number |
| LineByLine.SectionsStartAt | app/diff/parser.py:45-53 | A line starts a section exactly if it is a "diff --git " line, or, in a text without one, a "--- " line right before a "+++ " line |
| LineByLine.AcceptedIff | app/diff/parser.py:56-121 | Exactly which texts are accepted, and as what each other text is refused |
| PathNames.CleanPathIs | app/diff/parser.py:36-42 | For every header text: the path is the name without what follows a tab, the space around it, its quotes, and then a leading "a/" or "b/" |
| PathNames.CutHeader | app/diff/parser.py:36-42 | Every header text can be cut up so |
| HunkHeader.PlaceValue | app/diff/parser.py:91-91 | The number of a header is the value of its digits by place |
| Utf8.DecodeEncode | app/diff/parser.py:25-26 | The encoding that sizes are taken of, UTF-8 as in section 3 of RFC 3629, is decoded back to the text |
| Utf8.LengthOfEncoding | app/services/jobs.py:69-69 | The sizes counted are the lengths of that encoding |
| Chunker.ChunkFileDiffs | app/diff/chunker.py:19-42 | The chunks concatenate to the files, none is empty, each fits or is one file, and no allowed in-order split is shorter; the inner flush never runs |
| Chunker.GreedyIsSplit | app/diff/chunker.py:24-42 | From any open chunk, the greedy result is a valid split without empty chunks |
| Chunker.OpenChunkCost | app/diff/chunker.py:26-38 | A longer open chunk costs at most one chunk more: the exchange step of optimality |
| Chunker.GreedyIsOptimal | app/diff/chunker.py:19-42 | No in-order contiguous split into allowed parts uses fewer chunks |
| Chunker.OnlyFullSplit | app/diff/chunker.py:19-42 | A list of chunks is the result if and only if it is an in-order split into non-empty allowed chunks none of which could have taken the next file as well |
| Findings.DedupContents | app/workers/review_worker.py:21-21 | The dict keeps one finding per id, the last one given, in the order in which ids first occurred |
| Findings.NormalisedContents | app/workers/review_worker.py:20-26 | The normalised result is sorted by (path, line, ruleId), has unique ids, keeps exactly the last finding of each id, ties in order of first occurrence |
| Findings.OrderedContents | app/workers/review_worker.py:20-26 | With a limit: sorted, one finding per id, the last one given, as many as the limit allows, and what is cut off comes after all that is kept |
| Findings.KeyOrder | app/workers/review_worker.py:24-24 | The order is by path, then line, then rule id, strings compared at their first difference by code point |
| Findings.OrderedTwice | app/workers/review_worker.py:53-53 | order(order(fs, M), m) = order(fs, min(M, m)) |
| Findings.OrderedOfNormal | app/workers/review_worker.py:53-53 | Normalising a normal form only cuts it, so re-ordering cached findings is the identity |
| Findings.OrderedDependsOnSet | app/workers/review_worker.py:20-26 | When ids and keys decide findings, the result depends only on the set of findings |
| Findings.CollidingIdsExposeOrder | app/workers/review_worker.py:21-21 | Of two different findings under one id the last is kept, so without that the order shows |
| MockProvider.ScanBody | app/providers/mock.py:98-119 | The nested loops close exactly when the joined text has an unmatched closing brace, and the body is exactly the text before the first |
| Comments.BlockCommentVanishes | app/providers/mock.py:123-123 | The first block comment of a text is removed up to its first closing mark, newlines included; what precedes it is kept and the rest treated alike |
| Comments.NoBlockComment | app/providers/mock.py:123-123 | A text in which no opening mark is followed by a closing one is kept whole |
| Comments.FirstBlockComment | app/providers/mock.py:123-123 | Every other text has a first block comment, so the two say what is left of every text |
| Comments.LineCommentVanishes | app/providers/mock.py:124-124 | The first line comment of a text is removed up to its newline, which stays, or to the end; what precedes it is kept and the rest treated alike |
| Comments.NoLineComment | app/providers/mock.py:124-124 | A text without the mark is kept whole |
| Comments.FirstLineComment | app/providers/mock.py:124-124 | Every text with the mark has a first line comment |
| Comments.PlainTextKept | app/providers/mock.py:123-124 | Text without a slash is left alone by both substitutions |
| Comments.BlocksCutIff | app/providers/mock.py:123-123 | A text is what the first substitution leaves if and only if it is the original with its block comments, leftmost first, taken out |
| Comments.LinesCut | app/providers/mock.py:124-124 | The second substitution keeps exactly the characters that stand in no line comment, from a "//" up to its newline |
| Comments.OnlyCommentsIff | app/providers/mock.py:122-125 | A body counts as empty if and only if, its block comments taken out leftmost first, every character left is space or stands in a line comment |
| Comments.BlockCommentCounts | app/providers/mock.py:122-125 | Behind space, a block comment can be left out whatever it holds but its closing mark |
| Comments.LinkInBlockComment | app/providers/mock.py:122-125 | A block comment that holds a link counts as empty: its "//" opens no line comment |
| MockProvider.EmptyCatchLines | app/providers/mock.py:84-127 | Returns exactly the added catch lines whose block, read within their hunk, holds only comments and blanks, grouped by hunk |
| MockFindings.EmptyCatchesAre | app/providers/mock.py:84-127 | By positions, for every list of lines: exactly the added lines are found with a catch after which, on the rest of the line and the later lines of its hunk, the brace is closed around nothing but space and comments; each once, hunk after hunk as first seen, line after line |
| MockFindings.RulesOnLines | app/providers/mock.py:138-141 | The rules report exactly the added lines that their patterns match, line after line and rule after rule |
| MockFindings.FileHitsInOrder | app/providers/mock.py:137-145 | A file's hits are those of the rules in that order, then its empty catch blocks in theirs |
| MockFindings.ReviewReports | app/providers/mock.py:19-146 | For every list of files a finding is reported if and only if it has the path, number and text of an added line, the id made of rule, path and number, the severity, category and title of its rule, and the rule matches the line or, for MOCK-004, its catch block is empty |
| MockProvider.Review | app/providers/mock.py:130-146 | Returns the findings of every rule hit and empty catch in order, or fails |
| MockProvider.BuildsIff | app/providers/mock.py:71-81 | Findings can be built exactly when every hit is on a line numbered from one, and then one for each hit |
| ZeroLines.ReviewFailsIff | app/providers/mock.py:130-146 | On every accepted diff: the provider fails if and only if it reports the first recorded line of a hunk whose header starts at 0 |
| ZeroLines.PositiveStartsReviewed | app/providers/mock.py:130-146 | Every accepted diff whose headers all start at 1 or more is reviewed |
| ZeroLines.ZeroDiffFails | app/schemas.py:39-39 | A concrete diff with a hunk at +0 is accepted, records a line numbered 0, and the provider that reports it fails |
| MockProvider.ChunkLimitIrrelevant | app/providers/mock.py:136-146 | The findings, in order, are the same for every chunk limit |
| ProviderIndependence.FindingIdInjective | app/providers/mock.py:73-73 | Finding ids are injective in rule, path and line, even for paths with colons |
| ProviderIndependence.MockIdsDecide | app/providers/mock.py:71-81 | When recorded lines do not contradict each other, equal ids mean equal findings and sort keys decide ids |
| ProviderIndependence.FileOrderIrrelevant | app/providers/mock.py:136-146 | The normalised findings depend only on which files there are |
| Pipeline.SubmissionUsage | app/services/jobs.py:44-71 | Exactly the submissions whose diff parses are accepted; one asks for what its request asks for under the hash of its body, and reports the bytes of its diff and between one chunk and one a file, the fewest possible |
| Pipeline.ReviewSource | app/workers/review_worker.py:92-97 | Parsing, chunking and reviewing a source give an answer in which, for the mock provider, chunks do not occur |
| Pipeline.MockJobsAreExact | app/workers/review_worker.py:72-132 | In every reachable state polling a done mock job gives the normalised mock findings of the files of the diff that was submitted, cut to the limit that was given |
| Pipeline.LlmJobsAreExact | app/workers/review_worker.py:92-99 | The same for the language model, which is given a shortest in-order split of the submitted diff's files into allowed chunks; the usage reported counts those chunks |
| Pipeline.MockServicesAgree | app/providers/mock.py:130-146 | Services with other chunk limits, workers and histories report the same findings for done mock jobs whose submitted diffs hold the same files in any order |
| RateLimiter.WindowSafety | app/core/rate_limit.py:25-35 | Over whole runs every interval (a, a + window] holds at most `limit` acceptances |
| RateLimiter.DecisionOfRun | app/core/rate_limit.py:32-38 | Over the full history of a run: a call is refused only when the window holds exactly `limit` acceptances, never more, so the limiter raises IndexError, from the empty deque, exactly when the limit is below one |
| RateLimiter.DecisionByPosition | app/core/rate_limit.py:25-52 | A call is accepted exactly if the limit is at least one and the acceptance `limit` places back does not exist or lies a whole window in the past; else the wait told is the least whole number of seconds, one at least, after which it does |
| RateLimiter.SpanSafety | app/core/rate_limit.py:25-35 | Over whole runs any `limit` + 1 acceptances in a row span a whole window at least |
| RateLimiter.RetryAfterExact | app/core/rate_limit.py:37-52 | Retry-After r is between 1 and the window rounded up; a call at now + r is accepted, one up to now + r - 1 refused, if nobody else is accepted |
| RateLimiter.SlidingWindowRateLimiter.Consume | app/core/rate_limit.py:23-52 | The pruned deque decides as the full history does, and never exceeds the limit |

## Left out

- HTTP, authentication, middleware, error envelopes and the idempotency key's length limit.
- SQL, sessions and migrations. A transaction is atomic and one that raises changes nothing; exceptions after a successful commit are not modelled.
- The IntegrityError branch of submission (app/services/jobs.py:125-135): submissions are serialised by the lock in one process.
- Several processes on one database: recovery assumes one.
- The language model provider: an arbitrary function of the chunks in `Pipeline`, an arbitrary answer in `Protocol`.
- The rule patterns and the catch pattern: parameters of `MockProvider` (`Patterns`).
- HunkHeader.HunkStartMatchesPattern: digits are the ASCII digits, while the header pattern also accepts other decimal digits; integers of more than 4300 digits, which raise in the original, are not modelled.
- Lone surrogates, which cannot be encoded and raise in the original.
- SHA-256 and canonical JSON: requests stand for their own hashes, stored findings for their JSON.
- Backslash escapes in quoted paths: the code does not decode them, nor does the model.
- The other timestamps of rows (started, updated, completed), and idle polling turns, which change nothing.
- The limiter's wiring: app/main.py:14 and 37 use a `TokenBucket` that app/core/rate_limit.py does not define. The class that file defines, and README.md:225 describes, is modelled.
- Clocks of the limiter and window lengths are real numbers, not floats; the lock is the atomicity of one call.
- Fairness: `Drain` counts the steps of workers that keep moving; how long a provider takes is not modelled.
- ParserRoundTrip.ParseOfRender: names, stamps, headings and the lines shown in hunks hold no line boundary of their own, extended header lines do not look like headers, and paths survive the trimming of the "+++" line; all lines of one diff end alike. Nothing is asked of lines that are passed over, and the last terminator may be missing (`FinalNewline`).
- ParserRoundTrip.ParsedLinesAreThePatch: the same.
- ReviewStore.Store.WorkerLoop: one worker, until nothing is queued, with failure transactions that succeed; any number of workers, later submissions and raising failure transactions are in `Protocol` and `Progress`.
- The aggregate `max(sequence)` and the oldest-queued query are written as a function and a loop over rows in order of insertion; which of several equally old jobs is claimed is left open.
