# Sniff: a verified model of its review engine, journal, lexers and readers

Sniff reviews the methods of a repository with a language model. This project models the parts
of it whose correctness is hardest to see from the code, in Dafny, and proves what they promise.
Lines are cited by path in the Sniff repository.

## What is modelled

**The review engine and its journal.**
`ReviewScheduler` is the bounded scheduler with exclusive file keys and a spend budget. `State` and
`Next` are its protocol; one step is one observation, start, charge or join, and tasks end in any
order and any way. `Scheduler` is the loop itself, with its fields, and records the run it makes, so
that every theorem about runs is a theorem about it. A task that panics keeps its keys, as in the
code: exact key ownership is therefore stated for runs without an error.
`ReviewGrouping` packs pending reviews into batches. `BatchWorklist` runs one unit and halves failing
batches. `BatchRepair` asks again for the items of a batch that were not answered properly, and
`MethodKeys` says which key names which of them.
`JournalFile` is the append-only file with a crash possible at every byte, and `JournalReading` says
when it cannot be read; `JournalStore` is the store on top of it, and `JournalCodec` a codec that meets
what both ask of theirs. `ReviewResume`
follows whole histories of runs, crashes and other scans over one journal: `Happens` is one step, and
the code that starts a scan and records its reviews is shown to take such steps only. `ReviewResult` is
the coverage check and the ordered result, and `ReviewRun` puts a scan together, from its queue over
any scheduler run to that result; `ReviewJournaling` shows that all it writes on the way is a history.
`JobIdentity` is the text behind a unit's journal key: equal texts mean equal reviews, and so, as
`ReviewIdentity` shows, a unit id determines its job, which `ReviewResume` relies on.

**The repository index and the lexers.**
`IdentifierIndex` is the inverted identifier index and the line scan it replaces. `JsMask` is the
eight-state JavaScript masker over a byte buffer, `JsReturnedObjects` the finder of returned object
literals in its output, `PythonScanner` the bracket and quote scanners for Python. `JsRegexStart` and
`PythonText` say what these find in code as it is written, and `Utf8Text` what UTF-8 is.

**Evidence and patch readers.**
`EvidenceRange` anchors a quote to source lines by three search routes, and `EvidenceChoice` says which
range is given and when none is. `PatchFrame` classifies a
unified diff by a line state machine and is compared with a structured diff. `ExecutionTrace` runs a
plan on two snapshots and accepts the evidence of such a run.

**The TypeScript project graph.**
`ProjectGraph` covers discovery, closures, root selection and the worlds built from them.

`Text`, `Bytes`, `Sequences`, `Sorting` and `Wrappers` hold what several modules share. Automatic
induction is switched off for lemmas whose proof is an induction.

## Assumptions

- The model, the TypeScript compiler, the prompt renderer, the response parsers and the role
  classifier are arbitrary functions; nothing is assumed of their answers.
- A serialized journal entry is one non-empty line without raw control characters (section 7 of
  RFC 8259) that does not end in a carriage return, and reads back as itself
  (`JournalCodec.FaithfulCodec` shows that this can be met).
- A crash is fail-stop: the write in progress stops at some byte, and the next event is a reload.
  There is a single writer.
- SHA-256 is injective on the identity texts; hashes are compared, never computed.
- In the scheduler costs are reals, never negative where the budget bound needs it. In the journal a
  rate is a whole number of price units per million tokens and a cost a whole number of millionths.
- The paths a TypeScript parse can report are those of a finite file tree.
- A parser's line count of a method is some function of its first and last line.

## What the code does not do

Five promises that one would expect hold only under a condition, which is proved exact.

- A settled unit stays settled exactly when job lists repeat no unit id
  (`ReviewResume.SettledForeverExactlyWhen`); otherwise a second result of the unit can replace it.
- A finished scan passes its own coverage check exactly when no two method jobs share a unit id
  (`ReviewResult.CoverageHoldsExactlyWhen`); otherwise it fails although every job was reviewed.
- The patch classifier reads a file's path as it is exactly when git prints it unquoted and it does
  not end in white space (`PatchFrame.SideIsReadExactlyWhen`). By default git quotes names with
  characters outside ASCII, and one such name makes the whole patch malformed
  (`PatchFrame.QuotedNameIsRejected`).
- Not every project lies in some root's world: a reference cycle nobody leads into, and a base
  that is extended but not referenced, are left out, and sources only they select become loose
  (`ProjectGraph.CycleIsLeftOut`, `ProjectGraph.ExtendedBaseIsLeftOut`).
- A repeated review key does not simply drop a slot: the second use clears it and the third fills
  it again (`BatchRepair.SlotIsFilledOnOddUses`). The error list still reports it.

## Model

| member | source | states |
|---|---|---|
| `ReviewScheduler.NextKeeps` | src/analyzer_engine_jobs.rs:148-194 | every single step, whichever task ends next and however it ends, keeps the whole invariant: slot bound, exact key ownership, conservation of units, the reason for an idle slot, and affordability |
| `ReviewScheduler.EveryRunIsSafe` | src/analyzer_engine_jobs.rs:125-203 | in every state of every interleaving: at most max(1, max_concurrency) tasks run, no two share a key, pending, running and settled units together are a permutation of the input, and while no error has occurred the held keys are exactly those of the running tasks |
| `ReviewScheduler.NothingStartsAfterTheFirstError` | src/analyzer_engine_jobs.rs:149-191 | between the first error and any later state nothing starts, the queue and the error stay as they are, and results already handed over stay |
| `ReviewScheduler.InFlightUnitsSettleAfterAnError` | src/analyzer_engine_jobs.rs:172-197 | by the end of a run with an error exactly the units that were in flight have settled, and every success among them was both handed to the completion callback and kept |
| `ReviewScheduler.EarlyStopMeansBudgetExhausted` | src/analyzer_engine_jobs.rs:1266-1274 | a finished run without error leaves work behind only when a limit exists and is reached, so the limit can be unwrapped; otherwise the completed units are a permutation of the input: no deadlock is reachable |
| `ReviewScheduler.WaitingIsJustified` | src/analyzer_engine_jobs.rs:149-163 | no slot stays free while there is work: a run without error that waits with a free slot and with budget left has only units pending that share a key with a running one |
| `ReviewScheduler.SpendStaysBounded` | src/analyzer_engine_jobs.rs:109-123 | once any unit has started, spend stays below the limit plus one full unit cost per slot |
| `ReviewScheduler.StartsDoNotOvertake` | src/analyzer_engine_jobs.rs:153-163 | a start never passes over an earlier unit whose keys are all among its own |
| `ReviewScheduler.SchedulingTerminates` | src/analyzer_engine_jobs.rs:148-194 | every step except charging the budget strictly uses up a finite measure |
| `ReviewScheduler.FirstEligible` | src/analyzer_engine_jobs.rs:153-158 | the first pending unit none of whose keys is held, or a proof that there is none |
| `ReviewScheduler.Scheduler.FillSlots` | src/analyzer_engine_jobs.rs:149-166 | the filling loop extends the recorded run by legal steps only and ends waiting |
| `ReviewScheduler.Scheduler.JoinNext` | src/analyzer_engine_jobs.rs:172-193 | joining a task takes the step its report calls for: an accepted result completes the unit, a rejected one aborts with the rejection, an error or a panic is kept if it is the first; and the step is legal |
| `ReviewScheduler.Scheduler.Run` | src/analyzer_engine_jobs.rs:125-203 | the loop passes only through states of a legal run; its result is the one that the reports of the joined units determine; units are left unjoined only by a failure or by a stop with the limit reached, and otherwise the joined units are a permutation of the input |
| `ReviewScheduler.ResultsAreReported` | src/analyzer_engine_jobs.rs:172-197 | a run succeeds exactly when every unit it joined reports an accepted result, and then its results are those in the order of joining; a failure carries the first error or panic of a joined unit, or the rejection of the last one; and a run whose units all report accepted results succeeds |
| `JournalFile.File.Append` | src/analyzer_journal.rs:1160-1180 | an append that returns adds exactly one serialized line |
| `JournalFile.File.ValidLength` | src/analyzer_journal.rs:1107-1110 | the recovery length is where the last complete line ends |
| `JournalFile.File.ReadEntries` | src/analyzer_journal.rs:1094-1158 | the loop returns what the file means line by line, skips a torn tail, fails on a complete line it cannot read, and truncates to the recovered bytes exactly when asked to |
| `JournalReading.ReadingFailsExactlyWhen` | src/analyzer_journal.rs:1094-1158 | reading fails exactly when some newline-terminated non-empty line is rejected by the parser once the carriage returns at its end are cut, and it names the first such line |
| `JournalReading.TrimmingCutsReturns` | src/analyzer_journal.rs:1141-1150 | what the parser gets of a line is the line without the carriage returns at its end, and nothing else is cut |
| `JournalFile.ReadAfterTear` | src/analyzer_journal.rs:1105-1158 | complete lines followed by any torn tail read back as exactly those entries, and recovery cuts the file back to them |
| `JournalFile.RecoveryPreservesReading` | src/analyzer_journal.rs:1105-1126 | on any bytes at all, recovery leaves the file empty or newline-terminated and changes nothing that reading reports, errors included |
| `JournalFile.AppendReads` | src/analyzer_journal.rs:1160-1180 | appending to any readable untorn file adds exactly the new entry to what it reads as |
| `JournalFile.EventKeepsConsistent` | src/analyzer_journal.rs:1094-1180 | one append, one crash at any byte, or one reload keeps the file a rendering of the durable entries plus a newline-free tail, and loses nothing durable |
| `JournalFile.CrashSafety` | src/analyzer_journal.rs:1094-1180 | after any sequence of appends, crashes at any byte and reloads, reading returns exactly the entries whose newline reached the file, in order |
| `JournalFile.EmptyFileIsConsistent` | src/analyzer_journal.rs:1095-1103 | a missing file is a legal start |
| `JournalStore.CompletedIsTheLastMatch` | src/analyzer_journal.rs:1082-1086 | a reload keeps for each unit the last non-manifest entry of this cache, and keeps none exactly when there is none |
| `JournalStore.ReusableExactlyWhen` | src/analyzer_journal.rs:76-88 | an entry can be reused exactly when it is not to be retried and, in method review, holds a verdict, with the record if that is a method's |
| `JournalStore.LoadAfterAppend` | src/analyzer_journal.rs:1061-1092 | how one more entry of the context changes every part of a reload |
| `JournalStore.OneMoreEntry` | src/analyzer_journal.rs:1061-1092 | what one more entry of any kind changes in a reload, by its fields: spend for this scan id and version, tokens for its stage too, a completion for a result of this stage and review context; another scan, version or stage changes none of these |
| `JournalStore.WhatIsWritten` | src/analyzer_journal.rs:281-568 | which operations append an entry, and whose: a result of the store's own stage, a usage that used something, every reuse mark; always for this scan, and only results count as results |
| `JournalStore.ResultsAreReloaded` | src/analyzer_journal.rs:281-350 | after a recorded result a reload holds it for its unit as it was recorded, and has charged its price and its tokens |
| `JournalStore.UsageIsReloaded` | src/analyzer_journal.rs:476-568 | after a usage event a reload has charged its price and its tokens, after a reuse mark nothing, and completions are as before |
| `JournalStore.UnitPrices` | src/pricing.rs:30-41 | one input token costs the input rate, a cached one the cached rate, an output token the output rate; more cached tokens than there was input count as all of it |
| `JournalStore.PricesAddUp` | src/pricing.rs:30-41 | prices add up over any two usages |
| `JournalStore.UpdateIsReload` | src/analyzer_journal.rs:281-350 | for each kind of operation, the update made in memory equals reloading the file with the appended entry |
| `JournalStore.IncrementalStateRefinesReload` | src/analyzer_journal.rs:281-568 | after any sequence of record, usage and reuse operations the memory equals a fold over the whole file |
| `JournalStore.Store.RecordResult` | src/analyzer_journal.rs:281-350 | refused exactly on another stage; otherwise appends the entry and keeps memory equal to a reload |
| `JournalStore.Store.RecordUsage` | src/analyzer_journal.rs:476-530 | appends nothing for an empty usage; otherwise keeps memory equal to a reload |
| `JournalStore.Store.RecordCrossScanReuse` | src/analyzer_journal.rs:532-568 | appends a reuse mark that changes neither completions nor totals |
| `JournalStore.Store.EnsureStageManifest` | src/analyzer_journal.rs:766-810 | afterwards the file holds a manifest entry of this version, scan and stage; one is appended exactly when none was there |
| `JournalStore.LoadForScan` | src/analyzer_journal.rs:251-279 | loading fails exactly when a complete line is unreadable, and otherwise gives a store that agrees with its file, which then holds a manifest of this scan and stage |
| `JournalCodec.FaithfulCodec` | src/analyzer_journal.rs:1160-1180 | the hypothesis on the writer and reader of entries can be met: some codec writes every entry as one safe line and reads it back |
| `ReviewResume.BeginScan` | src/analyzer_engine_jobs.rs:1031-1144 | a scan up to its first review, from the bytes of the file: it fails exactly when the journal is unreadable, queues and reuses what the entries say, and what it appends is a legal history that ends in a running scan |
| `ReviewResume.SortJobs` | src/analyzer_engine_jobs.rs:1087-1144 | the job loop queues exactly the jobs without a reusable entry of the current source, returns the others from the journal, its own re-recording never changes that sorting, afterwards every reused result is recorded under this scan, nothing is appended if all of them were, and its appends are steps of the protocol |
| `ReviewResume.SparedExactlyWhen` | src/analyzer_engine_jobs.rs:1087-1144 | a job is spared a review exactly when the last result that the journal holds for its unit, stage and review context is of its very source, complete (a verdict, and a record if it is a method's) and not to be retried |
| `ReviewResume.ReusedAreAsHeld` | src/analyzer_engine_jobs.rs:1087-1144 | what is reused for a job is the verdict and the record that the journal holds for it, no longer to be retried |
| `ReviewResume.Rerecord` | src/analyzer_engine_jobs.rs:1102-1126 | re-recording under this scan appends a mark and a repeated result, keeps the unit reusable with the same verdict and record, and touches no other unit |
| `ReviewResume.CompleteItem` | src/analyzer_engine_jobs.rs:1158-1195 | the item callback appends the result of an open unit, which is a step of the protocol |
| `ReviewResume.StepKeepsSettled` | src/analyzer_engine_jobs.rs:1087-1195 | one manifest, start over distinct jobs, result, usage or reuse mark, repeated result, foreign write or crash keeps every settled unit settled with the same review |
| `ReviewResume.SettledForever` | src/analyzer_engine_jobs.rs:1087-1195 | over any history of runs with distinct jobs and crashes a settled unit stays settled with the same verdict and record |
| `ReviewResume.SettledForeverExactlyWhen` | src/analyzer_engine_jobs.rs:1087-1195 | what is settled stays settled in every history of scans of a job list exactly when the list repeats no unit id |
| `ReviewResume.RepeatedIdUnsettles` | src/analyzer_engine_jobs.rs:1158-1195 | a history for any list that repeats a unit id: its first result settles the unit and its second one unsettles it |
| `ReviewResume.SettledUnitsAreNeverPendingAgain` | src/analyzer_engine_jobs.rs:1087-1144 | no later run with the same review context queues a settled unit, whatever its scan id and job list |
| `ReviewResume.RecordingSettles` | src/analyzer_journal.rs:76-88 | recording a review settles its unit exactly when it need not be retried and, for a file, there is a verdict |
| `ReviewResume.CrashIsAStop` | src/analyzer_journal.rs:1094-1180 | a crash at any byte of an append ends the run before or after that entry, and the next scan reads exactly the entries of the world it leaves |
| `ReviewResume.OnlyReviewsAreHeld` | src/analyzer_engine_jobs.rs:583-655 | over any history the method-stage results in the journal are reviews of their own units: a method verdict with its matching record, or a file verdict without one |
| `ReviewResume.MethodReviewsRepeatTheJob` | src/report_types.rs:144-158 | a method's review is its own fields, in the verdict and in the record, with a tier and a reason added, and any such is a review of it |
| `ReviewResult.ValidateMethodCoverage` | src/analyzer_engine_jobs.rs:944-997 | succeeds exactly on a one-to-one cover of the expected methods by matching records |
| `ReviewResult.SortOrders` | src/analyzer_engine_jobs.rs:1285 | sorting orders the outcomes strictly by job index and keeps each of them |
| `ReviewResult.CoverageHoldsExactlyWhen` | src/analyzer_engine_jobs.rs:944-997 | with one review per job, reused or new, the coverage check passes exactly when no two method jobs share a unit id |
| `ReviewResult.RepeatedMethodFailsCoverage` | src/analyzer_engine_jobs.rs:976-981 | two equal method jobs, each with its review, fail the check |
| `ReviewResult.ResultListsEveryMethodOnceInJobOrder` | src/analyzer_engine_jobs.rs:1283-1299 | after any history, a run that has a review for each pending job reports exactly one record per method job, in job order |
| `ReviewRun.OutcomesAreReviews` | src/analyzer_engine_jobs.rs:583-695 | every outcome the engine builds for a job, resolved, unresolved or of a file, is a review of that job |
| `ReviewRun.MadeReviewsSayWhatWasReviewed` | src/analyzer_engine_jobs.rs:583-695 | each outcome a run makes has the tier and reason of the review that was replied for its own method or file, or those of an unresolved method if none was credited, and the retry flag of the unit's outcome; an unresolved method is to be retried |
| `ReviewRun.RunUnit` | src/analyzer_engine_jobs.rs:869-898 | a unit of methods runs as its calls determine; a file unit reviews its file; any other unit fails; none of its keys is written too often, and a unit that succeeds writes each key once, through the item callback or the scheduler callback |
| `ReviewRun.FinishedUnitsFinishTheQueue` | src/analyzer_engine_jobs.rs:1275-1281 | however the queue was grouped, and in whatever order the units completed, their outcomes are one review for each pending job |
| `ReviewRun.FinishedScansReportEveryMethod` | src/analyzer_engine_jobs.rs:1031-1300 | the whole scan: after any history, a scheduler run over any grouping of the queue that ends without an error and leaves nothing pending yields exactly one record per method job, in job order; each record says what was reviewed for its method in this run, or is the one the journal held; and coverage passes exactly when no two method jobs share a unit id |
| `ReviewJournaling.WritesAreAHistory` | src/analyzer_engine_jobs.rs:1152-1222 | any sequence of usage events and reviews that records no unit more often than it is open is a history of protocol steps |
| `ReviewJournaling.ReportsMayBeWritten` | src/analyzer_engine_jobs.rs:1158-1195 | what the callbacks report for an outcome is such a review, under the key of its entry |
| `ReviewJournaling.ReportsSettleUnlessRetried` | src/analyzer_engine_jobs.rs:1158-1195 | a method's reported outcome settles its unit exactly when it is not to be retried: an unresolved verdict leaves it unsettled |
| `ReviewJournaling.UnsettledIsQueued` | src/analyzer_engine_jobs.rs:1087-1144 | every later scan of the same cache queues a job exactly when its unit is not settled |
| `ReviewJournaling.ScanWritesAreAHistory` | src/analyzer_engine_jobs.rs:1152-1265 | at every moment of every scheduler run, whatever the callbacks of started units have written and in whatever order, the writes are a history of steps on open units |
| `ReviewIdentity.UnitIdsDetermineJobs` | src/analyzer_engine_jobs.rs:239-415 | with an injective hash one function recovers every job of every scan from its unit id |
| `ReviewGrouping.ChunkByFile` | src/analyzer_engine_jobs.rs:480-510 | the first pass keeps all entries in order and makes lone file chunks and bounded runs of methods of one file; a chunk is closed exactly before a file review, a method of another file, or a method that does not fit behind it |
| `ReviewGrouping.CandidateEstimate` | src/analyzer_engine_jobs.rs:524-538 | the running estimate of packed methods and a chunk is the prompt size with each file shared once, capped at the word size |
| `ReviewGrouping.EachFileCountsOnce` | src/analyzer_engine_jobs.rs:524-538 | a method that joins a group adds its own parts, and its file with 25000 characters exactly when it is the first method of that file |
| `ReviewGrouping.PromptGrowsByParts` | src/analyzer_engine_jobs.rs:439-473 | a caller or callee adds its two lengths and 64, a signal, the context and the source their lengths, and an empty method is 12000 |
| `ReviewGrouping.GroupPendingReviews` | src/analyzer_engine_jobs.rs:475-547 | concatenating the groups gives the input back; a file job is alone, every group is non-empty and within the batch size, and a group of two or more methods fits the prompt; groups consist of whole chunks, and a chunk starts a group exactly when it does not fit behind the one before |
| `ReviewGrouping.GroupingIsUnique` | src/analyzer_engine_jobs.rs:475-547 | these promises leave no choice: any two groupings of the same jobs that keep them are equal |
| `BatchWorklist.AnalyzeBatch` | src/analyzer_method_batch.rs:824-900 | items complete in order, each is journaled as it completes, and an error keeps those before it |
| `BatchWorklist.SplitKeepsQueue` | src/analyzer_engine_jobs.rs:830-851 | halving a batch keeps the queued entries and their order and lowers the measure |
| `BatchWorklist.RunBatch` | src/analyzer_engine_jobs.rs:743-865 | one batch off the queue, as the answer to it determines: it completes with the reviews given, is halved, or is given up as unresolved; it ends the unit exactly on an error that is not recoverable or came after a journaled item |
| `BatchWorklist.DrainQueue` | src/analyzer_engine_jobs.rs:741-867 | the worklist ends within 2n+1 calls, and its result and journal are those of the calls made: it fails exactly when its last call ends it, and otherwise its outcomes are what the calls settle, one per method in the original order with key, index and method still together |
| `BatchWorklist.RunReviewUnit` | src/analyzer_engine_jobs.rs:699-867 | the unit as a whole: a file unit is its file review, a mixed one fails before any call, a method unit is its calls; whatever happens the journal holds each entry at most once, in unit order, with a review given for that very method |
| `BatchWorklist.OneCallIsEnough` | src/analyzer_engine_jobs.rs:798-829 | a unit whose first call can be prepared and reviews every method succeeds after that call, with exactly those reviews |
| `BatchWorklist.FailsExactlyWhen` | src/analyzer_engine_jobs.rs:851-865 | a unit fails exactly when a call of it ends in an error that is not recoverable, or in one that came after an item of its batch was journaled, and no call follows |
| `BatchWorklist.HalvesAreNext` | src/analyzer_engine_jobs.rs:830-851 | a larger batch with an error is halved only if the error is recoverable, and its first half is next |
| `BatchWorklist.OutcomesComeFromCalls` | src/analyzer_engine_jobs.rs:801-829 | every outcome is the reply at its own place in one of the calls; an unresolved one is of a lone method whose call failed recoverably with nothing reviewed |
| `BatchWorklist.JournaledKeysAreTheUnits` | src/analyzer_engine_jobs.rs:757-793 | whatever happens to a unit, its journal holds no key more often than the unit does |
| `BatchWorklist.EveryOutcomeIsJournaledOnce` | src/analyzer_engine_jobs.rs:1246-1253 | per-item callback and scheduler callback together journal every key of a unit exactly once |
| `BatchWorklist.SharesConserveTokens` | src/analyzer_engine_jobs.rs:659-661 | the shares of a token total add up to it and differ by at most one |
| `BatchRepair.SlotIsFilledOnOddUses` | src/analyzer_method_batch.rs:352-370 | a slot ends filled exactly when its key was used an odd number of times, and then with the body of the last review that used it |
| `BatchRepair.IndexedReviews` | src/analyzer_method_batch.rs:332-378 | fails exactly without a reviews array; the slots hold what the keys leave in them, and the error list is empty exactly when the keys are a permutation of the expected ones |
| `MethodKeys.KeysNameSlots` | src/analyzer_method_batch.rs:352-370 | a key names slot i exactly when it is an m, an optional plus sign, any zeros and the decimal digits of i |
| `MethodKeys.PromptKeysNameTheirSlots` | src/analyzer_method_batch.rs:75-78 | the key that the prompt gives a method names the slot of that method |
| `BatchRepair.SlotsHoldNamedReviews` | src/analyzer_method_batch.rs:352-370 | a filled slot holds the body of the last review whose key, as a text, names that slot |
| `BatchRepair.PermutationsNameEachSlot` | src/analyzer_method_batch.rs:332-378 | without errors each slot holds the body of a review that carries its name |
| `BatchRepair.Credit` | src/analyzer_method_batch.rs:456-465 | each filled slot is parsed as its own item, and an accepted item is left alone |
| `BatchRepair.CallBatch` | src/analyzer_method_batch.rs:380-488 | for any responses: at most four attempts, each asking in order exactly what earlier ones left; it fails only if a prompt cannot be rendered or a call does not come through; on success one value per item, credited in the last attempt that asked it from a review whose key names its place there, or the explicit unresolved placeholder after all attempts failed it |
| `IdentifierIndex.IndexLine` | src/analyzer_dossier.rs:139-159 | the tokenizer files the line under exactly its maximal identifier runs, once each |
| `IdentifierIndex.BuildIndex` | src/analyzer_dossier.rs:120-163 | every token is filed with all its lines in order |
| `IdentifierIndex.ScanMeetsBoundedOccurrence` | src/analyzer_dossier_repository.rs:1192-1206 | the leftmost non-overlapping scan cannot step over a bounded occurrence |
| `IdentifierIndex.TokenIffScanned` | src/analyzer_dossier_repository.rs:1188-1210 | for identifiers, being a maximal run of a line and being found by the scan are the same |
| `IdentifierIndex.IndexAgreesWithScan` | src/analyzer_dossier.rs:58-82 | for every query the index lookup returns the same list as testing each line |
| `IdentifierIndex.LocationsAreOrderedAndExact` | src/analyzer_dossier.rs:58-82 | that list names exactly the matching lines, in file and line order, without duplicates |
| `IdentifierIndex.IdentifierCharsAre` | src/analyzer_dossier_repository.rs:1188-1190 | the identifier characters are the ASCII letters and digits, the underscore and the dollar sign |
| `JsMask.StepInPlace` | src/analyzer_dossier_js_ts.rs:48-128 | one iteration over the buffer is one step of the lexer and leaves the rest of the buffer alone |
| `JsMask.MaskJsNonCode` | src/analyzer_dossier_js_ts.rs:43-131 | the loop over the buffer computes the mask |
| `JsMask.MaskOnlyBlanks` | src/analyzer_dossier_js_ts.rs:43-131 | the mask keeps the length and every newline and changes a byte only to a space |
| `JsMask.MaskedTextIsInert` | src/analyzer_dossier_js_ts.rs:43-131 | nothing left in the masked text opens a literal or a comment |
| `JsMask.MaskIsIdempotent` | src/analyzer_dossier_js_ts.rs:43-131 | masking twice is masking once |
| `JsMask.MaskKeepsUtf8` | src/analyzer_dossier_js_ts.rs:43-131 | valid UTF-8 stays valid UTF-8 (section 4 of RFC 3629) |
| `Utf8Text.Utf8ExactlyWhen` | src/analyzer_dossier_js_ts.rs:43-131 | what counts as UTF-8 there: exactly the encodings of sequences of Unicode scalar values (section 3 of RFC 3629) |
| `JsMask.MaskShowsExactlyTheCode` | src/analyzer_dossier_js_ts.rs:15-131 | on any source composed of code, strings, templates, comments and regular expressions, unclosed ones that end with their line included, the mask is the code with everything else blanked |
| `JsRegexStart.RegexStartsExactly` | src/analyzer_dossier_js_ts.rs:15-41 | a slash starts a regular expression exactly at the start of the code, behind one of eleven operators and brackets, and behind one of seven keywords that is no part of a longer word |
| `JsReturnedObjects.FindClose` | src/analyzer_dossier_js_ts.rs:158-172 | the balancing scan finds the brace where the depth first returns to zero, or proves there is none |
| `JsReturnedObjects.ReturnsAreWholeWords` | src/analyzer_dossier_js_ts.rs:137-146 | a return is the word return between texts neither of which continues the name |
| `JsReturnedObjects.ReturnedObjectSpans` | src/analyzer_dossier_js_ts.rs:133-181 | the spans are increasing, disjoint and brace-balanced in the masked text, each belongs to a return, and every returned object has its span or lies inside one |
| `PatchFrame.InsertAscends` | src/benchmark_history_v2_frame.rs:63-64 | inserting keeps an ordered set ordered and adds exactly the element |
| `PatchFrame.ClassifyPatch` | src/benchmark_history_v2_frame.rs:60-142 | the line loop computes the fold over the lines, errors included |
| `PatchFrame.AcceptedPatchesShrinkOneLanguage` | src/benchmark_history_v2_frame.rs:119-141 | an accepted patch lists, in order and without duplicates, paths of exactly one language and deletes more than it adds |
| `PatchFrame.LanguagesAreByExtension` | src/benchmark_history_v2_frame.rs:283-295 | a path is in a language exactly when it ends in a dot and one of the language's extensions, in capitals or not |
| `PatchFrame.SideIsRead` | src/benchmark_history_v2_frame.rs:265-281 | what the header reader makes of every side git can print: white space after a name is lost, and a quoted or blank name rejects the patch |
| `PatchFrame.SideIsReadExactlyWhen` | src/benchmark_history_v2_frame.rs:265-281 | a path is read as it is exactly when it is printed unquoted and does not end in white space |
| `PatchFrame.ClassifyingARenderedDiff` | src/benchmark_history_v2_frame.rs:60-142 | for every well-formed git diff, quoted names included: the patch is malformed if a name is quoted or unreadable, and otherwise gets the result its structure deserves with the names as read (its one language, the set of its supported paths in order and the counts of visible added and deleted lines, or the right exclusion), body lines that look like headers included |
| `PatchFrame.DiffsGetWhatTheyDeserveExactlyWhen` | src/benchmark_history_v2_frame.rs:60-142 | a diff whose names end visibly gets what it deserves exactly when no name is quoted or it deserves to be malformed anyway |
| `PatchFrame.QuotedNameIsRejected` | src/benchmark_history_v2_frame.rs:270-272 | a one-line deletion in a Python file with an accented name deserves to be accepted and is rejected as malformed |
| `PatchFrame.DeservedIsUnique` | src/benchmark_history_v2_frame.rs:119-141 | a diff deserves exactly one result |
| `JobIdentity.PushIdentityField` | src/analyzer_engine_jobs.rs:222-229 | pushing a field appends its encoding |
| `JobIdentity.JournalUnitIdentity` | src/analyzer_engine_jobs.rs:239-408 | the hashed text is the encoding of the canonical field list |
| `JobIdentity.DecodeRecovers` | src/analyzer_engine_jobs.rs:222-229 | a decoder recovers every field list from its encoding |
| `JobIdentity.EncodingIsInjective` | src/analyzer_engine_jobs.rs:222-229 | two field lists have the same text exactly when they are equal |
| `JobIdentity.DecimalIsInjective` | src/analyzer_engine_jobs.rs:223-226 | decimal lengths and counts determine their numbers |
| `JobIdentity.SameReviewSameFields` | src/analyzer_engine_jobs.rs:254-399 | reordering signals, boundaries, context lines, callees or references, or moving in the scan, changes no field |
| `JobIdentity.IdentityIsTheReview` | src/analyzer_engine_jobs.rs:239-408 | two jobs have the same identity text exactly when they are the same review up to those reorderings |
| `Sorting.SortForgetsOrder` | src/analyzer_engine_jobs.rs:254-255 | two lists sort to the same list exactly when they are permutations of each other |
| `EvidenceRange.DeclaredRangeIsLocated` | src/analyzer_result.rs:604-616 | a declared range that passes the check lies in the method and its lines carry the quote |
| `EvidenceRange.ExactLocationsAreLocated` | src/analyzer_result.rs:618-628 | every exact match location lies in the method and its lines carry the quote |
| `EvidenceRange.NormalizedLocationsAreLocated` | src/analyzer_result.rs:651-690 | every location found without white space lies in the method and its lines carry the quote |
| `EvidenceRange.AcceptedRangesAreReal` | src/analyzer_result.rs:595-649 | every accepted range lies in the method, and the stripped quote occurs in the stripped text of exactly its lines, whichever of the three routes found it |
| `EvidenceRange.MatchMeansStrippedMatch` | src/analyzer_result.rs:801-818 | evidence that matches a source matches it without white space |
| `EvidenceRange.MissingExactlyWhenAbsent` | src/analyzer_result.rs:595-649 | a quote with visible text is reported missing exactly when, white space aside, it occurs nowhere in the method |
| `EvidenceChoice.DeclaredComesFirst` | src/analyzer_result.rs:604-616 | a declared range in the method whose own lines contain the quote, white space aside, stands whatever else the method contains |
| `EvidenceChoice.DeclaredStandsExactlyWhen` | src/analyzer_result.rs:604-616 | and the check of a declared range passes for no other |
| `EvidenceChoice.AcceptedRangesAreExact` | src/analyzer_result.rs:595-690 | any other accepted range is exact: its first line holds the first character of the quote and its last line the last one |
| `EvidenceChoice.OneOccurrenceIsAccepted` | src/analyzer_result.rs:618-640 | a quote that stands once in the method is accepted on the lines where it stands |
| `EvidenceChoice.TwoOccurrencesAreAmbiguous` | src/analyzer_result.rs:618-640 | a quote that stands twice in the method is ambiguous |
| `EvidenceChoice.OneSpellingIsAccepted` | src/analyzer_result.rs:641-690 | a quote that is nowhere as it is and once without white space is accepted |
| `EvidenceChoice.TwoSpellingsAreAmbiguous` | src/analyzer_result.rs:641-690 | a quote that is nowhere as it is and twice without white space is ambiguous |
| `ProjectGraph.Discover` | assets/typescript-project-model.js:134-188 | discovery terminates on any graph, fails exactly when a reachable configuration does not parse, and otherwise finds exactly the configurations reachable from the inputs |
| `ProjectGraph.ClosureFor` | assets/typescript-project-model.js:190-208 | the closure is exactly what the root reaches, sorted and without duplicates; it fails exactly when a reference leads to an unparsed project |
| `ProjectGraph.DiscoveredIsClosed` | assets/typescript-project-model.js:190-208 | after discovery no closure ever meets an unparsed project |
| `ProjectGraph.SelectRoots` | assets/typescript-project-model.js:259-265 | the roots are exactly the projects nobody references and nobody else extends, in order |
| `ProjectGraph.EveryProjectIsCoveredExactlyWhen` | assets/typescript-project-model.js:258-281 | on any graph: every project lies in some root's world exactly when every source of the graph (everything leading to it, it leads back to) is itself a root |
| `ProjectGraph.AcyclicProjectsAreCoveredExactlyWhen` | assets/typescript-project-model.js:258-281 | with acyclic references: exactly when no unreferenced project is extended by another |
| `ProjectGraph.CycleIsLeftOut` | assets/typescript-project-model.js:263-265 | a reference cycle beside a root lies in no world |
| `ProjectGraph.ExtendedBaseIsLeftOut` | assets/typescript-project-model.js:260-265 | a base configuration that is only extended lies in no world |
| `ProjectGraph.ConfiguredWorld` | assets/typescript-project-model.js:269-281 | a root's world holds exactly the configurations it reaches and exactly their sources |
| `ProjectGraph.BuildWorlds` | assets/typescript-project-model.js:251-287 | fails exactly when there are projects but no root; otherwise one world per root in order, then a loose world for exactly the sources none of them selects |
| `ProjectGraph.LooseMeansUnselected` | assets/typescript-project-model.js:282-286 | a source is left loose exactly when no project that lies in a world selects it |
| `ProjectGraph.UnconfiguredKeepsOrder` | assets/typescript-project-model.js:282 | the sources left loose are in the order of all sources, each once |
| `ProjectGraph.LooseWorldsAre` | assets/typescript-project-model.js:212-286 | there is a loose world exactly when sources are left; these are its roots, it selects what the compiler makes of them, and it ignores exactly the other sources |
| `ProjectGraph.ProjectModel` | assets/typescript-project-model.js:127-298 | the script as a whole: its two failures and, on success, the worlds of exactly the needed projects, one per root in order, each once, and at least one if there are projects |
| `Sorting.SortedUniqueLists` | assets/typescript-project-model.js:50-52 | `sortedUnique` lists every value once, in order |
| `Sorting.SortedUniqueIsTheSet` | assets/typescript-project-model.js:50-52 | it depends on the set of values only, and determines it |
| `ExecutionTrace.ExpectedCommands` | src/benchmark_history_v2_identical_tests.rs:282-304 | the install commands in order and then the test script, for the base side and then the patched side |
| `ExecutionTrace.RunInstallCommands` | src/benchmark_history_v2_identical_tests_docker.rs:360-385 | the install loop stops at the first failure with its reason |
| `ExecutionTrace.Execute` | src/benchmark_history_v2_identical_tests_docker.rs:169-232 | the executor's loop over both sides produces exactly the fail-stop execution of the expected commands |
| `ExecutionTrace.ValidateRawExecution` | src/benchmark_history_v2_identical_tests.rs:243-273 | the loop computes the verdict, first error first |
| `ExecutionTrace.AcceptsExactlyFailStopExecutions` | src/benchmark_history_v2_identical_tests.rs:243-355 | validation accepts exactly the fail-stop executions with well-formed evidence and a real image id |
| `ExecutionTrace.AcceptsExactlyTraces` | src/benchmark_history_v2_identical_tests.rs:243-355 | event by event: validation accepts exactly an image named by its hash, the right command in each place with proper evidence, no failure before the last event, and an outcome that this event explains |
| `ExecutionTrace.PassedMeansIdentical` | src/benchmark_history_v2_identical_tests.rs:263-267 | an accepted pass ran the same commands in the same order on both sides, and all exited cleanly |
| `ExecutionTrace.ExcludedMeansStoppedThere` | src/benchmark_history_v2_identical_tests.rs:256-271 | an accepted exclusion stopped at its only failure and names it |
| `PythonScanner.Advance` | src/analyzer_dossier_proofs.rs:23-45 | one character of a scan moves depth, quote and escape as the scan state does, and fails exactly on a bracket that never opened |
| `PythonScanner.SplitPythonTopLevel` | src/analyzer_dossier_proofs.rs:17-51 | the loop computes the split, failing on an unbalanced bracket or an open quote |
| `PythonScanner.TopLevelPrefix` | src/analyzer_dossier_proofs.rs:83-106 | the loop computes the prefix, which is the first part whenever the split succeeds |
| `PythonScanner.MatchingParenthesis` | src/analyzer_dossier_proofs.rs:53-81 | the first position where the parenthesis depth outside quotes returns to zero, or none exactly when there is no such position |
| `PythonScanner.SplitUndoesJoin` | src/analyzer_dossier_proofs.rs:17-51 | for trimmed, balanced, quote-closed parts without a top-level delimiter, splitting the joined text gives the parts back |
| `PythonScanner.SplitIsLossless` | src/analyzer_dossier_proofs.rs:17-51 | a split succeeds exactly when brackets and quotes close; its parts are the trimmed pieces of a text that joins to the input, balanced and free of top-level delimiters |
| `PythonScanner.PiecesAreTheOnlyParts` | src/analyzer_dossier_proofs.rs:17-51 | any way of writing a text as joined parts is the one the split finds |
| `PythonScanner.SplitAgain` | src/analyzer_dossier_proofs.rs:17-51 | splitting the joined result of a split gives the same parts |
| `PythonScanner.PrefixEndsAtFirstCut` | src/analyzer_dossier_proofs.rs:83-106 | the prefix ends at the first top-level delimiter whatever follows; without one it is the whole text unless a bracket closes that never opened |
| `PythonText.SplitFindsTheRows` | src/analyzer_dossier_proofs.rs:17-51 | a list of expressions, however they nest brackets and whatever their string literals hold, is split at the delimiters between them and nowhere else |
| `PythonText.TheClosingParenthesisIsFound` | src/analyzer_dossier_proofs.rs:53-81 | the parenthesis that closes the one at the start is found behind whatever nested groups and literals are between them, and whatever follows |

## Left out

- Talking to the language model: requests, prompts, response formats, progress display and configuration. A reply is any value of any type.
- How tasks are woken and locked: a task is there until it is joined, and a join may pick any of them.
- A failed write in a process that lives on. It can leave half a line that the next append continues, so the results about crashes are about processes that stop.
- Several processes that append to one journal at once.
- JournalCodec.FaithfulCodec: the codec it gives is not the code's JSON, which is assumed to be as faithful. The lemma only shows that the assumption is no contradiction.
- Journal fields that no decision reads: provider, model, endpoint, time stamps, status, proof level and the copy of the pricing rates.
- The record methods of the other four stages: `RecordResult` takes the payload of any of them.
- Rates with fractions of a price unit, rounding of costs, and counters at the end of the machine range, except in the prompt estimates of `ReviewGrouping` and the output limit of `ExecutionTrace`.
- The wording of errors: where no decision depends on it, an error is a constructor or a short text.
- Token counts inside the repair loop and the worklist; `BatchWorklist.SharesConserveTokens` covers their division.
- Building the sizes that `ReviewGrouping` adds up, and cutting the dossier text into the context lines of `JobIdentity`: both are given.
- Packages, test runners and numbered files in the repository index, and the texts made from it.
- What JavaScript really means by a division or a regular expression: `JsMask.MaskShowsExactlyTheCode` says on which sources the masker's rule is exact.
- Byte offsets in `PythonScanner` and `EvidenceRange`: positions count characters, which name the same places.
- Reading a TypeScript configuration: options, diagnostics and canonical paths are behind the arbitrary parse of `ProjectGraph`.
- Starting and removing the containers around `ExecutionTrace.Execute`, and the commitments that a plan's hashes stand for.
- Choosing the words of a verdict, and comparing stored benchmark artifacts field by field.
