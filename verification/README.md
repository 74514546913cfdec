# api-log in Dafny

This project models the parts of api-log where the code decides something hard, and proves what
they promise. Everything is stated over all inputs, all interleavings or all states of all runs.

**Storage.** One writer goroutine, one compression per rotated bucket, exporters and the retention
monitor share the files of (date, key) buckets, the row index and the lease table.
`StorageProtocol` is that system as steps: a step is one system call, one locked section or one
transaction, failures included. `StorageInvariant` has the inductive invariant, `StorageSafety`
what follows wherever it holds, `StorageCrash` what a crash can break and a repair pass restores,
`StorageLives` what every process life keeps when the writer starts before any repair, `Reconcile`
exactly which rows a reconciliation body takes among other goroutines' steps. `World`, `Writer`,
`Compression` and `Monitor` are the programs themselves, written as the source writes them, taking
those steps on a shared object while the other goroutines run in between, so they only ever move
it along a run of the protocol. `Leases` is the lease table as a class.

**Retention.** `Retention` has the rules, `Eviction` the two-pass `runEviction` loop over an
inventory, `EvictionTheorems` its optimality, order, confluence and the starvation it allows,
`Walk` the directory walk that feeds it.

**Streams.** `Sse`, `SseFrames`, `SsePrinter` and `SseRoundTrip` relate the batch parser, the
incremental scanner, a grammar of frames and the printer, `SseSpelling` the different ways to
write one stream. `EventShapes` says which payloads `StreamEvents` takes for what; `Dispatcher`
and `DispatcherTheorems` relate the one-event-lookahead dispatcher to a specification of a whole
stream; `TextAppend` compares the plugin's two branches. `Capture` follows chunk times from the
socket to the events.

**Index and readers.** `SessionTurns`, `Sessions` and `SessionForest` cover session inference,
`Export` the line readers, `Cursors` and `Pagination` the trace list. `Bodies` rebuilds and
re-reads response bodies over `RawText`, `TextReplace` rewrites request messages. `Lines`,
`Order`, `Numbers`, `Json` and `Wrappers` are shared vocabulary.

## What is assumed

- JSON is an algebraic datatype with unique keys; encoding and decoding are inverse; numbers do
  not round and strings are valid Unicode. The decoder folds the case of keys; payload keys are
  taken in the lower case of the struct tags and of untagged field names. Where the bytes of a
  value matter (tool-call arguments, event data) they are kept as text or bytes.
- gzip is invertible and fails only by leaving less than a whole file; sha256 is injective on
  canonical prefixes (`Injective`); base64 decodes what it encodes; no valid JSON text is
  `[DONE]`, and a marshalled string is valid JSON without CR or LF (`Lawful`).
- The writer's clock shows no earlier date than before, and trace ids are fresh.
- In `deleteIfIdle` the second remove and the row delete do not fail. The stat and the first
  remove may. A crash may come between any two of its steps.
- A reader keeps what an open file descriptor gives it, also after the file is unlinked.
- Rows have paths the writer wrote. `FileIDFromPath` and the canonical path are a pair of
  functions of which the first inverts the second.
- A time survives the trip through `time.Time` as its millisecond count.

## Where the code and its documentation differ

- A silent SSE frame (only `id:` or `retry:` lines) leaves its start offset behind, so the next
  event is dated to it and not to its own first field line. `OffsetsAsDocumented` says exactly
  when the documented offset holds; `SilentFrameMisdates` has the bytes.
- After a read error the scanner drops the frame it has gathered, and `Parse` still flushes it.
- A Responses delta whose payload is the JSON `null` makes `RewriteDeltaText` write to a nil map;
  `PanicsIff` says exactly which streams and callbacks make the dispatcher panic so.
- A suffix is promised once, on the last delta of the first text block. A stop of another block
  releases a waiting delta without the suffix (`LosingStream`), and a second text block gets it
  again (`RepeatingStream`). `EveryChainAgreesIff` says exactly when stream and buffer agree.
- The running byte count of `runEviction` counts a leased file as gone, so the byte rule can
  starve (`LeaseStarvesByteRule`). `EndsWellIff` says exactly when a pass falls short.
- The session lookup has no `ts_start` clause and skips rows without turns; the reference script
  has the clause and takes such rows (`LaterRowParts`, `TurnlessRowParts`).
  `LookupIsReferenceScanIff` says exactly when both answer alike.
- Rebuilding a Messages response drops whitespace between the tokens of tool arguments and spells
  `<`, `>`, `&` and the two Unicode line separators as escapes (`CallsThatChange`); the texts
  that come back as they were are exactly those of `SameCallsIff`.
- `rewriteMessages` reports a change when a rule matched, also when the text stayed the same:
  with one rule exactly when the rule replaces its match by itself (`OneRuleChangedIff`), with
  several also when one undoes another (`RulesThatUndo`).
- After a crash inside `deleteIfIdle` the writer may open a bucket whose rows outlived its file
  before any repair, and the rows then point at other traces' lines (`UnrepairedAppendMisleads`).
  `AgreementAfterCrashIff` says that nothing else breaks the agreement.
- A crash between the two removes of `deleteIfIdle` can leave a torn gz file alone on disk, and
  reconciliation takes it for the bucket's file (`LoneTornGzReachable`).
- `reconcileOrphans` can delete the row of a line that is in the file when a writer step comes
  between its stat and its DELETE (`InterleavedReconcileLosesRow`). `TakesLiveRowIff` says
  exactly when, and `TakesOnlyDeadRows` when it never does.

## Model

| member | source | states |
|---|---|---|
| `Leases.Lease.Release` | internal/storage/lease.go:35-45 | a lease is given back once, however often Release is called, and exactly then the count of its bucket falls by one |
| `Leases.Coordinator.AcquireLease` | internal/storage/lease.go:109-121 | refused exactly while the bucket is marked deleting; a granted lease is a new outstanding one and raises the count |
| `Leases.Coordinator.Drop` | internal/storage/lease.go:35-45 | the locked half of Release restores that each count is the number of outstanding leases |
| `Leases.Coordinator.MarkDeleting` | internal/storage/lease.go:137-152 | succeeds exactly when no lease on the bucket is outstanding and no mark is set, and changes nothing otherwise |
| `Leases.Coordinator.UnmarkDeleting` | internal/storage/lease.go:156-161 | takes off the mark and leaves every outstanding lease |
| `Leases.Coordinator.IsLeased` | internal/storage/lease.go:171-175 | true exactly when some outstanding lease is on the bucket |
| `StorageInvariant.StepInv` | internal/writer/writer.go:157-682 | every step of every goroutine keeps the invariant: lease counts, ownership, marks, dates, file shapes, rows and exporter views |
| `StorageInvariant.RunInv` | internal/writer/writer.go:157-682 | every run keeps it |
| `StorageInvariant.CompressionInvisible` | internal/writer/writer.go:637-682 | no step and no failure exit of a compression changes the uncompressed bytes the plain-first lookup finds, of any bucket |
| `StorageInvariant.MarkedIsUnused` | internal/storage/lease.go:109-152 | while a bucket is marked deleting nobody has it open, compresses it or exports it |
| `StorageSafety.IndexAgreesWithFiles` | internal/writer/writer.go:294-451 | wherever the invariant holds, reading one line at a row's offset gives exactly the line appended for the row's trace, unless its bucket is marked deleting |
| `StorageSafety.ContentOnlyGrows` | internal/writer/writer.go:294-339 | every step but a removal by deleteIfIdle leaves each bucket's content a prefix of what it becomes |
| `StorageSafety.CompressionKeepsContent` | internal/writer/writer.go:637-682 | the same bytes are found before and after each compression step wherever the invariant holds |
| `StorageSafety.LeaseSafety` | internal/storage/lease.go:35-161 | refs[k] is the number of leases granted and not yet decremented, and no bucket is leased and marked at once, with Release split into its two halves |
| `StorageSafety.WritesHappenUnderLease` | internal/writer/writer.go:294-451 | bytes enter a file and rows enter the index only while the writer holds that bucket's lease and no deletion is under way |
| `StorageSafety.StopLeavesNoLease` | internal/writer/writer.go:157-182 | after stop, with no export running, no lease and no count is left, whichever error paths were taken |
| `StorageSafety.NothingStartsAfterStop` | internal/writer/writer.go:157-182 | the writer stops only with no compression left, and from then on no compression and no record begins |
| `StorageSafety.OneWorkerPerBucket` | internal/writer/writer.go:540-572 | a bucket under compression or with a gz file is neither open nor being opened, and one under compression is not handed over again |
| `StorageSafety.HandedOverIsPast` | internal/writer/writer.go:546-568 | a bucket handed over to a compression, or on its way there, is closed and the clock has passed it |
| `StorageSafety.PastIsClosed` | internal/writer/writer.go:540-572 | along every run a bucket the clock has passed, as every bucket handed over is, is never opened again, whatever became of its compression |
| `StorageSafety.ExporterReadsWhole` | internal/exporter/exporter.go:502-515 | a lease-holding exporter reads at least what was there when its lease was granted, also when its two lookups straddle the removal of the plain file |
| `StorageSafety.ExporterSeesEveryRow` | internal/exporter/exporter.go:253-284 | every row of the bucket at the time of the lease has its line in what the exporter reads, whatever ran in between |
| `StorageCrash.RepairRestores` | internal/storage/monitor.go:145-218 | after a crash anywhere and one repair pass the whole invariant holds again, exactly unless a lone torn gz file was left |
| `StorageCrash.RepairedRowsAgree` | internal/storage/eviction.go:192-236 | every surviving row can be read back, exactly unless the bucket of the lone torn gz file has rows |
| `StorageCrash.InvariantSurvivesCrashes` | internal/storage/monitor.go:145-218 | the whole invariant survives any number of lives that each begin with an uninterrupted repair pass |
| `StorageCrash.UnrepairedAppendMisleads` | internal/storage/eviction.go:205-228 | appending to an orphaned bucket before a repair makes a surviving row point at another trace's line |
| `StorageCrash.InterleavedReconcileLosesRow` | internal/storage/monitor.go:180-209 | a run in which a writer step between stat and DELETE costs a live row |
| `StorageCrash.LoneTornGzReachable` | internal/writer/writer.go:655-672 | a run that ends with a lone torn gz file and a row nothing can read |
| `StorageLives.AgreementIff` | internal/writer/writer.go:540-625 | along any run the rows with content agree with it all the way exactly when the writer never opens a bucket that has rows and no file |
| `StorageLives.AgreementAfterCrashIff` | internal/storage/eviction.go:192-236 | the same for every run of a life that begins after a crash anywhere, with no repair first |
| `StorageLives.SteadyRowReadsItself` | internal/api/jsonlread.go:26-90 | where the agreement holds, reading a row gives its own line or finds no content |
| `StorageLives.RestartKeepsInvIff` | internal/storage/eviction.go:205-228 | a stop or crash keeps the whole invariant exactly when it leaves no lone torn gz file and no row without its bytes |
| `StorageLives.RepairBringsBack` | internal/storage/monitor.go:145-218 | an uninterrupted pass at any time in a life brings the whole invariant back |
| `StorageLives.LivesStaySteady` | internal/storage/monitor.go:73-124 | any number of lives, none begun with a repair, keep the agreement under that condition |
| `Reconcile.TakesOnlyDeadRows` | internal/storage/monitor.go:165-209 | from any state, with other goroutines between the calls: if the writer does not open the bucket inside the body, every row the DELETE takes is one nothing can read |
| `Reconcile.TakesLiveRowIff` | internal/storage/monitor.go:165-209 | the DELETE takes a new row whose line is in the file exactly when the writer inserted one inside the body, and every older row it takes had no content when the body began |
| `Reconcile.TakesNothingLeased` | internal/storage/monitor.go:185-209 | every body that gets to its DELETE passes a lease check at which nobody held the bucket and the writer did not have it open, so no row inserted earlier under a lease still out is taken |
| `Reconcile.FindsNoFile` | internal/storage/monitor.go:177-189 | every such body found no plain file at its first stat and no gz file, torn or whole, at its second |
| `Reconcile.ReconcileKeepsLiveRows` | internal/storage/monitor.go:165-209 | where the invariant holds, no row that is there when a body begins is taken, and a body without an insert into the bucket takes nothing |
| `World.WorkerNext` | internal/writer/writer.go:637-682 | a compression always has a next step, whatever the others do, and it brings its end nearer |
| `World.ExporterNext` | internal/exporter/exporter.go:253-284 | an exporter always has a next step that brings its end nearer, and at its end its lease is gone |
| `World.WorkersCanFinish` | internal/writer/writer.go:157-182 | from every state of the invariant all compressions can run to their end, so the wait in stop is not in vain |
| `Writer.Writer.TrySend` | internal/writer/writer.go:194-211 | never blocks: the record is queued exactly when there is room and counted as dropped otherwise |
| `Writer.Writer.Rotate` | internal/writer/writer.go:540-572 | closes exactly the open files of earlier dates, by the steps that give their leases back and start their compression, and keeps the others |
| `Writer.Writer.TakeLease` | internal/writer/writer.go:574-592 | granted exactly when the bucket is not marked, and then in hand before anything is opened |
| `Writer.Writer.LeaseAndOpen` | internal/writer/writer.go:574-625 | succeeds exactly when the lease is granted and the open works, and then keeps the lease with the file; otherwise no lease stays in hand |
| `Writer.Writer.FileFor` | internal/writer/writer.go:540-625 | an open file is reused; otherwise only files of the record's date or later stay open, and success means the bucket is open under its lease |
| `Writer.Writer.WriteLine` | internal/writer/writer.go:303-326 | goes through exactly when marshalling, the stat and the write succeed; then the record's line stands at the size noted before the write, the file is stamped and the append counted; otherwise one drop is counted, and a failing write leaves the part of the line it wrote at the end of the file |
| `Writer.Writer.IndexRow` | internal/writer/writer.go:394-451 | the row goes in naming the offset noted before the write and agrees with the file; a failed insert leaves the line and no row |
| `Writer.Writer.AppendOne` | internal/writer/writer.go:294-451 | a record goes unwritten exactly when a bucket not yet open is refused or a call before the end of the write fails, and unindexed exactly when then the insert fails; each outcome with the file, the row, the counters and the open files it leaves; no other row appears or changes |
| `Writer.AskedMeans` | internal/storage/lease.go:109-121 | a request for a lease in the log of steps was answered by the mark on the record's bucket at that moment |
| `Writer.Writer.IdleSweep` | internal/writer/writer.go:274-292 | closes exactly the files quiet for the timeout, and adds no row |
| `Writer.Writer.RunLoop` | internal/writer/writer.go:223-259 | with any number of idle sweeps in between, every queued record is appended, in order; the counters account for each record offered, and with no failing call each is indexed but those whose lease was refused |
| `Writer.Writer.Stop` | internal/writer/writer.go:157-182 | the queued records are appended as by runLoop; then no file is open, no compression left and, with no export running, no lease out |
| `Compression.CompressInPlace` | internal/writer/writer.go:637-682 | compresses exactly when the bucket was not marked at the request, its plain file was still there and no call failed: then the plain bytes are in the gz file and the plain file is gone; otherwise the plain file is as it was and the gz file what the failing call left; the lease is back either way |
| `Compression.ShieldedRun` | internal/writer/writer.go:637-682 | nobody touches a bucket under a compression's lease, and before the lease it can at most be deleted |
| `Monitor.DeleteIfIdle` | internal/storage/eviction.go:192-236 | deletes exactly when no lease on the bucket is out and the first stat and remove succeed; then both files and all rows are gone when the mark comes off, otherwise both files stay and no row is taken |
| `Monitor.LeftAloneRun` | internal/storage/eviction.go:192-236 | no other goroutine touches a marked bucket or adds a row to it |
| `Monitor.Index.DeleteByJSONLPath` | internal/store/sqlite/delete.go:21-35 | exactly the rows with the path go |
| `Monitor.Index.ListDistinctJSONLPaths` | internal/store/sqlite/delete.go:46-63 | exactly the paths some row has, each once |
| `Monitor.Index.ReconcileOrphans` | internal/storage/monitor.go:145-218 | exactly the rows of the first deletable paths go, up to the cap and the cancellation; foreign paths, failed stats, files, leases and failed deletes are skipped |
| `Monitor.PassIsCompleteIff` | internal/storage/monitor.go:165-209 | a pass deletes only deletable paths, at most its cap, and all of them exactly when the cap has room for all |
| `Monitor.WhatAPassDeletes` | internal/storage/monitor.go:145-218 | of the paths reached before cancellation a pass deletes as many deletable ones as its cap allows, a thousand by default, and nothing leased, present, foreign or failing |
| `Monitor.PassIsRepair` | internal/storage/monitor.go:145-218 | after a crash a full pass leaves exactly the rows whose bucket has a file, and however it ends it deletes no row of a bucket that has one |
| `Eviction.RunEviction` | internal/storage/eviction.go:51-168 | the inventory keeps exactly the files not deleted, in order, its total falls by their bytes, and stays the sum over the files it lists |
| `Eviction.MarkEligible` | internal/storage/eviction.go:85-108 | the loop with the running byte count marks the files the rules choose |
| `Eviction.DeleteEligible` | internal/storage/eviction.go:114-141 | deletes marked files in order up to the cap, skips leased and failing ones, stops on cancellation, and reports the cap |
| `Eviction.FilterOut` | internal/storage/eviction.go:143-151 | the in-place filter keeps the other files in order |
| `Eviction.PassTotal` | internal/storage/eviction.go:143-152 | the bytes of what remains are the old total less the bytes deleted |
| `EvictionTheorems.FaultFreePass` | internal/storage/eviction.go:85-141 | a pass without faults deletes the first cap chosen files and reports the cap exactly when more were chosen |
| `EvictionTheorems.PassFillsItsCap` | internal/storage/eviction.go:60-63 | such a pass deletes as many chosen files as the cap allows, a thousand by default |
| `EvictionTheorems.CancelledSweep` | internal/storage/eviction.go:114-120 | a pass cancelled at a candidate deletes nothing from that candidate on and claims no cap |
| `EvictionTheorems.PassIsSufficient` | internal/storage/eviction.go:71-152 | after an uncapped pass without faults the total is within MaxBytes or every remaining file is inside the grace window |
| `EvictionTheorems.LivePass` | internal/storage/eviction.go:114-141 | a pass with room deletes exactly the chosen files whose deletion goes through; leases and failures on other files make no difference |
| `EvictionTheorems.EndsWellIff` | internal/storage/eviction.go:71-152 | whatever is leased or fails, such a pass ends within MaxBytes or with only grace-window files exactly when the chosen files that go bring the total within it, or all chosen files go |
| `EvictionTheorems.PassIsMinimal` | internal/storage/eviction.go:85-108 | a file only the byte rule condemns was reached with the total still above the limit |
| `EvictionTheorems.ChosenOldestFirst` | internal/storage/eviction.go:71-108 | whatever is chosen, everything older is chosen too, apart from media-only entries of no bytes |
| `EvictionTheorems.ChosenIff` | internal/storage/eviction.go:51-108 | a file is condemned exactly when it is out of the grace window and is past maxAgeDays, or nothing but media, or the files not yet condemned exceed maxBytes |
| `EvictionTheorems.AgedFilesGo` | internal/storage/eviction.go:65-152 | a pass with no fault and room for all deletes every file past its age |
| `EvictionTheorems.OldestComeFirst` | internal/storage/eviction.go:71-83 | candidates without a time come first, then older before younger, equal times by path |
| `EvictionTheorems.ChosenAfter` | internal/storage/eviction.go:85-108 | once the first chosen files are gone a new pass chooses exactly the others: each survivor meets the running total it met before |
| `EvictionTheorems.CappedTicksConfluent` | internal/storage/eviction.go:71-141 | t capped ticks delete exactly the first t times cap files one uncapped pass would, so they end with the same files after n/cap ticks rounded up |
| `EvictionTheorems.LeaseStarvesByteRule` | internal/storage/eviction.go:85-138 | an inventory above its limit on which a lease on the oldest file makes the pass delete nothing |
| `Walk.WalkAndStat` | internal/storage/inventory.go:55-166 | each bucket that occurs is listed once with the sizes and latest time of its files, a bucket without a time has no JSONL bytes, and TotalBytes is the sum over the list and over every file counted; a cancelled walk yields nothing |
| `Walk.LatestMeans` | internal/storage/inventory.go:116-131 | a bucket's time is the latest of its JSONL files', and zero exactly when it has none |
| `Sse.Parse` | internal/sse/parser.go:76-201 | the loop computes the events and done flag of reading the lines as items, flushing the last frame also at EOF and on a read error |
| `Sse.Scanner.FlushFrame` | internal/sse/scanner.go:138-170 | flushes and resets the fields as the shared accumulator does |
| `Sse.Scanner.Next` | internal/sse/scanner.go:62-128 | returns the first of the events still to come, or the end or error when there is none |
| `SseFrames.ScanAll` | internal/sse/scanner.go:62-170 | calling Next to the end gives what Parse gives, in order, with the same done flag; after a read error it lacks just the pending frame |
| `SseFrames.ReadAllDecodesFrames` | internal/sse/parser.go:94-201 | both readers decode the input frame by frame: what each frame means decides the events and whether the stream ended |
| `SseFrames.OffsetsAscend` | internal/sse/parser.go:132-158 | offsets rise strictly and lie inside the input |
| `SseFrames.OffsetsAsDocumented` | internal/sse/parser.go:59-66 | every offset is that of the event's own first field line exactly when no silent frame with field lines comes right before an event |
| `SsePrinter.WriteEvent` | internal/sse/scanner.go:181-218 | the bytes of one frame: the event line, a data line per LF-separated piece, a blank line |
| `SseRoundTrip.PrintThenRead` | internal/sse/scanner.go:181-218 | reading a sequence of printed events gives the same names and data, each offset the length of the earlier frames |
| `SseRoundTrip.ReadsBackIff` | internal/sse/scanner.go:181-218 | one printed event reads back as itself exactly when it has a name or data, the name has no LF, no name or data line ends in CR and the data is valid JSON |
| `SseRoundTrip.EndsByName` | internal/sse/parser.go:114-122 | a printed stream is seen to end exactly when an event is named response.completed or message_stop |
| `SseRoundTrip.SentinelEnds` | internal/sse/parser.go:94-105 | `data: [DONE]` is no event and ends the stream |
| `SseSpelling.SpellingDoesNotMatter` | internal/sse/parser.go:132-222 | any stream with any of its lines ended in CRLF, written without the space after the colon, or with comments and lines without a colon in between gives the same names, data and end, each offset moved as its line has moved |
| `SseSpelling.EveryStream` | internal/sse/parser.go:132-151 | every input is such lines and a rest, so that law is about every input |
| `SseRoundTrip.SilentFrameMisdates` | internal/sse/parser.go:132-158 | an `id:` frame before a data frame moves the offset of the event to the `id:` line |
| `Capture.Drain` | internal/capture/drain.go:54-112 | until a write fails the file is the first min(total, cap) bytes, truncated is set exactly when the total exceeds the cap, and there is a stamp per nonempty chunk that starts below it; the first write that fails, unless because the file is closed, ends the file with what it left |
| `Capture.FirstByteMeans` | internal/capture/drain.go:65-72 | the first byte is timed by the first nonempty chunk, or by the next one while that time is zero |
| `Capture.LookupChunkTime` | internal/capture/drain.go:121-136 | the binary search finds the time of the chunk whose stretch contains the offset, and nothing exactly before the first |
| `Capture.AttachTimings` | internal/parser/parse.go:128-140 | each event gets the whole milliseconds from the start to its chunk, never negative; an event before the first chunk is left alone |
| `Capture.StampOfByte` | internal/capture/drain.go:54-136 | the stamp that covers a captured byte is that of the chunk that supplied it |
| `Capture.EventGetsItsChunk` | internal/parser/parse.go:128-140 | the time on an event is that of the chunk that supplied the byte at its offset |
| `Capture.DeltasNeverDecrease` | internal/parser/parse.go:128-140 | times never decrease along the events when the chunks' times do not |
| `StreamEvents.RewriteReclassifies` | internal/plugin/v2/stream.go:93-342 | a rewritten delta classifies as a delta of the same kind and block with the new text |
| `StreamEvents.RewriteKeepsTheRest` | internal/plugin/v2/stream.go:266-342 | a rewrite changes one string in the payload; every other key and value of the frame, the block delta and the choices stays |
| `EventShapes.MessagesClasses` | internal/plugin/v2/stream.go:102-148 | which Messages events are text, thinking and tool-input deltas, stops and the end, with text and block, said of the payload |
| `EventShapes.ResponsesClasses` | internal/plugin/v2/stream.go:189-223 | the same for Responses events, by name, with the text of the payload |
| `EventShapes.ChatClasses` | internal/plugin/v2/stream.go:150-187 | the same for Chat frames: the first choice that is not silent decides, tool calls before text |
| `Dispatcher.StreamDispatcher.Process` | internal/plugin/v2/stream.go:481-531 | one event moves the dispatcher's pending delta and output as one step of the transducer |
| `Dispatcher.StreamDispatcher.HandleContentDelta` | internal/plugin/v2/stream.go:537-568 | the delta runs through its transforms and waits; what waited before leaves without the last-delta chain |
| `Dispatcher.StreamDispatcher.HandleContentBlockStop` | internal/plugin/v2/stream.go:573-590 | a stop releases the waiting delta, through the last-delta chain exactly when it is of the same block |
| `Dispatcher.StreamDispatcher.ApplyLastTextDelta` | internal/plugin/v2/stream.go:596-622 | the chain is applied in order to the waiting text and the event rewritten only if the text changed |
| `Dispatcher.StreamDispatcher.FlushAll` | internal/plugin/v2/stream.go:629-661 | the waiting delta leaves through the last-delta chain and nothing waits any more |
| `DispatcherTheorems.WrapStream` | internal/plugin/v2/stream.go:707-721 | a stream put through Process and flushed at its end is the transducer's run |
| `DispatcherTheorems.DispatcherMeetsSpec` | internal/plugin/v2/stream.go:481-661 | the outputs are those of a whole-sequence specification: one event per input event, last-delta callbacks exactly on a delta whose next content delta, stop, terminal or EOF is a stop of its own block, a terminal or EOF |
| `DispatcherTheorems.OutputOrder` | internal/plugin/v2/stream.go:481-661 | the order is a permutation; deltas keep theirs, other events keep theirs, and a delta moves only past other, reasoning and tool-use events |
| `DispatcherTheorems.OutputReads` | internal/plugin/v2/stream.go:481-622 | every output reads as its input's kind and block with the text the chains made of it, and whatever is no text or reasoning, tool use above all, goes out untouched |
| `DispatcherTheorems.ChainInOrder` | internal/plugin/v2/stream.go:481-568 | a chain of callbacks passes the text on in the order of registration |
| `DispatcherTheorems.LastChainInOrder` | internal/plugin/v2/stream.go:596-622 | so does the last-delta chain |
| `DispatcherTheorems.PanicsIff` | internal/plugin/v2/stream.go:331-342 | a stream makes the dispatcher panic exactly when the content or reasoning chain, or the last-delta chain where it fires, gives a text to a delta whose payload is null |
| `TextAppend.OnAfter` | internal/plugin/v2/builtin/textappend/textappend.go:224-258 | with its routes matching, a suffix and a draw that fires, a streaming call registers one appender and a buffered one appends; otherwise nothing |
| `TextAppend.IterateAfter` | internal/plugin/v2/registry.go:372-397 | a chain of instances registers its appenders in order, or adds its suffixes to the content and to the reasoning of a buffered response |
| `TextAppend.AppendersAppend` | internal/plugin/v2/stream.go:596-622 | a chain of appenders adds the suffixes in order |
| `TextAppend.RunReads` | internal/plugin/v2/stream.go:533-661 | the content read back from the dispatcher's output is the texts of the deltas, each with the suffixes if the chain fires on it |
| `TextAppend.StreamAgreesWithBuffer` | internal/plugin/v2/builtin/textappend/textappend.go:224-258 | with one text block the client reads the stream's content and then the suffixes the buffered branch appends |
| `TextAppend.SuffixesPerFiring` | internal/plugin/v2/stream.go:533-661 | on any stream the suffixes are added once per delta the chain fires on |
| `TextAppend.EveryChainAgreesIff` | internal/plugin/v2/builtin/textappend/textappend.go:193-258 | every chain reads alike in both branches exactly when the last-delta chain fires on one delta only, that delta can be written, and no delta after it has text |
| `TextAppend.LosingStream` | internal/plugin/v2/stream.go:573-590 | a stream on which the suffix is lost: another block stops first |
| `TextAppend.RepeatingStream` | internal/plugin/v2/builtin/textappend/textappend.go:193-205 | a stream of two text blocks on which the suffix comes twice |
| `TextAppend.ResponsesStream` | internal/plugin/v2/stream.go:189-223 | a Responses stream, output event by output event: the suffix goes on the answer, and reasoning, stop and end go out as they came |
| `TextAppend.ChatStream` | internal/plugin/v2/stream.go:150-187 | a Chat stream, output event by output event: its end puts the suffix on the last frame |
| `SessionTurns.Build` | internal/session/build.go:16-31 | only the three paths with a body have sessions; a chat session is exactly the body's messages, a Messages session those behind the virtual turn of the system prompt, if any, a Responses session what the input adds behind the instructions |
| `SessionTurns.PathsAre` | internal/session/build.go:42-57 | each protocol is one path, with or without a query behind it |
| `SessionTurns.InputsTellApart` | internal/session/build.go:125-167 | different Responses inputs never give the same turns |
| `SessionTurns.InputShape` | internal/session/build.go:125-167 | what a string, an array of message items and any other input add |
| `SessionTurns.FollowUpContinues` | internal/session/build.go:62-98 | a body that repeats another's messages and adds some, under the same system prompt, has the other's turns as a strict prefix |
| `SessionTurns.ResponsesFollowUpContinues` | internal/session/build.go:109-167 | the same for Responses inputs of message items |
| `SessionTurns.BuildResponses` | internal/session/build.go:109-167 | the loop over input items decides, as the specification says, between message items and one opaque turn, after the instructions turn |
| `SessionTurns.StrictPrefixHashes` | internal/session/prefix.go:46-56 | the hashes of the strict nonempty prefixes, longest first |
| `SessionTurns.HashListed` | internal/session/prefix.go:46-56 | with an injective hash a sequence's hash is listed exactly when it is a strict nonempty prefix |
| `SessionTurns.SameFirstTurnSameSystem` | internal/session/build.go:79-98 | Messages bodies that keep off the reserved role share turn 0 only with equal system prompts |
| `Sessions.FindParentTx` | internal/store/sqlite/insert.go:200-230 | an answer the query may give: a matching row no other beats by prefix_len and ts_start, or none when none matches |
| `Sessions.Store.AppendTrace` | internal/store/sqlite/insert.go:114-196 | commits exactly when no statement it executes fails; then it adds the one row, linked as the query answered, and otherwise leaves the table as it was |
| `Sessions.LookupIsScan` | internal/store/sqlite/insert.go:200-230 | the hash lookup answers exactly what a scan comparing turns answers: the longest strict prefix, the latest start on ties |
| `Sessions.LookupIsReferenceScanIff` | experiments/session-inference/algo_test.py:48-72 | lookup and script answer alike exactly when the longest rows the trace continues all started before it and, if there is none, no row without turns under its key did |
| `SessionForest.TurnlessRowParts` | experiments/session-inference/algo_test.py:48-72 | a reachable index on which the script takes a row without turns for a parent and the lookup finds none |
| `SessionForest.LaterRowParts` | experiments/session-inference/algo_test.py:48-72 | a reachable index on which the lookup takes a row that started later and the script finds none |
| `Sessions.ApplyInv` | internal/store/sqlite/insert.go:126-150 | an append keeps the forest and the session columns coherent, and so does any delete |
| `Sessions.NewRowContinuesLongest` | internal/store/sqlite/insert.go:114-230 | in every reachable index a new row's parent is the longest row under its key that it continues, and it inherits that row's root |
| `Sessions.ContinuedRowIsFound` | internal/store/sqlite/insert.go:200-230 | when a new trace continues a row of the index its parent is that row or a longer one it continues |
| `SessionForest.FollowUpIsLinked` | internal/session/build.go:79-98 | so a Messages request that extends one in the index, under the same key and system prompt, always gets a parent at least as long |
| `SessionForest.ChainClimbs` | internal/store/sqlite/insert.go:126-150 | deletes or not, a parent chain goes by strictly shorter prefixes under one key to the root all its rows name |
| `SessionForest.ParentChains` | internal/store/sqlite/insert.go:114-196 | without deletes every parent chain stays in the table, prefix_len strictly falls along it and it ends at the self-root every row on it names |
| `SessionForest.SessionSharesRootTurns` | internal/store/sqlite/insert.go:126-150 | two rows of one session have one key and both begin with all the root's turns |
| `SessionForest.DifferentSystemsDifferentSessions` | internal/session/build.go:79-98 | Messages conversations with different system prompts are never one session when no client opens with the reserved role |
| `SessionForest.ReservedRoleJoinsSessions` | internal/session/prefix.go:17-26 | a reachable index in which a client that uses the reserved role is joined by another conversation |
| `SessionForest.ReplacedRowCanBeItsOwnParent` | internal/store/sqlite/insert.go:152-160 | inserting under an id already there can make a row its own parent |
| `Export.WriteGroupEntry` | internal/exporter/exporter.go:399-469 | the loop over the lines yields the recorded ones and the entry name's verdict; a missing or broken source is an error |
| `Export.RecordedStartsMeans` | internal/exporter/exporter.go:418-440 | the lines picked are, in ascending order, exactly those that begin at a recorded offset |
| `Export.ReadsItsLine` | internal/api/jsonlread.go:26-90 | reading at a line start of a file of whole lines returns that line without its newline |
| `Export.ReadsOneLineIff` | internal/api/jsonlread.go:26-90 | reading at a position returns exactly a nonempty line up to an LF or to the end of data that is not broken |
| `Export.CompressedReadsTheSame` | internal/api/jsonlread.go:26-90 | a compressed file reads, by row and as a whole, as the plain one did |
| `Export.PlainFirst` | internal/exporter/exporter.go:496-515 | the plain file is read while it is there, then the compressed one, and nothing exactly when neither can be opened |
| `Export.ExportIsRowReads` | internal/exporter/exporter.go:399-469 | an entry is the concatenation of what reading each recorded offset on its own returns, newlines restored |
| `Export.CompleteIff` | internal/exporter/exporter.go:442-455 | the entry is named complete exactly when it is the whole file and every recorded offset begins a line |
| `Export.GroupRows` | internal/exporter/exporter.go:156-184 | every matched row is in its path's group under its offset, nothing else is, and a group has its rows' earliest start |
| `Cursors.IntRoundTrip` | internal/api/traces.go:174-193 | every 64-bit integer survives its decimal form, which has no colon |
| `Cursors.Signs` | internal/api/traces.go:174-193 | only numbers below zero are written with a sign, and a plus sign is read |
| `Cursors.CursorRoundTrip` | internal/api/traces.go:174-193 | decoding inverts encoding for every 64-bit time and every id, colons included |
| `Pagination.Query` | internal/store/sqlite/query.go:74-84 | rows come in descending (ts_start, id) order, as many as asked for |
| `Pagination.List` | internal/store/sqlite/query.go:49-108 | a page is the first rows below the cursor, as many as asked for within 1 to 500, a hundred by default, and names a next one exactly when more are left |
| `Pagination.SortedMeans` | internal/store/sqlite/query.go:74-84 | the query order lists each row once, descending |
| `Pagination.WalkDescends` | internal/store/sqlite/query.go:60-66 | whatever is inserted or deleted between pages, following the cursor only descends, so no row comes twice |
| `Pagination.NothingMissed` | internal/store/sqlite/query.go:49-108 | a walk that reaches the end shows every row that was there all along |
| `Pagination.WalkEnumeratesIff` | internal/api/traces.go:37-46 | a table that stays as it is is listed whole, once and in order exactly when no page but the last ends at an empty id |
| `Pagination.WalkEnumerates` | internal/api/traces.go:37-46 | so with the nonempty ids traces have, each row is listed once, in descending order |
| `Bodies.BuildChatResponse` | internal/plugin/v2/build.go:189-218 | re-parsing the built body gives the same content and tool calls; the one choice holds the assistant message and the finish reason, and every other root key keeps its value |
| `Bodies.ChatBodyReads` | internal/plugin/v2/parsed.go:276-293 | the chat parser reads a body whose choices all fit for the first message, and any other as nothing, said of the body itself |
| `Bodies.PartsOnLines` | internal/plugin/v2/parsed.go:246-260 | an array of parts reads as its text parts, each on its own line, from the first that is not empty on |
| `Bodies.BuildMessagesResponse` | internal/plugin/v2/build.go:304-332 | fails exactly on arguments that are not JSON; otherwise re-parsing gives the same content and reasoning and the tool calls with their arguments as marshalling embeds them, and every other root key keeps its value |
| `Bodies.SameCallsIff` | internal/plugin/v2/build.go:319-326 | tool calls come back unchanged exactly when no arguments text has whitespace between tokens or a character that is spelled as an escape |
| `Bodies.CallsThatChange` | internal/plugin/v2/build.go:319-326 | arguments with a space, and with each spelled character, and what comes back |
| `RawText.CompactIff` | internal/plugin/v2/build.go:319-326 | a raw text is embedded as it is exactly when there is nothing in it to drop or to spell |
| `RawText.LiteralKept` | internal/plugin/v2/build.go:319-326 | a string literal in it keeps its whitespace and its escapes |
| `RawText.SpelledByCode` | internal/plugin/v2/build.go:319-326 | an escaped character is spelled by its code |
| `Bodies.CollectMessagesBlocks` | internal/plugin/v2/parsed.go:594-621 | texts and thinking are joined and tool calls listed, in block order; blocks of another shape are skipped |
| `Bodies.BlocksAddUp` | internal/plugin/v2/parsed.go:594-621 | two stretches of blocks say what each says, one after the other |
| `Bodies.OneBlock` | internal/plugin/v2/parsed.go:597-617 | one block is read as text, thinking or tool call by its type, and as nothing when a field does not fit |
| `Bodies.BuildResponsesResponse` | internal/plugin/v2/build.go:387-420 | re-parsing the built body gives the same content, reasoning and tool calls, and every other root key keeps its value |
| `Bodies.ItemsAddUp` | internal/plugin/v2/parsed.go:835-900 | two stretches of output items say what each says, one after the other |
| `Bodies.ItemOfParts` | internal/plugin/v2/parsed.go:849-882 | a message or reasoning item reads as its inner parts of the right kinds, joined |
| `Bodies.OneCallItem` | internal/plugin/v2/parsed.go:883-896 | a function call reads with its arguments as the string they are, or as the text of any other value |
| `TextReplace.ApplyRules` | internal/plugin/v2/builtin/textreplace/textreplace.go:234-242 | skipping rules that do not match changes nothing: the result is every rule applied in order |
| `TextReplace.ReplacesEveryMatch` | internal/plugin/v2/builtin/textreplace/textreplace.go:234-242 | a rule replaces every match, leftmost first, and nothing else |
| `TextReplace.UnmatchedUnchanged` | internal/plugin/v2/builtin/textreplace/textreplace.go:251-299 | a text no rule matches at first is one no rule ever changes, so the pre-scan is safe |
| `TextReplace.RewriteMessages` | internal/plugin/v2/builtin/textreplace/textreplace.go:251-290 | each turn is the plain map of the rules over its text parts, the input is not written to, clean turns are shared and changed means a rule matched |
| `TextReplace.RuleModifiesIff` | internal/plugin/v2/builtin/textreplace/textreplace.go:234-242 | one rule changes a text exactly when it matches and does not replace its match by itself |
| `TextReplace.OneRuleChangedIff` | internal/plugin/v2/builtin/textreplace/textreplace.go:244-250 | with one rule a match means a modified text exactly unless the rule matches and replaces its match by itself |
| `TextReplace.ModifiedWasMatched` | internal/plugin/v2/builtin/textreplace/textreplace.go:244-250 | with any rules a modified text is one some rule matched |
| `TextReplace.RulesThatUndo` | internal/plugin/v2/builtin/textreplace/textreplace.go:244-250 | two rules that match a text and leave it as it was |

## Left out

- HTTP serving, proxying, auth, health, replay, viewer, configuration and logging: plumbing.
- Real SQLite, gzip, sha256, base64 and encoding/json: see the assumptions.
- The Gemini stream and body paths and multi-choice Chat frames: they pick the text to classify and the text to rewrite differently.
- Request body builders and parsers, and the streaming halves of the response parsers.
- Usage, client, project and media extraction, counters, IP and route predicates.
- The media subtree in `deleteIfIdle` and in exports, the zip container, its README and byte cap, and the CLI export, which reads without leases.
- API readers of single traces hold no lease, so they may race a deletion.
- Filters of the trace list stand as the set of rows that match; the other columns ride along.
- Values built from `time.Time` arithmetic beyond a nondecreasing integer clock; tickers and the idle watchdog.
- Text-replace across delta boundaries: streaming is per delta by design.
- DispatcherTheorems.WrapStream: the channel's buffering and cancellation are not modelled.
- StorageCrash.RepairRestores: `Repair` is a pass that hits neither its cap nor a fault; `Monitor.PassIsRepair` relates it to the loop.
- Writer.Writer.AppendOne: the writer has an index and a coordinator; running without either is not modelled.
- Monitor.DeleteIfIdle: a failing second remove or row delete is not modelled, except as a crash.
- Monitor.Index.ReconcileOrphans: the whole pass is uninterrupted; `Reconcile` has its loop body among the steps of the others.
- Sessions.Store.AppendTrace: says what one transaction does for any id; the forest theorems take fresh ids.
- TextAppend.OnAfter: request suffixes and the guard against a missing request are not modelled.
- TextAppend.IterateAfter: disabled instances, interceptions and other plugin types in the chain are not modelled.
- Eviction.RunEviction: deleteIfIdle stands as an outcome per file here; `Monitor.DeleteIfIdle` is the operation itself.
