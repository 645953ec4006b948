# Batchalign: a verified model

Batchalign turns recordings and transcripts into annotated CHAT transcripts. A pipeline orders its stages
by their prerequisites and runs each input through them; an engine batches the stages' requests to model
backends behind a shared cache; a Python side segments and aligns token sequences; a desktop app follows the
progress. This project models that logic in Dafny and proves properties of it for every input, every run and
every interleaving. It is a model: nothing here runs the program.

`dafny verify dfyconfig.toml` checks the whole project.

| file | what it models | main results |
|---|---|---|
| `DpAlign.dfy` | the full-table, rolling-row and divide-and-conquer edit-distance aligners | the divide-and-conquer aligner is optimal among all alignments, for every match relation and cutoff, and its matches are a longest order-preserving matching |
| `Calendar.dfy`, `Timestamp.dfy` | the closed-form civil date and the UTC timestamp | the closed form is the Gregorian calendar counted day by day; exactly the day range on which the 32-bit year is right; timestamps sort as time does and read back |
| `BatchProtocol.dfy`, `EngineProtocol.dfy`, `DispatchFate.dfy`, `CacheTransparency.dfy`, `CachePersistence.dfy`, `RoutingEcho.dfy` | the batcher loop, the engine that feeds it, the shared cache | every request answered exactly once in every interleaving, within a bounded number of steps; exactly when it is refused; the loop refines the step machine; the cache changes no answer, saves every recomputation and keeps the last answer; exactly when replies echo their requests' routing |
| `TopoSort.dfy`, `PipelineRun.dfy` | the stable topological order, the poison-pill run, the collection of outcomes | the order is unique whatever the hash iteration order and lexicographically least; complete exactly when there is no deadlock; exactly when a run succeeds and what it leaves; the shape of every run's trace, the runners' own events included; exactly when completion is reported |
| `BertWindows.dfy`, `BertActions.dfy` | windowed token classification, singly and in packed batches, cleanup, grouping | windows overlap by exactly 96 tokens; the batch predictor agrees with the single one on every sequence; each window is in exactly one pass within the limits |
| `Csv.dfy` | the two CSV writers | a reader gives back what was written exactly when every row has a cell; both writers emit the same bytes |
| `Progress.dfy` | `ScaledProgress` | the bar never goes back, never passes its constant total, ends on it |
| `Decisions.dfy` | decision-tier injection | injecting again changes nothing; other tiers stay in order; no decision is lost |
| `Reducer.dfy` | the desktop app's reducer | the state invariant over all action sequences; what a running batch keeps, from any moment of it on; what finishing changes |
| `Options.dfy`, `StableSort.dfy` | the optional value and the stable library sort the other modules share | the sort is a stable one |

Where the source changes state step by step the model is a method with the source's loop, proved equal to a
function (or to the step machine); the properties are lemmas about that function. Waiting, arrival order,
backend results, cache failures and what other processes write are arbitrary: they are scripts and action
sequences over which every theorem quantifies.

## Where the code and its documentation disagree

The model follows the code.

- `SourceCompleted` is documented as "finished all stages" (`base.rs:746-747`). The code also emits it when the
  FINAL stage failed; only a failure before the last stage suppresses it (`pipeline.rs:717-733`).
  `PipelineRun.CompletionReported` states exactly when it is emitted, `PipelineRun.FinalFailureStillCompletes`
  gives, for any stages, a run whose final stage fails and which reports completion. A stage without a runner
  emits `StageStarted` and no closing event.
- Outputs are documented to echo their input's routing fields (`proto/asr.rs:121`). Routing is not part of the
  cache key, so a cached reply carries the routing of the first request with that content:
  `RoutingEcho.CachedReplyKeepsFirstRouting` gives the run, for any batch limit. With backends that echo,
  `RoutingEcho.EchoedExactlyWhen` says when replies do: exactly when the cache is not read or the requests agree
  in routing wherever they agree in task and content.
- The batcher's header says cache writes come before the reply (`batcher.rs:48`); the code replies first and
  awaits the writes afterwards (`batcher.rs:174-198`). The model does the latter, and `NoRecomputation` needs
  only that they are awaited before the next receive.
- A cancelled engine is documented to return `BAError::Cancelled` (`engine.rs:90-92`); it returns a `Worker`
  error (`engine.rs:195-197`).
- Pending dispatches are documented to see `send()` fail at shutdown (`engine.rs:225-227`). A waiting caller
  holds its own clone of the sender, which keeps the channel open: it is served, and the batcher stops only
  after it (`EngineProtocol.RunKeepsOrder`, `EngineProtocol.ExhaustedMeansAnswered`).
- `LowConfidence` is documented as emitting only decisions that need review (`decisions.rs:20`); the code emits
  every decision at that level (`decisions.rs:405-423`), and so does the model.
- A row finished with an error can be marked failed without any failing stage: exactly when all its stages were
  already done (`Reducer.FinishWithError`; `Reducer.SkippedThenFailed` reaches such a row). Finishing without an
  error turns failed rows into done ones (`Reducer.FinishOfSettled`).
- A table without columns does not read back: exactly the rows without cells do not (`Csv.RoundTrip`,
  `Csv.NoColumnsIsAmbiguous`).
- The year is narrowed to 32 bits without a check: `Calendar.CivilIsCalendarExactlyWhenYearFits` gives the exact
  range of days.

## Model

Paths are relative to the root of the repository.

| member | source | states |
|---|---|---|
| DpAlign.HirschbergOptimal | python/batchalign/utils/dp.py:164-201 | for every reference, payload, match relation and cutoff, the divide-and-conquer result is an alignment with no more extras and no fewer matches than ANY alignment, and as many of each as the full-table one |
| DpAlign.HirschbergFindsLongestMatching | python/batchalign/utils/dp.py:164-201 | its matches form a longest order-preserving matching of the keys |
| DpAlign.HirschbergAligns | python/batchalign/utils/dp.py:164-201 | it consumes both inputs in order, matches only keys that match, and has exactly the edit distance many extras |
| DpAlign.AlignersConserve | python/batchalign/utils/dp.py:118-201 | both aligners give back the reference with its metadata and the payload's metadata, in order |
| DpAlign.HirschbergAlign | python/batchalign/utils/dp.py:164-201 | the recursion on slices around the split search terminates and returns the specified records |
| DpAlign.AlignSmall | python/batchalign/utils/dp.py:108-161 | table, backtrace and final reversal together produce the records of the trace |
| DpAlign.FillTable | python/batchalign/utils/dp.py:114-137 | every cell of the table holds the distance and the step of its two prefixes |
| DpAlign.TraceAligns | python/batchalign/utils/dp.py:142-161 | the backtrace from any cell is an alignment of its prefixes with exactly the cell's cost in extras |
| DpAlign.SmallAlignmentPrefers | python/batchalign/utils/dp.py:114-161 | among the best alignments the full-table aligner matches last items that match; otherwise it makes both extras, the reference first, when that is among the best, then the reference item, then the payload item |
| DpAlign.SmallAlignmentOfEmpty | python/batchalign/utils/dp.py:114-117 | next to an empty side every item is an extra, in order |
| DpAlign.TraceOfPrefixes | python/batchalign/utils/dp.py:142-161 | the backtrace from any cell is what aligning its two prefixes alone gives |
| DpAlign.HirschbergDivides | python/batchalign/utils/dp.py:164-201 | the divide-and-conquer aligner is the full-table one up to the cutoff; above it, it halves the reference and cuts the payload at the first position of least summed distance |
| DpAlign.CellAt | python/batchalign/utils/dp.py:114-137 | the first component of a cell is the edit distance of its prefixes, whichever branch set it |
| DpAlign.DistanceIsLowerBound | python/batchalign/utils/dp.py:83-84 | no alignment has fewer extras than the recurrence (match 0, insertion or deletion 1, substitution 2) says |
| DpAlign.AlignmentCounts | python/batchalign/utils/dp.py:142-161 | extras plus twice the matches is the total input length, so fewest extras means most matches |
| DpAlign.RowCosts | python/batchalign/utils/dp.py:87-105 | the rolling row ends as the distances of the whole reference to every payload prefix |
| DpAlign.DistOfPrefixes | python/batchalign/utils/dp.py:87-105 | a table entry is the distance of its two prefixes taken alone |
| DpAlign.DistReverse | python/batchalign/utils/dp.py:180-183 | reversing both sides keeps the distance |
| DpAlign.SuffixCost | python/batchalign/utils/dp.py:180-189 | the reversed row read from its far end holds the distances of the payload suffixes |
| DpAlign.SplitAttainsDist | python/batchalign/utils/dp.py:185-193 | no split costs less than the whole problem, and the one found costs exactly that |
| DpAlign.FindSplit | python/batchalign/utils/dp.py:179-193 | the search over the two rows returns the first split of least cost |
| DpAlign.AlignmentCut | python/batchalign/utils/dp.py:175-201 | any alignment can be cut at any reference position into alignments of the two parts |
| DpAlign.AlignmentConcat | python/batchalign/utils/dp.py:198-201 | concatenated alignments align the concatenated inputs, and their extras add up |
| Calendar.WideCivilIsCalendar | crates/batchalign/batchalign-core/src/utils.rs:651-662 | for every day, negative ones included, the closed form is the Gregorian date counted one day at a time from 1970-01-01 |
| Calendar.CivilIsCalendarExactlyWhenYearFits | crates/batchalign/batchalign-core/src/utils.rs:651-664 | the returned date is the calendar's exactly on the days whose year fits 32 bits, a range given by its first and last day |
| Calendar.WideCivilInvertsDayNumber | crates/batchalign/batchalign-core/src/utils.rs:651-662 | naming a day and counting the days up to a date are inverse, both ways, for every day and every valid date |
| Calendar.CalendarIsUnique | crates/batchalign/batchalign-core/src/utils.rs:651-664 | only the calendar starts at 1970-01-01 on day 0 and steps from each day to the next |
| Calendar.EraSuccessor | crates/batchalign/batchalign-core/src/utils.rs:653-662 | within and across 400-year eras the date of the next day is the calendar successor |
| Calendar.YearOfEraIsRight | crates/batchalign/batchalign-core/src/utils.rs:656 | the nested-division formula gives the year of the era the day falls in |
| Calendar.DayOfYearSuccessor | crates/batchalign/batchalign-core/src/utils.rs:658-662 | the month and day formulas step through a March-based year with the right month lengths |
| Calendar.LaterDayLaterDate | crates/batchalign/batchalign-core/src/utils.rs:651-664 | a later day has a later date |
| Timestamp.TimestampOrder | crates/batchalign/batchalign-core/src/utils.rs:637-649 | for years 0 to 9999 a later second has a lexicographically larger timestamp |
| Timestamp.TimestampLength | crates/batchalign/batchalign-core/src/utils.rs:648 | for those years every timestamp has 20 characters |
| Timestamp.TimestampReadsBack | crates/batchalign/batchalign-core/src/utils.rs:637-649 | the numerals and separators of a timestamp are where the format says; read back they give the calendar date and the time of day, and with them the clock reading |
| Timestamp.PaddedReads | crates/batchalign/batchalign-core/src/utils.rs:648 | a zero-padded number is a decimal numeral that stands for it |
| Timestamp.RenderOrder | crates/batchalign/batchalign-core/src/utils.rs:648 | zero-padded fields of fixed width, most significant first, sort as the fields do |
| TopoSort.TopoSortStable | crates/batchalign/batchalign-engine/src/pipeline.rs:965-1011 | Kahn's loop, for any iteration order of its hash containers, returns a schedule that at each position holds the earliest-declared available entry |
| TopoSort.GreedyIsUnique | crates/batchalign/batchalign-engine/src/pipeline.rs:961-964 | there is only one such schedule, so hash order cannot show |
| TopoSort.GreedyCompleteIffNoDeadlock | crates/batchalign/batchalign-engine/src/pipeline.rs:995-1010 | the schedule covers the whole set in a valid order exactly when no part of the set waits in a circle |
| TopoSort.GreedyIsLexLeast | crates/batchalign/batchalign-engine/src/pipeline.rs:961-977 | no valid order is smaller, comparing declaration ranks from left to right |
| TopoSort.ConsistentDeclarationIsKept | crates/batchalign/batchalign-engine/src/pipeline.rs:961-977 | a declaration that is already a valid order comes back unchanged |
| TopoSort.BuildEdges | crates/batchalign/batchalign-engine/src/pipeline.rs:978-988 | in-degrees count the unmet prerequisites and edge lists hold the successors, with repetitions |
| TopoSort.Release | crates/batchalign/batchalign-engine/src/pipeline.rs:999-1008 | removing the picked entry updates the in-degrees and releases exactly the entries that became available |
| PipelineRun.PipelineOrder | crates/batchalign/batchalign-engine/src/pipeline.rs:97-101 | the declared stages, each once: Asr before UtSeg, UtSeg before Fa, Morphosyntax and Phonetic, Utr before Fa and Phonetic, Fa before Phonetic, Morphosyntax before Coref and Translate; the least valid order; a declaration that breaks none of these pairs unchanged |
| PipelineRun.NoDeadlock | crates/batchalign/batchalign-core/src/base.rs:79-103 | the prerequisites of the stages contain no circle |
| PipelineRun.StageOrderIsOrder | crates/batchalign/batchalign-core/src/base.rs:79-103 | those nine pairs are all the prerequisites there are |
| PipelineRun.GateReportsFirstInvalid | crates/batchalign/batchalign-engine/src/pipeline.rs:881-903 | a stage gate reports the first document, from the left, that does not validate, and passes exactly when there is none |
| PipelineRun.TryStep | crates/batchalign/batchalign-engine/src/pipeline.rs:781-870 | one stage: it passes, or fails in one of the four ways, with the value, the partial value and the events that each has, the runner's own events in the same sink included |
| PipelineRun.RunOne | crates/batchalign/batchalign-engine/src/pipeline.rs:712-734 | a run succeeds exactly when there are values, each what the stage's runner left of the one before, such that every stage passes and none has failed, and it then leaves the last of them with exactly its transcripts stamped; a failed run leaves the failed value, with what there was as its partial |
| PipelineRun.StepIs | crates/batchalign/batchalign-engine/src/pipeline.rs:781-870 | what a stage leaves is exactly what its passing or its failing says: the runner's value when runner, gates and documents are fine, otherwise a failure with its source, its error and the value it was given or the runner left |
| PipelineRun.RunLeaves | crates/batchalign/batchalign-engine/src/pipeline.rs:712-734 | there is a sequence of values, one for each stage entered, each following from the one before by a passing or failing stage; every such sequence ends on what the run leaves; and the events are those of the stages, and completion when all were entered |
| PipelineRun.RunSucceedsExactlyWhen | crates/batchalign/batchalign-engine/src/pipeline.rs:712-734 | the same, with the condition for success: every stage passes and no value has failed |
| PipelineRun.StampIsExact | crates/batchalign/batchalign-engine/src/pipeline.rs:745-779 | stamping gives the one list that differs from the value in exactly its transcripts, which carry the stamp |
| PipelineRun.SourceIsLeftmost | crates/batchalign/batchalign-core/src/base.rs:570-588 | a value's source is that of its leftmost part, of its first transcript where that holds transcripts |
| PipelineRun.PartsDecide | crates/batchalign/batchalign-core/src/base.rs:591-597 | a value has failed exactly when some part of it has, and a gate is shown exactly the documents that its parts hold |
| PipelineRun.RunInBlocks | crates/batchalign/batchalign-engine/src/pipeline.rs:717-733 | every run, whatever its runners do, is one block of events for each stage it enters, entered with a value that has not failed, and then a completion event exactly when all stages were entered |
| PipelineRun.RunTrace | crates/batchalign/batchalign-engine/src/pipeline.rs:712-870 | with runners that keep to what the canonical ones keep to, each block is the stage's own start, the runner's events of that stage, and one closing event; only the last block can close as failed, exactly when the outcome is failed, with its source and error; nothing but completion follows |
| PipelineRun.CompletionReported | crates/batchalign/batchalign-engine/src/pipeline.rs:717-733 | on every run, from any input: completion is reported, once and last, exactly when no stage before the final one leaves a failed value |
| PipelineRun.FinalFailureStillCompletes | crates/batchalign/batchalign-engine/src/pipeline.rs:717-733 | for any stages and any of them that fails there is a run that fails there, and it reports completion exactly when that stage is the final one |
| PipelineRun.StampKeepsFailed | crates/batchalign/batchalign-engine/src/pipeline.rs:745-779 | provenance stamping does not change whether a value has failed |
| PipelineRun.CollectOutcomes | crates/batchalign/batchalign-engine/src/pipeline.rs:584-635 | whatever the completion order, retained outcomes come back in input order and the callback sees the unfailed ones as they arrive; the first abort or callback error stops the collection with that error |
| PipelineRun.CalledInTurn | crates/batchalign/batchalign-engine/src/pipeline.rs:584-612 | the callback is given, of each arrival in turn, the value of one that is done and has not failed |
| PipelineRun.EverySlotFilled | crates/batchalign/batchalign-engine/src/pipeline.rs:613-634 | one completion per input leaves no slot empty, so the final unwrap cannot fail |
| BertWindows.PredictWordActionsBatch | python/batchalign/backends/asr/chatwhisper.py:347-478 | for a model whose rows do not depend on padding or on each other, the packed predictor returns for each sequence what the single predictor returns; its forward calls are passes that cut the sorted window list, each padded to its longest window, within both limits |
| BertWindows.PredictWordActions | python/batchalign/backends/asr/chatwhisper.py:290-345 | the single predictor returns for each word the label of the token that starts it, by mean logit over the windows |
| BertWindows.WindowsOverlap | python/batchalign/backends/asr/chatwhisper.py:307-340 | every window of a sequence but the last holds min(480, maxPositions - 2) tokens; when that is more than 96 the next starts exactly 96 tokens before its end, and any 97 tokens in a row are together in one window; otherwise the next starts at its end |
| BertWindows.OneWindow | python/batchalign/backends/asr/chatwhisper.py:321-336 | a window adds at each of its tokens what the model scores there, run on the window alone, and nothing elsewhere |
| BertWindows.WordsAreLabelled | python/batchalign/backends/asr/chatwhisper.py:337-345 | a word that no token opens gets 0; any other the first class of largest total of the last token that opens it |
| BertWindows.PassesPartition | python/batchalign/backends/asr/chatwhisper.py:424-435 | the passes are the window list cut into consecutive pieces: each window in exactly one, none over either limit unless it is a single window, and each but the last full: one more window would break a limit |
| BertWindows.TakePass | python/batchalign/backends/asr/chatwhisper.py:425-435 | a pass is the longest prefix within both limits, or a single window |
| BertWindows.RunPass | python/batchalign/backends/asr/chatwhisper.py:437-457 | the forward call has one row a window, padded to the longest, and gives each window the logits it would have alone |
| BertWindows.WindowsCover | python/batchalign/backends/asr/chatwhisper.py:321-340 | every window is a slice that fits the model, and every token is in at least one |
| BertWindows.AllWindowsFit | python/batchalign/backends/asr/chatwhisper.py:385-415 | every window the batch predictor cuts is a slice of its own sequence that fits the model |
| BertWindows.AccumulateWindows | python/batchalign/backends/asr/chatwhisper.py:314-340 | the accumulators end as the sums and counts over all windows of the sequence |
| BertWindows.SumPermutation | python/batchalign/backends/asr/chatwhisper.py:417-419 | sums and counts do not depend on the order of the windows |
| BertWindows.OwnWindows | python/batchalign/backends/asr/chatwhisper.py:458-463 | among the windows of all sequences, each sequence sees the sums of its own |
| BertWindows.BatchLabels | python/batchalign/backends/asr/chatwhisper.py:458-471 | sums over any rearrangement of all windows give each sequence the labels of the single predictor |
| BertWindows.SortByLength | python/batchalign/backends/asr/chatwhisper.py:417-419 | sorting by padded length keeps every window |
| StableSort.SortIsStable | python/batchalign/backends/asr/chatwhisper.py:419 | windows of one length keep their order |
| BertWindows.CollectWordActions | python/batchalign/backends/asr/chatwhisper.py:337-345 | each word gets the label of the last token that starts it, or 0 |
| BertWindows.TokenLabelsAreBest | python/batchalign/backends/asr/chatwhisper.py:321-336 | each token's label is the first class of largest total logit over the windows it is in; the division by the count decides nothing |
| BertWindows.FirstTokenDecides | python/batchalign/backends/asr/chatwhisper.py:337-345 | when tokens come in word order, that is the word's first token |
| BertActions.NormalizeWordMapping | python/batchalign/backends/asr/chatwhisper.py:210-223 | the normalized words and their source positions |
| BertActions.MappingIsRight | python/batchalign/backends/asr/chatwhisper.py:210-223 | positions increase, and each normalized word is the cleaned, non-empty word at its position |
| BertActions.MappingIsComplete | python/batchalign/backends/asr/chatwhisper.py:210-223 | a position is kept exactly when its cleaned word is not empty |
| BertActions.StripsFourMarks | python/batchalign/backends/asr/chatwhisper.py:63 | cleaning removes full stops, question marks, exclamation marks and commas, and leaves every other character in its place |
| BertActions.FinalizeActions | python/batchalign/backends/asr/chatwhisper.py:236-252 | cleanup and expansion to source positions |
| BertActions.CleanupRestoresPositions | python/batchalign/backends/asr/chatwhisper.py:236-252 | actions keep the source length, dropped words get 0, the k-th kept word gets the k-th cleaned label |
| BertActions.CleanupKeepsLastOfRun | python/batchalign/backends/asr/chatwhisper.py:241-247 | a positive label survives exactly when it is the last of its run; no two neighbours survive; every run has a survivor |
| BertActions.PredictActions | python/batchalign/backends/asr/chatwhisper.py:225-233 | the actions of one sequence, zeros when at most one word is left |
| BertActions.ActionsOfKept | python/batchalign/backends/asr/chatwhisper.py:225-252 | every dropped word gets 0, and every word when at most one is kept; otherwise the k-th kept word gets the model's label, or 0 when that and the next are both positive |
| BertActions.PredictActionsBatch | python/batchalign/backends/asr/chatwhisper.py:254-288 | the batch form returns for each sequence what the single form returns, with forward calls of at most 32 rows and 2048 tokens, padding included, or a single row |
| BertActions.PredictAssignments | python/batchalign/backends/asr/chatwhisper.py:480-490 | the groups of one sequence |
| BertActions.PredictAssignmentsBatch | python/batchalign/backends/asr/chatwhisper.py:492-505 | the batch form returns for each sequence what the single form returns |
| BertActions.AssignmentsRiseAtBoundaries | python/batchalign/backends/asr/chatwhisper.py:480-490 | assignments follow the words, start at 0, and rise by one exactly after the actions 2, 3 and 4 |
| BertActions.ChunkWordsForBert | python/batchalign/backends/asr/chatwhisper.py:80-110 | the argument errors, and chunks that are slices of the passage at fixed steps, full but for the last, ending with the passage |
| BertActions.ChunksCover | python/batchalign/backends/asr/chatwhisper.py:80-110 | every word is in some chunk, at its place |
| BatchProtocol.Cache.Get | crates/batchalign/batchalign-engine/src/cache.rs:344-380 | a read is a miss under `Bypass` and `Refresh`, on failure and on an absent key; otherwise the stored output |
| BatchProtocol.Cache.Put | crates/batchalign/batchalign-engine/src/cache.rs:388-416 | a write is dropped under `Bypass` and on failure; otherwise it sets that one key |
| BatchProtocol.GetAfterPut | crates/batchalign/batchalign-engine/src/cache.rs:323-416 | only `Use` reads; a read finds what was last written, under `Use` or `Refresh`, for the same task and content by a backend of the same build and name, and anything else as it was |
| BatchProtocol.BatcherLoop | crates/batchalign/batchalign-engine/src/batcher.rs:49-224 | on every script of arrivals, deadlines, closes, backend results and cache failures the loop leaves the replies, calls and store of the step machine |
| BatchProtocol.GatherInWindow | crates/batchalign/batchalign-engine/src/batcher.rs:92-113 | the batching window: until the batch is full, the deadline passes or the channel closes |
| BatchProtocol.DrainQueued | crates/batchalign/batchalign-engine/src/batcher.rs:114-134 | after a first hit: what is already queued, until the batch is full or the queue is empty |
| BatchProtocol.DistributeOutputs | crates/batchalign/batchalign-engine/src/batcher.rs:167-222 | reply i is output i; any other return errors every member and asks for no cache write |
| BatchProtocol.SharesOfCall | crates/batchalign/batchalign-engine/src/batcher.rs:167-222 | what each member of a call is told for each kind of return: its output, a wrong-length error with both lengths, the backend's error, or its panic |
| BatchProtocol.MissFills | crates/batchalign/batchalign-engine/src/batcher.rs:56-134 | a miss joins the batch, and the call follows exactly when it makes the batch as large as configured, 0 counting as 1 |
| BatchProtocol.HitAnswers | crates/batchalign/batchalign-engine/src/batcher.rs:77-134 | a hit is answered at once; a first one makes the batch take only what is queued |
| BatchProtocol.BatchCloses | crates/batchalign/batchalign-engine/src/batcher.rs:92-134 | a deadline, a closed channel or an empty queue ends a batch as it is; with nothing gathered the batcher waits again, or stops when the channel has closed |
| BatchProtocol.StepKeepsLocalOk | crates/batchalign/batchalign-engine/src/batcher.rs:56-163 | every backend call carries at least one item and at most max(1, max_size) |
| BatchProtocol.RunKeepsLocalOk | crates/batchalign/batchalign-engine/src/batcher.rs:59-223 | what holds of a batcher between any two steps of any run |
| EngineProtocol.Register | crates/batchalign/batchalign-engine/src/engine.rs:136-151 | registration succeeds exactly when none of the declared kinds has a backend or is declared twice, and then routes those and no others to the new backend |
| DispatchFate.DispatchOutcome | crates/batchalign/batchalign-engine/src/engine.rs:190-212 | in every run a dispatch is answered with the cancellation exactly when a cancellation came before it, with the missing backend exactly when none did and its task has no route at that moment, and joins the waiting list of the backend registered for its task otherwise |
| DispatchFate.RefusedReplies | crates/batchalign/batchalign-engine/src/engine.rs:190-212 | in every run the replies that say so are exactly those to requests dispatched like that |
| DispatchFate.RefusedIsFinal | crates/batchalign/batchalign-engine/src/engine.rs:190-212 | a refused request has the refusal as its one reply from then on and is never held |
| DispatchFate.ShutdownStopsBatchers | crates/batchalign/batchalign-engine/src/engine.rs:225-232 | after a shutdown, once no caller and no batcher has a step left, every batcher has stopped; without one no batcher that serves a task stops |
| EngineProtocol.ExactlyOnce | crates/batchalign/batchalign-engine/src/engine.rs:190-223 | in every run a request is at any time either replied to exactly once or held in exactly one place, and nothing else is ever replied to |
| EngineProtocol.StoppedMeansAnswered | crates/batchalign/batchalign-engine/src/engine.rs:225-232 | once every batcher has stopped, every request has been replied to exactly once, closes in mid-window included |
| EngineProtocol.NeverStuck | crates/batchalign/batchalign-engine/src/batcher.rs:59-223 | as long as a request is held some caller or batcher has a step to take |
| EngineProtocol.StepsAreBounded | crates/batchalign/batchalign-engine/src/batcher.rs:59-223 | without new dispatches callers and batchers take no more steps than a measure of what is held allows, whatever backends and cache do |
| EngineProtocol.ExhaustedMeansAnswered | crates/batchalign/batchalign-engine/src/engine.rs:190-223 | a run taken until no caller and no batcher has a step left has answered every request exactly once |
| EngineProtocol.QueuesWithinCapacity | crates/batchalign/batchalign-engine/src/engine.rs:121-127 | in every run no queue outgrows its capacity |
| EngineProtocol.RunKeepsOrder | crates/batchalign/batchalign-engine/src/batcher.rs:59-165 | in every run queues are first in first out, and the calls carry the cache misses, each once, in arrival order, within the size limit |
| EngineProtocol.RepliesAreJustified | crates/batchalign/batchalign-engine/src/batcher.rs:77-222 | every reply is a refusal, a cache hit or the member's share of one call, and no member of a call goes without its share |
| EngineProtocol.AdvanceConserves | crates/batchalign/batchalign-engine/src/batcher.rs:59-223 | a batcher's step moves requests to the replies and loses or duplicates none |
| EngineProtocol.EngineRunsLoops | crates/batchalign/batchalign-engine/src/engine.rs:129-134 | what an engine run does to one backend is a script of its batcher loop, the other backends' cache writes being what it observes between its own steps |
| CacheTransparency.CacheIsTransparent | crates/batchalign/batchalign-engine/src/batcher.rs:77-199 | in every run, under each policy, for any batch boundaries and failing reads and writes, every successful reply is what the backend registered for that kind of request answers, up to routing |
| CacheTransparency.NoRecomputation | crates/batchalign/batchalign-engine/src/batcher.rs:188-198 | under `Use` with a cache that does not fail, content answered by a successful batch is in no later batch of that backend |
| CacheTransparency.OnlySuccessIsCached | crates/batchalign/batchalign-engine/src/batcher.rs:200-221 | every stored entry was there before, came from another process, or is a key with the output a successful call gave for it: failed and wrong-length batches leave no trace |
| CachePersistence.LastAnswerIsStored | crates/batchalign/batchalign-engine/src/batcher.rs:188-198 | under `Use` and `Refresh`, with writes that succeed and none left to do, a backend has written the last output it gave for each key, and that is what is stored unless others wrote the key after it |
| CachePersistence.BypassWritesNothing | crates/batchalign/batchalign-engine/src/cache.rs:388-391 | under `Bypass` the store is what it was and what other processes wrote |
| CachePersistence.RefreshedAnswerIsUsed | crates/batchalign/batchalign-engine/src/cache.rs:344-391 | after a run under `Refresh`, an engine under `Use` on that store answers requests of that content at once with the new output |
| CacheTransparency.NoHitsOutsideUse | crates/batchalign/batchalign-engine/src/cache.rs:344-348 | under `Bypass` and `Refresh` nothing is answered from the cache, in any run |
| CacheTransparency.AnsweredByOwnCall | crates/batchalign/batchalign-engine/src/cache.rs:344-348 | under those policies a successful reply is an output of the call its own request was in |
| RoutingEcho.EchoedExactlyWhen | crates/batchalign/batchalign-engine/src/cache.rs:323-332 | with backends that echo, all replies of all runs over a set of requests echo their routing if and only if the policy is not `Use` or the routed requests that agree in task and content agree in routing |
| RoutingEcho.EchoOutsideUse | crates/batchalign/batchalign-engine/src/cache.rs:344-348 | under `Bypass` and `Refresh` every successful reply of every run carries its own request's routing |
| RoutingEcho.ReplyCarriesSomeRouting | crates/batchalign/batchalign-engine/src/batcher.rs:77-199 | under every policy a successful reply carries the routing of some request with the same task and content |
| RoutingEcho.CachedReplyKeepsFirstRouting | crates/batchalign/batchalign-engine/src/cache.rs:323-332 | under `Use`, for every batch limit and every stored content, an engine run in which two requests that differ in routing only are both answered with the first one's |
| CacheTransparency.StepHonest | crates/batchalign/batchalign-engine/src/batcher.rs:59-199 | one batcher step keeps the store and the pending writes true, and answers truly |
| Csv.WriteCsvCell | crates/batchalign/batchalign-core/src/base.rs:693-710 | appends the cell, quoted and escaped when it has to be |
| Csv.WriteTable | crates/batchalign/batchalign-core/src/base.rs:657-680 | header and rows, with a missing or null column as an empty cell |
| Csv.CellOfColumn | crates/batchalign/batchalign-core/src/base.rs:657-680 | the header is the schema, and each row holds for each column its text, its rendering, or nothing where it is missing or null |
| Csv.QuotedExactlyWhen | crates/batchalign/batchalign-core/src/base.rs:693-710 | a cell is written as it is exactly when it holds no comma, quote, line feed or carriage return |
| Csv.WriteCsvRowBytes | crates/batchalign/batchalign-engine/src/metrics_writer.rs:64-95 | the byte writer emits the UTF-8 of exactly the text the other writer emits |
| Csv.CellParsed | crates/batchalign/batchalign-core/src/base.rs:693-710 | a reader of RFC 4180 section 2 takes a written cell and its separator as that cell, whatever its text |
| Csv.TableParsed | crates/batchalign/batchalign-core/src/base.rs:682-691 | written rows read back as themselves, except that a row without cells reads as one empty cell |
| Csv.RoundTrip | crates/batchalign/batchalign-core/src/base.rs:682-710 | reading gives the rows back exactly when every row has a cell |
| Csv.TableRoundTrip | crates/batchalign/batchalign-core/src/base.rs:657-672 | a table with at least one column reads back as its header and cells |
| Csv.NoColumnsIsAmbiguous | crates/batchalign/batchalign-core/src/base.rs:682-691 | without columns two different tables have the same text |
| Progress.ScaledProgress.Start | crates/batchalign/batchalign-core/src/base.rs:972-979 | counts the step and emits its floor |
| Progress.ScaledProgress.TickInner | crates/batchalign/batchalign-core/src/base.rs:1012-1024 | emits within the current step without moving the counter |
| Progress.ScaledProgress.Done | crates/batchalign/batchalign-core/src/base.rs:988-993 | emits the total |
| Progress.ProgressRises | crates/batchalign/batchalign-core/src/base.rs:919-931 | for any steps with forward ticks within them, completed counts never decrease, never exceed the constant total and end equal to it, exactly when the scaled total fits 64 bits |
| Progress.EmissionsOfStep | crates/batchalign/batchalign-core/src/base.rs:972-1024 | the exact counts: 4(k - 1) of 4N at the start of step k, the floor of 4i/n more at a tick, 4N at the end |
| Progress.ReportStage | crates/batchalign/batchalign-core/src/base.rs:904-917 | a stage that makes these calls on a new `ScaledProgress` emits such a sequence |
| Progress.FloorMonotone | crates/batchalign/batchalign-core/src/base.rs:1000 | a larger ratio has a floor at least as large |
| Decisions.InjectDecisionTiers | crates/batchalign/batchalign-core/src/decisions.rs:380-432 | in-place injection leaves every line as specified, at every level |
| Decisions.StripDecisionTiers | crates/batchalign/batchalign-core/src/decisions.rs:439-455 | in-place removal of the decision tiers |
| Decisions.IndexByLine | crates/batchalign/batchalign-core/src/decisions.rs:394-399 | the index holds, per line, the decisions about it in order |
| Decisions.ReinjectionIsIdempotent | crates/batchalign/batchalign-core/src/decisions.rs:380-455 | injecting the same decisions again changes nothing; other tiers stay, in order; an utterance has at most one tier of each kind |
| Decisions.EveryDecisionIsWritten | crates/batchalign/batchalign-core/src/decisions.rs:401-423 | no decision is lost: its utterance gets a tier that holds its content, and a review mark exactly when some decision about it needs review |
| Decisions.LineInjected | crates/batchalign/batchalign-core/src/decisions.rs:380-432 | the exact tiers of each line: unchanged at level `None` or without decisions; otherwise the other tiers and the joined decisions with a review mark when due, or the note `no_decisions` at level `All` on a bulleted utterance without decisions |
| Decisions.JoinSeparates | crates/batchalign/batchalign-core/src/decisions.rs:405-411 | the contents of an utterance's decisions stand in one tier with a semicolon and a space between them |
| Decisions.AboutInTurn | crates/batchalign/batchalign-core/src/decisions.rs:394-399 | the decisions about a line are those with its index, in the order they were made |
| Decisions.StripsTwoTags | crates/batchalign/batchalign-core/src/decisions.rs:439-455 | exactly the tiers tagged `xalign` and `xrev` go |
| Reducer.ReachableIsValid | apps/batchalign/batchalign-gui/src/store.ts:216-523 | over every action sequence with well-formed batches and rows: tabs are the open batches, each once; there is an active batch exactly when one is open; file order and files agree; percentages are 0 to 100; logs have at most 200 entries |
| Reducer.ReduceKeepsValid | apps/batchalign/batchalign-gui/src/store.ts:216-523 | every action keeps that invariant |
| Reducer.StartedBatchRuns | apps/batchalign/batchalign-gui/src/store.ts:365-503 | from a start with fresh rows to whatever ends the run, whatever else happens: a row is failed exactly when a stage failed and done means every stage done at 100; and from any moment on the job, the pipeline and the row set stay and rows then done or failed do not change |
| Reducer.WholeRun | apps/batchalign/batchalign-gui/src/store.ts:300-345 | the same from any running state: settled rows stay as they are to the end of the run, rediscovery and pipeline edits are ignored |
| Reducer.RunStep | apps/batchalign/batchalign-gui/src/store.ts:300-345 | one action in a run: rediscovery and pipeline edits are ignored, settled rows stay |
| Reducer.OtherJobsIgnored | apps/batchalign/batchalign-gui/src/store.ts:415 | progress that carries another job's id changes nothing at all |
| Reducer.RowAfterConsistent | apps/batchalign/batchalign-gui/src/store.ts:419-490 | progress keeps a row failed exactly when a stage failed, and done only with every stage done at 100 |
| Reducer.ProgressApplies | apps/batchalign/batchalign-gui/src/store.ts:412-503 | progress reaches exactly the file it names, unless that is settled or the event is of another job |
| Reducer.EventReachesFile | apps/batchalign/batchalign-gui/src/store.ts:483-491 | what an event makes of a file: its log, cut to the latest entries, and its status |
| Reducer.EventReachesStage | apps/batchalign/batchalign-gui/src/store.ts:423-473 | an event about a task reaches the first stage whose verb serves it, and what it does there and to the stages before it |
| Reducer.FindsFirst | apps/batchalign/batchalign-gui/src/store.ts:21-28 | which verb serves which task, and that the first such stage is found |
| Reducer.PercentIsNearest | apps/batchalign/batchalign-gui/src/store.ts:441-450 | a percentage is the nearest whole number, halves upwards, of at least 0 and at most 100 |
| Reducer.LogKeepsLatest | apps/batchalign/batchalign-gui/src/store.ts:486 | a log keeps its latest 200 entries |
| Reducer.FinishWithError | apps/batchalign/batchalign-gui/src/store.ts:392-410 | an error keeps done rows and fails the others; a failed row has a failing stage exactly when some stage of it was not done |
| Reducer.SkippedThenFailed | apps/batchalign/batchalign-gui/src/store.ts:392-410 | a sequence of actions from the initial state that ends with a failed row whose stages are all done |
| Reducer.FinishOfSettled | apps/batchalign/batchalign-gui/src/store.ts:392-410 | finishing keeps done rows; it changes a settled row's status exactly when the row had failed and no error is given, and then leaves it done |
| Reducer.FinishReachesFile | apps/batchalign/batchalign-gui/src/store.ts:392-410 | what finishing makes of each stage, the status and the log of a file, with an error and without |
| Reducer.FinishApplies | apps/batchalign/batchalign-gui/src/store.ts:392-410 | the end of a job finishes every file of its batch; the end of another job changes nothing |
| Reducer.CloseUndoesOpen | apps/batchalign/batchalign-gui/src/store.ts:248-270 | closing a batch just opened gives back the batches and tabs, and shows the last of them |
| Reducer.RediscoveryApplies | apps/batchalign/batchalign-gui/src/store.ts:309-322 | a rediscovery applies exactly when the batch is not running and has the job and first verb it was made for, and then queues every file anew |
| Reducer.PipelineApplies | apps/batchalign/batchalign-gui/src/store.ts:324-345 | a pipeline edit applies exactly when the batch is not running, queues every file's stages, and asks for discovery when the first verb changes |
| Reducer.AdvanceStages | apps/batchalign/batchalign-gui/src/store.ts:423-481 | the loops over local stage copies compute the stages of each progress kind |
| Reducer.IndexRows | apps/batchalign/batchalign-gui/src/store.ts:368-373 | rows by source id, the last of several with one id, and their order |
| Reducer.RestageFiles | apps/batchalign/batchalign-gui/src/store.ts:327-331 | fresh stage rows for every file of the batch |

## Left out

- The aligner's progress-bar updates; the wrapper `align`, the Rust aligner it prefers, and its re-wrapping of an empty payload. The match callback is a pure function of two keys.
- `civil_from_unix_days`: overflow of `days + 719_468` near the end of the 64-bit range, and the clock's cast to `i64`; `UtcTimestamp` takes the clock reading as a parameter.
- Torch and the tokenizer: a model is a function from padded rows to logits; that a row's logits do not depend on its padding or its batch is an assumption of the batch results, stated as `RowsIndependent`. Logits are reals (no rounding), ties go to the first class.
- BertWindows.WindowsCover: models position limits above 2 only (`Shaped`); with 2 or fewer the window loop of the code does not advance.
- Unicode lower-casing and trimming are a parameter of the normalization. `_infer_chunk`, `__call__` and sentence tokenization are left out.
- LMDB, hashing, JSON, PyO3 and tokio: the store is a finite map, the key is taken before hashing (the hash is injective), a failed read, write or decode is a flag of the step, and waiting is a choice of the script.
- EngineProtocol.Register: says nothing about the routes left behind when registration fails, which the code inserts before it finds the duplicate; and not the display names.
- EngineProtocol.StepsAreBounded: bounds the steps that are taken; that the runtime takes them and that backends return is not modelled. A channel may close as soon as no route and no sending caller is left; in the code a caller keeps its sender until it has its reply, so the model allows more closes than the code.
- The choice of the per-call progress handle in the batcher; lock poisoning; callers that give up waiting.
- CHAT parsing and validation: gates are arbitrary functions of a document; the provenance stamp is an arbitrary function of a document; runners are arbitrary functions of a value.
- PipelineRun.RunTrace: is stated for runners that report only starts, ticks and injections of their own stage and do not turn a value that has not failed into a failed one without an error, as the canonical runners do (`Canonical`; nothing is asked of them on values that have already failed); `RunInBlocks` and `CompletionReported` hold without that. Event labels are not modelled.
- PipelineRun.CollectOutcomes: the admission semaphore and the dispatch window, which bound how many inputs are in flight, are not modelled: completions arrive in any order.
- Progress.ProgressRises: asks of each tick that its scaled count fits 64 bits (part of `Forward`); beyond that the model wraps, as optimised builds of the code do.
- The wording of decision contents and labels; review levels other than through injection.
- File I/O of the CSV writers and the rendering of JSON numbers and objects.
- The reducer's daemon, capability and preference fields (one action stands for those actions); batch settings and time stamps are bundled; JavaScript prototype keys and float rounding.
- Command line, HTTP routes, desktop process control, build scripts and benchmarks: input and output around what is modelled.
