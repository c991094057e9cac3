# Daft execution protocols in Dafny

A model of five parts of Daft's Python execution layer, each proved against a simpler description of
what it is for.

* **Distributed limit** (`LimitCounter`, `LimitSystem`, `LimitRetries`). A counter hands out "skip" and
  "take" rows to many tasks; tasks crash, restart and give back what they held. The counter object
  follows two transition functions; no run ever exceeds LIMIT/OFFSET of the input, and which inputs have
  a run that ends short is decided exactly.
* **vLLM executors** (`LocalExecutor`, `VllmSystem`, `VllmCompletion`, `PrefixRouter`). Coroutines, polls,
  remote executors and a router run concurrently. When the router reports that everything is finished,
  every submitted row has been returned exactly once, if and only if completions are timely; and the
  report can always still come. The router's choice, its bounded memory of prefixes, its load bound and
  the fairness of polling are proved over all histories.
* **Out-of-process UDFs** (`UdfLines`, `UdfHandle`, `UdfProtocol`). Parent and worker share a
  connection, a bounded pipe and shared memory. No interleaving deadlocks or runs for ever; every
  batch gets its own result and its own output lines; every segment is created and unlinked once; a
  UDF that raises ends the call with one of two errors, under an exact condition.
* **Video frames** (`VideoStream`, `ShardDecode`, `BatchDecode`, `FrameSampling`, `FrameLookup`).
  Clustered seek-and-scan is compared with searching the whole shard, the stateful sampler with a
  stateless rule, and lookup by number with a scan of the whole video.
* **Trace conversion** (`SpanForest`, `Speedscope`). The converter accepts exactly the traces of
  forests of spans, and writing a forest, converting it and rebuilding it gives the forest back.

Objects whose methods update their fields are classes; loops are methods proved against specification
functions or predicates; concurrent protocols are state machines whose invariants hold on every run.
`Options` and `Sequences` hold what the modules share.

## Conventions

* Times and distances are reals or whole microseconds; `round` rounds halves to even and `int`
  truncates toward zero. Floating-point rounding is not modelled.
* A seek lands on the last keyframe at or before the requested time, or on the first frame if there
  is none. Frames may lack a timestamp; timestamps increase along the stream where a lemma says so.
* The pipe capacity and the length of the recency lists are parameters. So are the frame budget, the
  re-seek gap and the divider line, with the source's values put in at the outermost operations.
* The language model, the UDF and the parsing of timestamps are arbitrary functions.
* The worker that executes a limit ignores the `done` flag it receives and goes on claiming
  (src/daft-local-execution/src/streaming_sink/distributed_limit.rs:74), so a run of the model may do
  so too; abandoning the rest of a task is a separate step, possible only when nothing is left to take.
* A comment at daft/execution/udf.py:122 says that the worker prints a divider after initialization.
  The worker does not (daft/execution/udf_worker.py:43-47), and neither does the model.

## Where a promise fails

* Under OFFSET, a task that was only skipped, restarts after the limit is reached and is turned away
  leaves its skips behind; a later restart of a task that was taken pays for them and rows are lost.
  Some run ends short if and only if limit and offset are positive, the input has at least offset +
  limit rows, and there are two tasks with rows such that the one that pays has fewer than offset + limit
  rows and the input without the one that was skipped has at least limit rows (`UndercountIff`). All rows
  can be lost (`EverythingCanBeLost`).
* The router reports completion too early if its count of unfinished executors returns to zero while an
  executor has neither reported its start nor finished submitting. A completion is timely if and only if
  every report that can follow it is true (`TimelyIff`), and untimely ones happen (`UntimelyHappens`).
* A UDF that raises should end the call with its exception. If the worker has exited and its output has
  been read when the parent receives the response, end of file is seen first and the call ends with a
  closed connection; otherwise with the exception (`WhichErrorIsRaised`). Both happen
  (`EitherErrorCanBeRaised`).
* A UDF that prints the divider line itself shifts output into the next batch; framing is exact if
  and only if it does not (`FramingIsExact`).
* A shard seek never goes below time zero, so a frame before zero can be missed
  (`NegativeTimesCanMiss`); the answer is the nearest frame of the whole shard if and only if the
  landing is closer than every frame before it (`NearestIffReached`).
* A lookup by number ignores the stream's start when it seeks; it finds an existing number if and only
  if the seek does not land past it (`GetFrameByIdx`, `NegativeStartCanMiss`).
* A frame iteration that seeks shows the same frames as one that does not, unless a skipped frame has
  no time, and the same numbers, unless some are counted rather than computed (`SeekIsInvisible`).

## Model

| member | source | states |
|---|---|---|
| LimitCounter.LimitCounterImpl.constructor | daft/execution/ray_distributed_limit.py:22-26 | starts with the whole offset to skip, the whole limit to take and no claims |
| LimitCounter.LimitCounterImpl.StartTask | daft/execution/ray_distributed_limit.py:28-38 | a new attempt gives back exactly what the task held and changes nothing else |
| LimitCounter.LimitCounterImpl.Claim | daft/execution/ray_distributed_limit.py:40-55 | the reply and the whole new state of a claim, including the saturated answer that changes nothing |
| LimitCounter.LimitCounterImpl.IsDone | daft/execution/ray_distributed_limit.py:57-58 | done exactly when nothing is left to take |
| LimitCounter.LimitCounterImpl.Contributors | daft/execution/ray_distributed_limit.py:60-61 | lists exactly the tasks holding taken rows, each once |
| LimitCounter.OneOffer | daft/execution/ray_distributed_limit.py:40-55 | the rows kept from one claim followed by the slice of the rest are the slice of the whole |
| LimitCounter.EmittedIsSlice | daft/execution/ray_distributed_limit.py:40-55 | without restarts, for any batching over any tasks, the rows kept are positions offset to offset + limit of the rows in claim order |
| LimitCounter.DoneMeansExhausted | daft/execution/ray_distributed_limit.py:55 | a reply says done exactly when nothing is left to take after it |
| LimitCounter.DoneMeansMute | daft/execution/ray_distributed_limit.py:40-55 | in any sequence of offers a reply says done if and only if nothing is emitted after it for any continuation |
| LimitCounter.TeardownIsInvisible | daft/execution/ray_distributed_limit.py:76-95 | once done, and until a contributor restarts, any calls get the same answers from a live and a dead actor, and the contributors stay |
| LimitCounter.RestartOfContributorIsVisible | daft/execution/ray_distributed_limit.py:76-95 | after a restart the next non-empty claim distinguishes live from dead if and only if a contributor restarted |
| LimitSystem.StepInv | daft/execution/ray_distributed_limit.py:28-55 | every step of any task keeps the accounting of rows, claims, skips and takes |
| LimitSystem.StepBudget | daft/execution/ray_distributed_limit.py:28-55 | once a row has been dropped, the rows still to come cover the remaining skips and takes, unless rows are dropped under outstanding skips |
| LimitSystem.Conservation | daft/execution/ray_distributed_limit.py:28-66 | in every reachable state remaining plus held is the offset for skips and the limit for takes; when done the takes held sum to the limit |
| LimitSystem.NeverOvertakes | daft/execution/ray_distributed_limit.py:28-55 | for every offset and every pattern of restarts, no reachable state holds more takes than LIMIT/OFFSET of the input |
| LimitSystem.NoOffsetTakesExactly | daft/execution/ray_distributed_limit.py:28-55 | without an offset, any interleaving of claims, crashes and restarts takes exactly min(limit, total rows) |
| LimitRetries.StepCovered | daft/execution/ray_distributed_limit.py:28-55 | as long as something is left to take, the rows to come can use up the whole budget, provided outstanding skips at the limit are safe |
| LimitRetries.StepDebt | daft/execution/ray_distributed_limit.py:28-55 | skips outstanding at the limit stay safe when no two tasks endanger the count |
| LimitRetries.SafeInputTakesExactly | daft/execution/ray_distributed_limit.py:28-55 | an input without two such tasks, too short, or without offset or limit: every run that has offered all its rows takes exactly LIMIT/OFFSET |
| LimitRetries.EndangeredRun | daft/execution/ray_distributed_limit.py:28-55 | any other input has a run of the source's rules that ends short, by a computed number of rows |
| LimitRetries.UndercountIff | daft/execution/ray_distributed_limit.py:28-55 | some run misses LIMIT/OFFSET if and only if limit, offset and the tasks' row counts meet the condition |
| LimitRetries.EverythingCanBeLost | daft/execution/ray_distributed_limit.py:28-55 | for every k, OFFSET k LIMIT k has a run over two tasks of k rows that takes nothing instead of k |
| LocalExecutor.StepKeeps | daft/execution/vllm.py:154-228 | each concurrent step keeps the running count and the pairing of outputs with prompts, and no step but a submission changes the tasks owned |
| LocalExecutor.FinishedMeansPopped | daft/execution/vllm.py:226-228 | when the completion test passes, the tasks accepted are exactly those returned by polls |
| LocalExecutor.LocalConservation | daft/execution/vllm.py:154-228 | under every interleaving, submitted tasks equal in-flight plus completed plus popped, outputs belong to their prompts, and completion means all were popped |
| LocalExecutor.LocalVLLMExecutor.constructor | daft/execution/vllm.py:108-139 | starts idle |
| LocalExecutor.LocalVLLMExecutor.SubmitAsync | daft/execution/vllm.py:192-201 | the whole batch is counted before any of its coroutines runs |
| LocalExecutor.LocalVLLMExecutor.StartCoroutine | daft/execution/vllm.py:198-201 | a counted task moves into a coroutine; counts and queue stay |
| LocalExecutor.LocalVLLMExecutor.GenerateAppend | daft/execution/vllm.py:159-164 | the generated text is queued with its own row while the task is still counted |
| LocalExecutor.LocalVLLMExecutor.GenerateDecrement | daft/execution/vllm.py:166-167 | a task leaves the count only after its result was queued |
| LocalExecutor.LocalVLLMExecutor.Poll | daft/execution/vllm.py:203-221 | returns the queued outputs in order, each with its own row, and empties the queue; None exactly if it was empty |
| LocalExecutor.LocalVLLMExecutor.FinishedSubmitting | daft/execution/vllm.py:223-224 | sets the flag and nothing else |
| LocalExecutor.LocalVLLMExecutor.AllTasksFinishedNow | daft/execution/vllm.py:226-228 | answers the completion test, and a positive answer means everything accepted was popped |
| VllmSystem.StepInv | daft/execution/vllm.py:231-326 | every timely step of remote executors, router and local executors keeps the invariant that retired executors are finished, finish notices imply that nobody will submit again, and the last completion tells everyone |
| VllmSystem.StepConserves | daft/execution/vllm.py:238-259 | for every task, what is in transit plus what is accepted changes only by submissions |
| VllmSystem.RoutedArrives | daft/execution/vllm.py:238-242 | a batch routed to an executor is handed to exactly that executor and leaves the others alone |
| VllmSystem.RoutedWaits | daft/execution/vllm.py:241-242 | until it is delivered, a routed batch keeps its destination |
| VllmSystem.CompletionSafety | daft/execution/vllm.py:154-326 | when the router reports completion, every task has been popped as often as it was submitted through all executors, nothing can follow, and every text belongs to its prompt |
| VllmCompletion.Drain | daft/execution/vllm.py:154-221 | from any consistent state coroutines and polls can empty a local executor without touching anything else |
| VllmCompletion.UntimelyIsUnsafe | daft/execution/vllm.py:303-326 | from any reachable state with an untimely completion, for any number of executors, the router can come to report completion with a task outstanding |
| VllmCompletion.TimelyIff | daft/execution/vllm.py:303-326 | after any timely run, a completion is timely if and only if every report of completion that can follow is true |
| VllmCompletion.UntimelyHappens | daft/execution/vllm.py:231-236 | with two remote executors an untimely completion is reachable |
| VllmCompletion.CompletionIsReachable | daft/execution/vllm.py:231-326 | every state a timely run reaches can be continued, timely, to a report of completion with everything popped |
| VllmCompletion.PollIsPollNext | daft/execution/vllm.py:313-323 | asking executors until the router is free again is one call of the polling rule on its list |
| PrefixRouter.ChoiceIsUnique | daft/execution/vllm.py:274-293 | the rule for choosing an executor determines it |
| PrefixRouter.ChoiceMeans | daft/execution/vllm.py:274-293 | written out over loads and lists: first of least load without a prefix; with one, the most recent holder among executors less than the threshold above every load, else the last such executor |
| PrefixRouter.FirstLeast | daft/execution/vllm.py:277-278 | the first executor of least load |
| PrefixRouter.FindActor | daft/execution/vllm.py:280-291 | the lowest-numbered executor under the threshold with the most recent use of the prefix, else the last under the threshold; none exactly if the threshold is below one |
| PrefixRouter.LoadSpread | daft/execution/vllm.py:274-301 | over every history any two loads differ by less than the threshold plus the largest batch |
| PrefixRouter.LoadsSumToTotal | daft/execution/vllm.py:299 | the loads sum to what was routed |
| PrefixRouter.RecentExtend | daft/execution/vllm.py:295-297 | insert-and-pop keeps each list the newest-first window of the executor's full history |
| PrefixRouter.RecentHoldsLatest | daft/execution/vllm.py:295-297 | each list holds the prefixes of the executor's latest routings, as many as fit, each after those of later routings |
| PrefixRouter.RouteExtends | daft/execution/vllm.py:295-299 | recording a choice extends the history and updates loads and windows accordingly |
| PrefixRouter.PollKeeps | daft/execution/vllm.py:313-323 | the poll list stays duplicate-free, loses only finished executors, and the pick is unfinished |
| PrefixRouter.PollMovesForward | daft/execution/vllm.py:313-323 | each call picks an unfinished executor or moves it forward in the list |
| PrefixRouter.PollingIsFair | daft/execution/vllm.py:313-323 | an executor that stays unfinished is picked within its position plus one calls |
| PrefixRouter.Router.constructor | daft/execution/vllm.py:263-272 | starts with no load, no recent prefix and all executors to poll |
| PrefixRouter.Router.Route | daft/execution/vllm.py:274-301 | routes to the determined executor and records it; fails exactly without executors, or for a prefix with a threshold below one |
| PrefixRouter.Router.GetNextLlmToPoll | daft/execution/vllm.py:313-323 | terminates, and picks and rotates as the polling rule says |
| UdfLines.LinesConcat | daft/execution/udf.py:121 | reading lines across a line boundary is reading both parts |
| UdfLines.RStripMeans | daft/execution/udf.py:131 | a reported line is the prefix of the raw line cut exactly where only whitespace follows, the whitespace listed by code point |
| UdfLines.PrintedTextsComeBack | daft/execution/udf.py:115-132 | texts printed one per line come back as they are, without the empty ones, and nothing is left |
| UdfLines.PaddingIsInvisible | daft/execution/udf_worker.py:63-68 | the newline in front of the divider never shows in the reported lines |
| UdfLines.FramingIsExact | daft/execution/udf.py:115-132 | a batch reports exactly its own lines and leaves nothing, if and only if it prints no divider line |
| UdfHandle.OutputReader.ReadLine | daft/execution/udf.py:121 | takes the first line of what remains, up to its newline or the end, nothing at the end |
| UdfLines.FrameWhileAlive | daft/execution/udf.py:127-131 | a worker that does not exit while lines are read makes no difference to the framing |
| UdfLines.FrameWhileStops | daft/execution/udf.py:127-131 | once the worker has exited, the next line that is not a bare newline is dropped and ends the reading |
| UdfHandle.OutputReader.Trace | daft/execution/udf.py:115-132 | returns the lines up to the first divider, the end, or the first line seen after the worker exits, drained lines first, without bare newlines, and leaves exactly the rest |
| UdfHandle.OutputReader.TraceOutput | daft/execution/udf.py:115-132 | the same with the divider both processes use |
| UdfProtocol.StepControl | daft/execution/udf.py:134-193 | every step keeps who owes whom a message |
| UdfProtocol.StepShm | daft/execution/udf.py:33-55 | every step keeps exactly the segment of the moment live, holding the right bytes, with a regular log |
| UdfProtocol.StepInv | daft/execution/udf.py:134-191 | every step keeps control, shared memory and the stream of lines: none lost, repeated or out of order |
| UdfProtocol.ReaderIsServed | daft/execution/udf.py:147-164 | a parent blocked in readline has a buffered line, a readable pipe, a closed pipe or a working worker |
| UdfProtocol.CanStep | daft/execution/udf.py:134-164 | every reachable state that is not final has an enabled step, for every pipe capacity of at least one |
| UdfProtocol.StepDecreases | daft/execution/udf.py:134-164 | every step decreases a measure |
| UdfProtocol.SessionTerminates | daft/execution/udf.py:134-193 | no run is longer than a bound computed from the outputs, and none gets stuck |
| UdfProtocol.AnswersAreExact | daft/execution/udf.py:164-191 | every call returns its own batch's result and the lines that framing reads off the worker's output, in every interleaving |
| UdfProtocol.SegmentsAreReleased | daft/execution/udf_worker.py:55-84 | between calls, and after a call that raised, no segment is live and each was created once and unlinked once by the other process |
| UdfProtocol.WhichErrorIsRaised | daft/execution/udf.py:149-184 | a call whose UDF raised ends with a closed connection if and only if the worker has exited and its output has been read when the response is received, and with the UDF's exception otherwise |
| UdfProtocol.EitherErrorCanBeRaised | daft/execution/udf_worker.py:73-101 | both happen for a UDF that raises without printing |
| UdfProtocol.ExitEndsTheCall | daft/execution/udf.py:129-130 | once the worker's exit is noticed, the next line that is not a bare newline ends the call |
| UdfProtocol.NothingLeft | daft/execution/udf.py:101-132 | if no earlier batch raised or printed the divider, no line is carried over |
| UdfProtocol.LinesBelongToTheirBatch | daft/execution/udf.py:101-164 | then every call returns exactly its batch's lines, however they were split between draining and tracing, and nothing is left between calls |
| UdfProtocol.PrintedTextsAreReturned | daft/execution/udf.py:101-164 | a batch that prints texts one per line gets exactly those texts back, without the empty ones, in every interleaving |
| VideoStream.Seek | daft/file/video.py:205-209 | the last keyframe at or before the time, or the first frame |
| VideoStream.Round | daft/file/video.py:269 | a nearest integer, the even one of two |
| VideoStream.NumberIsNearest | daft/file/video.py:268-269 | the frame number is the nearest integer to timestamp minus start times time base times rate |
| VideoStream.FrameNumberMeans | daft/file/video.py:267-269 | frames without timestamp, time base or rate are numbered by their place |
| VideoStream.SeekLandsOnLast | daft/file/video.py:205-209 | a seek by a truncated time lands on the last keyframe not past that time |
| VideoStream.NumberAtIsMonotone | daft/file/video.py:268-269 | later timestamps never get smaller numbers |
| ShardDecode.SortedByTime | daft/datasets/lerobot.py:73 | the same targets in ascending time |
| ShardDecode.ClustersAreRuns | daft/datasets/lerobot.py:74-79 | clusters are the sorted targets cut where neighbours are more than the gap apart, and only there |
| ShardDecode.RunsAreClusters | daft/datasets/lerobot.py:74-79 | there is no other way to cut them so |
| ShardDecode.MakeClusters | daft/datasets/lerobot.py:74-79 | the loop that splits at gaps |
| ShardDecode.EarlyStopSuffices | daft/datasets/lerobot.py:112-113 | stopping past the last target loses no nearer frame |
| ShardDecode.NearestIffReached | daft/datasets/lerobot.py:91-107 | searching from the landing finds the nearest frame of the whole shard if and only if no earlier frame is as close as the landing |
| ShardDecode.ReachableIsReached | daft/datasets/lerobot.py:92-95 | that holds for every target at or after zero and for every shard without frames before zero |
| ShardDecode.SeekIsLatest | daft/datasets/lerobot.py:95 | the seek lands on the last frame from which decoding may start: the first frame, or a keyframe not past the earliest target in whole microseconds, nor past zero |
| ShardDecode.ScanIsShortest | daft/datasets/lerobot.py:81-113 | the scan ends with the first frame at least 0.1 s, 50 tolerances and 1/24 s past the latest target |
| ShardDecode.NearestMeans | daft/datasets/lerobot.py:99-107 | the nearest frame, written out over timestamps |
| ShardDecode.MatchedMeans | daft/datasets/lerobot.py:119-124 | a frame within tolerance, written out over timestamps |
| ShardDecode.Improve | daft/datasets/lerobot.py:99-107 | after a frame is offered, every target of the cluster tracks the first nearest frame so far and other rows are untouched |
| ShardDecode.ScanCluster | daft/datasets/lerobot.py:96-113 | one scan finds the nearest frames of its stretch; it gives up exactly when the budget is reached |
| ShardDecode.Search | daft/datasets/lerobot.py:89-113 | all clusters together |
| ShardDecode.SomeWorkIffTimed | daft/datasets/lerobot.py:115-116 | no frame is decoded exactly when the shard has no timed frame |
| ShardDecode.Render | daft/datasets/lerobot.py:118-129 | pictures in target order, or the first target without a frame in tolerance |
| ShardDecode.DecodeOneShard | daft/datasets/lerobot.py:58-129 | whatever the gap, each row gets the first nearest frame from its landing on; fails exactly on the budget, an empty shard or a row out of tolerance |
| ShardDecode.CountTimedMeans | daft/datasets/lerobot.py:97-109 | only frames with a timestamp count |
| ShardDecode.BudgetIff | daft/datasets/lerobot.py:91-113 | the budget is exceeded if and only if no choice of permitted starts and ends of the clusters keeps the timed frames between them below it |
| ShardDecode.ReachableRowsSeeTheWholeShard | daft/datasets/lerobot.py:58-129 | for reachable rows picture and tolerance are those of a search of the whole shard |
| ShardDecode.NegativeTimesCanMiss | daft/datasets/lerobot.py:95 | a shard with a frame at the very target, before zero, for which every answer is the wrong frame or a failure |
| BatchDecode.GroupByShard | daft/datasets/lerobot.py:167-172 | every shard's list holds exactly its rows in order, with their timestamps |
| BatchDecode.Scatter | daft/datasets/lerobot.py:174-177 | pictures end up at their rows and other rows are untouched |
| BatchDecode.DecodeGroups | daft/datasets/lerobot.py:174-178 | every row is served from its own shard, or some needed shard fails |
| BatchDecode.ReachableFails | daft/datasets/lerobot.py:110-124 | for reachable rows a shard fails exactly on the budget or on a row whose nearest distance in the whole shard exceeds the tolerance |
| BatchDecode.SomeShardFailsIff | daft/datasets/lerobot.py:110-124 | with all rows reachable, some shard fails exactly when some row's shard is over budget or has no frame within tolerance of it |
| BatchDecode.DecodeBatch | daft/datasets/lerobot.py:133-178 | each row gets the frame nearest to episode start plus frame time, over its whole shard when reachable, in the requested size; fails exactly when a needed shard does, with that shard's error, and for reachable rows exactly when a shard cannot be decoded within the budget or a nearest distance is out of tolerance |
| FrameSampling.CatchUp | daft/file/video.py:257-260 | terminates with the first grid point the frame has not reached |
| FrameSampling.SelectedIffReached | daft/file/video.py:253-256 | comparing with the running target is comparing grid cells with every earlier passing frame |
| FrameSampling.SelectedMeans | daft/file/video.py:235-260 | the rule written out: before any frame past the end, not before the start, of the wanted kind, and when sampling the first to come to some multiple of the interval within the slack |
| FrameSampling.SelectionIs | daft/file/video.py:223-288 | the output is exactly the selected frames in decoding order, each with its number and time |
| FrameSampling.RangeIsEmitted | daft/file/video.py:235-246 | without sampling, every decoded frame in the range before the first past its end is emitted |
| FrameSampling.CellIsRepresented | daft/file/video.py:217-260 | with increasing times exactly one frame is emitted per grid cell reached, the first that passes |
| FrameSampling.Consider | daft/file/video.py:235-260 | one frame is emitted exactly when the stateless rule selects it, and the target stays one past the largest cell |
| FrameSampling.Iterate | daft/file/video.py:223-288 | the iterator emits exactly the frames the stateless rule selects, numbered and in order, also when it stops early |
| FrameSampling.DecodedMeans | daft/file/video.py:202-203 | keyframes only are decoded if only those are wanted, and else every frame |
| FrameSampling.KeysOnlyMeans | daft/file/video.py:202-203 | all keyframes, in order |
| FrameSampling.StartFrameIsLast | daft/file/video.py:205-209 | decoding starts at the last keyframe not past the start of the range, or at the first frame |
| FrameSampling.Frames | daft/file/video.py:171-288 | the two argument errors, and otherwise the selection over the frames decoded from the seek on; every emitted frame is of the wanted kind, in the range and shown with its time |
| FrameSampling.SeekIsInvisible | daft/file/video.py:205-238 | seeking yields what starting at the first frame yields, if and only if no skipped frame without a time would be emitted and no emitted number is counted |
| FrameSampling.TimedVideosSeekInvisibly | daft/file/video.py:205-238 | so always with a frame rate and timestamps |
| FrameLookup.ScanForward | daft/file/video.py:318-326 | stops at the first number that is not below the index |
| FrameLookup.ScanFromIsLast | daft/file/video.py:312-316 | the scan starts at the last keyframe not past the index, or at the first frame |
| FrameLookup.GetFrameByIdx | daft/file/video.py:290-328 | returns the first frame of the scan whose number is not below the index, if it equals it; with ordered timestamps found if and only if the number exists and the seek does not land past it; with a start at or after tick zero the only frame within half a frame interval of the index is returned |
| FrameLookup.KeyframeStandsIn | daft/file/video.py:312-316 | if a frame before the landing has the number, so has the landing |
| FrameLookup.LookupIsComplete | daft/file/video.py:306-328 | with a start at or after tick zero the seek never lands past an existing number |
| FrameLookup.NegativeStartCanMiss | daft/file/video.py:312-316 | a stream starting before tick zero whose existing frame is missed |
| SpanForest.WalkNests | tools/trace_to_speedscope.py:111-131 | a walk of a forest leaves the stack as it was |
| SpanForest.NestedIsWalk | tools/trace_to_speedscope.py:111-131 | whatever closes the open spans begins with the walk of a forest |
| SpanForest.NestedIffForest | tools/trace_to_speedscope.py:111-148 | the stack machine accepts exactly the walks of forests |
| SpanForest.WalkIsInjective | tools/trace_to_speedscope.py:111-131 | different forests have different walks |
| SpanForest.ParseUndoesWalk | tools/trace_to_speedscope.py:137-143 | rebuilding from open and close marks gives back the forest |
| Speedscope.PushOrPop | tools/trace_to_speedscope.py:111-131 | the self-in-ancestors adjustment and the checks accept exactly the two recording styles |
| Speedscope.Absorb | tools/trace_to_speedscope.py:103-143 | one event: the checks in order, the frame table and its index, the emitted event |
| Speedscope.ConvertRecords | tools/trace_to_speedscope.py:86-167 | the loop computes the conversion, with every error |
| Speedscope.ScanIsReadThenAdvance | tools/trace_to_speedscope.py:96-103 | interleaved ordinary records make no difference |
| Speedscope.OrdinaryIff | tools/trace_to_speedscope.py:46-54 | by its fields alone, which records are ignored |
| Speedscope.OrdinaryMakesNoDifference | tools/trace_to_speedscope.py:96-99 | such a record anywhere leaves the outcome of the conversion as it is |
| Speedscope.UnhashableIff | tools/trace_to_speedscope.py:51-53 | a list or object as message cannot be looked up |
| Speedscope.LifecycleDecodes | tools/trace_to_speedscope.py:31-66 | by its fields alone, the event of a lifecycle record, with no ancestors if it mentions none, or which of its fields is faulted |
| Speedscope.FirstFaultDecides | tools/trace_to_speedscope.py:96-131 | the first malformed record, time going back or misfit decides the error, whatever follows |
| Speedscope.SoundTracesEnd | tools/trace_to_speedscope.py:145-148 | without a fault the conversion fails exactly for want of events or for spans left open |
| Speedscope.AdvanceAllIffNested | tools/trace_to_speedscope.py:105-131 | events are accepted exactly if times never go back and they nest |
| Speedscope.AdvanceAllReflects | tools/trace_to_speedscope.py:133-143 | emitted events mirror the span events and frames are the names in order of first appearance |
| Speedscope.NamesGrow | tools/trace_to_speedscope.py:133-135 | names that appear earlier are listed first |
| Speedscope.NamesAreDistinct | tools/trace_to_speedscope.py:133-135 | each name is listed once |
| Speedscope.NamesIff | tools/trace_to_speedscope.py:133-135 | the names listed are those of the events |
| Speedscope.TracedForestIsShown | tools/trace_to_speedscope.py:86-167 | the records of any forest, in either style and with other records interleaved, are accepted and the profile shows that forest |
| Speedscope.AcceptedTracesOneForest | tools/trace_to_speedscope.py:86-148 | records are accepted if and only if they trace a forest, and then exactly one |
| Speedscope.WrittenRecordReadsBack | tools/trace_to_speedscope.py:45-66 | a record with the fields written for an event, and any others, reads back as that event |
| Speedscope.WrittenReadsBack | tools/trace_to_speedscope.py:45-66 | the records of events in order, with ordinary records anywhere in between, read back as those events |
| Speedscope.EventsCanBeWritten | tools/trace_to_speedscope.py:45-66 | such records exist for all events whose times can be stamped |
| Speedscope.WrittenForestIsShown | tools/trace_to_speedscope.py:86-167 | writing any non-empty forest with ordered times, in either ancestor style and with ordinary records in between, is accepted and the profile rebuilds the forest |

## Left out

- UdfProtocol.SessionTerminates: a worker that crashes, fails with an error other than a UDF exception, or never returns from the UDF is not modelled, nor is teardown.
- BatchDecode.DecodeBatch: of several shards that fail, the contract does not say which one is reported; error texts are not modelled.
- FrameSampling.Frames: laziness, resizing and conversion to images are not modelled; sizes are only checked.
- Speedscope.ConvertRecords: loading JSON, timestamp syntax and the fixed fields of the profile are not modelled.
- LimitCounter.LimitCounterImpl.Contributors: the order of a Python dictionary is not modelled.
- Waiting for the limit to complete, starting the actor and its timeout: I/O and scheduling.
- Restarts of vLLM actors, logging and the request counter: they lose or do not touch the modelled state.
- The dummy and blocking vLLM executors and the submit call that requires threading: easy variants of the local executor.
- Pickling, sockets, process start-up, UTF-8 decoding of output and the error for an empty shared-memory segment.
- Video metadata, keyframe listing, tracing spans, and the LeRobot dataset layout: thin wrappers.
- The Rust engine, expressions, catalogs, readers and writers: outside the execution protocols.
