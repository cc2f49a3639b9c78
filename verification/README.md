# Verified models of the build-report, serving and configuration logic

A Dafny model of the self-contained algorithms of the inference server's vendored
vLLM tree, with proofs of what they are for. `dafny verify dfyconfig.toml` checks
everything. Each file models one component; `Sequences.dfy` and `Text.dfy` hold the
shared vocabulary.

| file | models |
|---|---|
| `NinjaShares.dfy`, `NinjaReport.dfy`, `NinjaLog.dfy` | the ninja build-time report: what a weighted duration means, the start/stop sweep, cutting the log down to its last build |
| `BadWords.dfy` | the bad-words logits processor and whole decoding runs through it |
| `GreedyBatching.dfy` | the one-lookahead batching loop of the throughput benchmark |
| `CudaGraph.dfy` | the CUDA-graph padding table and the derivation of the capture sizes |
| `LazyImports.dfy` | the visitor that keeps package imports lazy |
| `TritonDiff.dfy`, `TritonText.dfy` | the diff tracker that finds forbidden triton imports |
| `SpdxHeader.dfy` | checking and repairing licence headers |
| `Streaming.dfy` | latency accounting of the streaming clients |
| `Serving.dfy` | the semaphore-bounded run, gathering, the metrics computed from it, and a TRT-LLM benchmark from streams to metrics |
| `DataParallel.dfy` | data-parallel collectives and metadata |
| `Contexts.dfy` | the context managers over module-level variables |

Times in the build log are integral milliseconds; every other time, logit and share is
an exact real, so no rounding is modelled. Library calls (tokenizer, sampler, sort,
regular expressions, the clock) appear as parameters or as small methods with the
library's contract.

## What the proofs found

* The header repair does **not** always complete the header. It fails exactly when the
  last line has no newline and the repair inserts right behind it: a file that is one
  unterminated shebang, or a licence line at the very end. Two passes always suffice
  (`SpdxHeader.RepairExact`, `SpdxHeader.RepairConverges`).
* The diff tracker is right on diffs whose added lines never begin with `+` and whose
  forbidden lines are in plainly named files (`TritonText.CheckIsRight`). Outside them:
  * An added line that begins with `+` is not counted, so a forbidden line below it in its
    hunk is reported with too small a number (`TritonText.PlusLedLineShiftsNumber`).
  * An added line that begins with `++ b/` reads as a file header: violations below it are
    lost, reported under another name, or reported for an exempt file, and in an exempt
    file the parser can raise a type error (`TritonText.FakeHeaderLosesViolation`,
    `TritonText.FakeHeaderFails`).
  * A quoted file name is not read at all, so the previous file and its exemption stay in
    force, and a name with spaces is read with the tab behind it
    (`TritonText.QuotedNameLosesViolation`, `TritonDiff.TabbedIsMisnamed`).

  `TritonDiff.DiffExact` says for every file exactly when what it contributes is the
  truth. For a plainly named file: for each of its forbidden lines, the last header-like
  line above it in the file, if any, names that same file and no plus-led line stands
  above it in its hunk; in an exempt file, the last header-like line above, if any, names
  an exempt path (`TritonDiff.PlainExact`). For a file whose name is misread or not read,
  and without header-like lines: it has no forbidden line, or it is exempt and the tracker
  is skipping anyway (`TritonDiff.MisnamedExact`). The type error occurs exactly when an
  added line outside exempt files, as the tracker sees them, precedes every hunk header
  outside them (`TritonDiff.CrashExactly`). The set of allowed lines is dead: none of them
  matches the forbidden pattern (`TritonText.AllowedLinesRedundant`).
* The build report's sweep fails exactly when some step ends before it starts (missing
  key) or when there is no step at all (empty list); its two assertions never fire. Its
  span uses -1 as "no time yet", so it is right exactly when no start is negative or the
  last step listed starts no later than any other (`NinjaReport.TrackedSpan`). The
  warning threshold there is commented as half a second, but the compared values are
  seconds.
* The bad-words comment promises to ban a word with and without a leading space. The
  code lists the spaced encoding only when it has as many tokens as the plain one and a
  different first token, so the spaced form can be emitted if and only if no listed
  encoding occurs in it (`BadWords.SpacedEmittedExactly`); `BadWords.SpacedFormEscapes`
  is a tokenizer with which it is.
* The V0 capture-size derivation raises an index error if and only if the filter is on
  and the tensor-parallel size divided by its greatest common divisor with eight exceeds
  1024 (`CudaGraphSizes.V0Fails`, at 1025 for instance). Its comment says "larger than"
  where the code takes "at least".
* The chat client loses the time of data chunks without choices; `Streaming.LostExact`
  says exactly when that amount is zero, and `Streaming.UsageReportLosesTime` gives
  streams on which it is not. The completions client overshoots by the time between its
  two clock readings at the first token.
* A forward block restores the context only after its statistics code, so statistics that
  raise leave the inner context behind (`Contexts.RestoredExactly`, `Contexts.LeakIsSeen`);
  a configuration block always restores.
* With no objective configured the goodput count is zero, not the number of completed
  requests.

## Model

| member | source | states |
|---|---|---|
| `NinjaShares.SharesByInterval` | inference_server/vllm/tools/report_build_time_ninja.py:200-205 | sharing each millisecond equally among the running steps is the same as summing, over elementary intervals, length divided by number running |
| `NinjaShares.ShareBounds` | inference_server/vllm/tools/report_build_time_ninja.py:74-89 | a step's share lies between duration / m and duration for every bound m on the concurrency met while it runs |
| `NinjaShares.ShareAtMostDuration` | inference_server/vllm/tools/report_build_time_ninja.py:82-88 | a share never exceeds the duration, so the accessor's assertion cannot fire |
| `NinjaShares.Conservation` | inference_server/vllm/tools/report_build_time_ninja.py:220-252 | the shares of all steps, added in any order, equal the time at which at least one step is running |
| `NinjaShares.BusyTimeFillsSpan` | inference_server/vllm/tools/report_build_time_ninja.py:219-220 | busy time never exceeds the span and equals it exactly when there is no idle gap |
| `NinjaShares.BusyAtMostRunning` | inference_server/vllm/tools/report_build_time_ninja.py:214-216 | busy time is at most the running steps summed over time, and equals it exactly when no two steps run at once |
| `NinjaReport.SortEvents` | inference_server/vllm/tools/report_build_time_ninja.py:222-223 | the event list is a permutation sorted by time and action, ties in any order |
| `NinjaReport.OpenIsRunning` | inference_server/vllm/tools/report_build_time_ninja.py:228-254 | between two events the steps in the dictionary are exactly the running ones, however tied events are ordered |
| `NinjaReport.AccumulatorStep` | inference_server/vllm/tools/report_build_time_ninja.py:240-243 | one accumulator update is the weighted time since the previous event |
| `NinjaReport.StopFirst` | inference_server/vllm/tools/report_build_time_ninja.py:224-227 | in any sorted order a step's stop precedes its start exactly when it ends before it starts |
| `NinjaReport.ShareByInterval` | inference_server/vllm/tools/report_build_time_ninja.py:200-205 | a step's share is the sum, over the intervals between consecutive sorted events from its start to its stop, of length divided by number running |
| `NinjaReport.StartStep` | inference_server/vllm/tools/report_build_time_ninja.py:244-246 | a start event keeps the loop's bookkeeping: the accumulator is the weighted time so far, each open step remembers its value at its start |
| `NinjaReport.StopStep` | inference_server/vllm/tools/report_build_time_ninja.py:247-254 | a stop event finds its step unless the step ends before it starts, and the accumulator difference is the step's share |
| `NinjaReport.OpenStep` | inference_server/vllm/tools/report_build_time_ninja.py:244-246 | a start event makes the step remember the accumulator and keeps everything else |
| `NinjaReport.CloseStep` | inference_server/vllm/tools/report_build_time_ninja.py:247-253 | a stop event writes the step's share, adds it to the total and removes the step; a missing key means the step ends before it starts |
| `NinjaReport.Advance` | inference_server/vllm/tools/report_build_time_ninja.py:238-243 | the accumulator grows by the elapsed time divided by the number of open steps, not at all when none is open |
| `NinjaReport.ScanEvent` | inference_server/vllm/tools/report_build_time_ninja.py:231-254 | one loop iteration keeps the accumulator, the open steps, the recorded shares and the total right |
| `NinjaReport.Sweep` | inference_server/vllm/tools/report_build_time_ninja.py:228-255 | for every sorted arrangement of the events each step ends with its share, the dictionary ends empty, and the scan fails exactly on an empty list or a step that ends before it starts |
| `NinjaReport.CollectEvents` | inference_server/vllm/tools/report_build_time_ninja.py:206-219 | the first loop yields one start and one stop per step, the summed durations, and the start and end that its sentinels -1 and 0 keep |
| `NinjaReport.DurationsAreRunningTime` | inference_server/vllm/tools/report_build_time_ninja.py:216-216 | the summed durations are the number of running steps summed over the milliseconds of any interval that covers the build |
| `NinjaReport.TrackedStartExact` | inference_server/vllm/tools/report_build_time_ninja.py:209-211 | the kept start is the earliest one exactly when no start is negative or the last step listed starts no later than any other |
| `NinjaReport.NegativeStartForgotten` | inference_server/vllm/tools/report_build_time_ninja.py:209-211 | a step that starts before zero is forgotten when the next one does not |
| `NinjaReport.TrackedEndIsGreatest` | inference_server/vllm/tools/report_build_time_ninja.py:212-213 | the kept end is the greatest of zero and all ends |
| `NinjaReport.TrackedSpan` | inference_server/vllm/tools/report_build_time_ninja.py:209-219 | exactly when the kept times bound the build, and exactly when they are its span |
| `NinjaReport.TotalIsBusyTime` | inference_server/vllm/tools/report_build_time_ninja.py:219-252 | the weighted total in stop order is the busy time of every interval that covers the build, at most its length, equal to it exactly without idle gap |
| `NinjaReport.SummarizeEntries` | inference_server/vllm/tools/report_build_time_ninja.py:197-255 | whole summary for any times, negative ones included: shares between zero and the duration, processor time as running steps summed over time, weighted total as busy time of every covering interval, at most the processor time and equal to it exactly without overlap, against the kept length, exactly when the kept times are the span, both assertions unreachable, exact failure conditions |
| `NinjaTarget.Target.constructor` | inference_server/vllm/tools/report_build_time_ninja.py:57-64 | a new step has its times, no outputs and no share |
| `NinjaLog.LastBuildUnique` | inference_server/vllm/tools/report_build_time_ninja.py:123-142 | however a log is cut into consecutive builds that cannot be extended, the last one is the build that is reported |
| `NinjaLog.BuildsExist` | inference_server/vllm/tools/report_build_time_ninja.py:123-142 | every log can be cut into such builds |
| `NinjaLog.LastBuildIsSuffix` | inference_server/vllm/tools/report_build_time_ninja.py:123-147 | the reported build is a suffix of the well-formed records, non-empty when there are any |
| `NinjaLog.LastBuildIsOneBuild` | inference_server/vllm/tools/report_build_time_ninja.py:123-142 | along the reported build end times never decrease and records of one command share start and end |
| `NinjaLog.OneBuildExactly` | inference_server/vllm/tools/report_build_time_ninja.py:123-142 | records are one build exactly when of any two the later ends no earlier and, for the same command, has the same times |
| `NinjaLog.ResetTests` | inference_server/vllm/tools/report_build_time_ninja.py:123-142 | the two reset tests decide exactly whether the next record still fits the current build |
| `NinjaLog.FirstTimesShared` | inference_server/vllm/tools/report_build_time_ninja.py:134-144 | in one build the group's times are the times of every record of the group |
| `NinjaLog.GroupingKeepsNames` | inference_server/vllm/tools/report_build_time_ninja.py:132-147 | grouping by hash keeps every output name once per record |
| `NinjaLog.RecordsMean` | inference_server/vllm/tools/report_build_time_ninja.py:114-121 | the records are those of the well-formed lines, unchanged and in order |
| `NinjaLog.NamesMean` | inference_server/vllm/tools/report_build_time_ninja.py:146-146 | the names of a group are those of its records, in log order |
| `NinjaLog.HashesMean` | inference_server/vllm/tools/report_build_time_ninja.py:144-147 | groups are listed by their first records, in log order |
| `NinjaLog.CollectedNext` | inference_server/vllm/tools/report_build_time_ninja.py:119-146 | one record, with its resets, takes the grouping of the build so far to the grouping of the next |
| `NinjaLog.AddRecord` | inference_server/vllm/tools/report_build_time_ninja.py:143-146 | the record's name is appended to its group's object, created when new; the names of every other object, dropped ones included, do not change |
| `NinjaLog.ReadRecord` | inference_server/vllm/tools/report_build_time_ninja.py:119-146 | one loop iteration keeps the dictionary equal to the grouping of the current build |
| `NinjaLog.ReadLine` | inference_server/vllm/tools/report_build_time_ninja.py:115-146 | a line without five fields changes nothing, any other is taken as a record |
| `NinjaLog.ReadLines` | inference_server/vllm/tools/report_build_time_ninja.py:112-146 | the loop groups the shown records and fails exactly when some five-field line has a time that is no integer |
| `NinjaLog.ReadTargets` | inference_server/vllm/tools/report_build_time_ninja.py:104-147 | another header is refused, a time that is no integer fails; otherwise the result holds one fresh object per command of the last build (of the whole log with show_all), in order of first appearance, with the group's times and all its names |
| `BadWordsSpec.RunSafety` | inference_server/vllm/vllm/logits_process.py:56-86 | from an empty output a token sequence can be emitted exactly when it uses no token at minus infinity and no bad word occurs anywhere in it |
| `BadWordsSpec.EmittableAvoids` | inference_server/vllm/vllm/logits_process.py:66-86 | no emitted sequence contains a bad word |
| `BadWordsSpec.BlockedExactly` | inference_server/vllm/vllm/logits_process.py:26-43 | a sequence is blocked in every run exactly when a listed word occurs in it |
| `BadWords.NoBadWordsLogitsProcessor.constructor` | inference_server/vllm/vllm/logits_process.py:52-54 | the bias starts unset |
| `BadWords.NoBadWordsLogitsProcessor.CheckTokenIdsBounds` | inference_server/vllm/vllm/logits_process.py:105-119 | the collected ids are all ids outside the vocabulary, in list order; there are none exactly when all are inside |
| `BadWords.OutsideMeans` | inference_server/vllm/vllm/logits_process.py:105-111 | the ids outside the vocabulary are picked in order and completely |
| `BadWords.NoBadWordsLogitsProcessor.InitWordBias` | inference_server/vllm/vllm/logits_process.py:88-103 | the bias is minus infinity exactly at the one-token words; a bound violation leaves it unset |
| `BadWords.NoBadWordsLogitsProcessor.LastTokenBias` | inference_server/vllm/vllm/logits_process.py:64-82 | the bias is minus infinity exactly at tokens that complete a longer word, words sharing a last token included; an empty word is an index error |
| `BadWords.NoBadWordsLogitsProcessor.Call` | inference_server/vllm/vllm/logits_process.py:56-86 | on every call a logit becomes minus infinity exactly when it was or the token would complete a bad word, all others are unchanged, and the cache equals a fresh computation |
| `BadWords.PrefixMatch` | inference_server/vllm/vllm/logits_process.py:73-80 | comparing the last tokens with the word's prefix decides whether a token completes the word |
| `BadWords.ShortOrLong` | inference_server/vllm/vllm/logits_process.py:66-84 | the two biases together ban exactly the completing tokens |
| `BadWords.Decode` | inference_server/vllm/vllm/logits_process.py:56-86 | a whole decoding run through one processor never contains a bad word and stops early only when every continuation is impossible |
| `BadWords.GetBadWordsIds` | inference_server/vllm/vllm/logits_process.py:21-45 | by token ids: the list holds every plain encoding, the spaced encoding when it has as many tokens and another first one, and nothing else, never an empty word; it fails exactly on an empty encoding |
| `BadWords.WordListMeans` | inference_server/vllm/vllm/logits_process.py:26-43 | an encoding is listed exactly when some word lists it |
| `BadWords.ListedByTokens` | inference_server/vllm/vllm/logits_process.py:36-43 | what one word lists, said by token ids |
| `BadWords.SpacedEmittedExactly` | inference_server/vllm/vllm/logits_process.py:27-43 | the spaced form of a word can be emitted exactly when no listed encoding of any word occurs in it |
| `BadWords.OneWordSpacedEmitted` | inference_server/vllm/vllm/logits_process.py:27-43 | for a single word: exactly when its spaced form does not count and does not contain the plain one |
| `BadWords.SpaceFusedIsListed` | inference_server/vllm/vllm/logits_process.py:36-43 | with the usual byte-pair tokenizer both forms are listed and neither token can be emitted |
| `BadWords.SpacedFormEscapes` | inference_server/vllm/vllm/logits_process.py:27-43 | a tokenizer with which the spaced form of a bad word is emitted |
| `BadWords.SpaceApartIsBlocked` | inference_server/vllm/vllm/logits_process.py:27-43 | a tokenizer with which the spaced form is blocked without being listed |
| `BadWords.DecodeAvoiding` | inference_server/vllm/vllm/logits_process.py:21-86 | from user words to emitted tokens: no plain encoding of a listed word occurs in the output, nor a spaced one with as many tokens and another first one; it refuses exactly on an empty encoding or a token outside the vocabulary |
| `GreedyBatching.SubBatchFeasible` | inference_server/vllm/benchmarks/benchmark_throughput.py:255-264 | feasibility is closed under contiguous sub-batches |
| `GreedyBatching.FeasibleExactly` | inference_server/vllm/benchmarks/benchmark_throughput.py:255-264 | a batch is feasible exactly when it is a single request, or holds at most the cap and any of its prompts with any of its outputs fits 2048 tokens |
| `GreedyBatching.LookaheadTest` | inference_server/vllm/benchmarks/benchmark_throughput.py:255-264 | the one-request lookahead decides exactly whether the batch can be extended |
| `GreedyBatching.GenerateMeans` | inference_server/vllm/benchmarks/benchmark_throughput.py:266-276 | a generated batch has the prompts of its requests in order and the largest of their output lengths |
| `GreedyBatching.FirstGroupReaches` | inference_server/vllm/benchmarks/benchmark_throughput.py:247-285 | a greedy batch reaches at least as far as any feasible batch begun no later |
| `GreedyBatching.GreedyStaysAhead` | inference_server/vllm/benchmarks/benchmark_throughput.py:247-285 | greedy batches of a suffix are never more than feasible batches of the whole |
| `GreedyBatching.GreedyIsOptimal` | inference_server/vllm/benchmarks/benchmark_throughput.py:247-285 | no partition of the same requests into contiguous feasible batches uses fewer |
| `GreedyBatching.RunHf` | inference_server/vllm/benchmarks/benchmark_throughput.py:244-285 | the loop generates, in order, a greedy partition of the requests under both caps, each batch with its prompts and its largest output length, and with the fewest batches possible |
| `CudaGraph.FillInterval` | inference_server/vllm/vllm/config.py:4406-4410 | the inner loop writes the lower size at its own index and the upper size above it, and nothing else |
| `CudaGraph.BuildTable` | inference_server/vllm/vllm/config.py:4395-4412 | every index from one to the largest capture holds the smallest captured size that fits, index zero holds zero |
| `CudaGraph.TableMonotone` | inference_server/vllm/vllm/config.py:4581-4586 | padding is monotone |
| `CudaGraph.TableFixesCaptures` | inference_server/vllm/vllm/config.py:4581-4586 | captured sizes are left alone and padding twice is padding once |
| `CudaGraph.TableOfMembers` | inference_server/vllm/vllm/config.py:4395-4412 | order and repetition of the capture list do not matter |
| `CudaGraph.CompilationConfig.InitWithCudagraphSizes` | inference_server/vllm/vllm/config.py:4364-4412 | user sizes replace derived ones without duplicates; the compile sizes become the requested numbers, each once, with the keyword replaced by all captured sizes; the list is sorted descending and the table belongs to it; an unrecognized string fails before the table is touched; a list taken over from the caller is sorted for the caller too |
| `CudaGraph.CompilationConfig.ChooseSizes` | inference_server/vllm/vllm/config.py:4369-4378 | user sizes without duplicates if there are any, the derived ones otherwise |
| `CudaGraph.CompilationConfig.BuildFromSizes` | inference_server/vllm/vllm/config.py:4395-4412 | the captured sizes are sorted descending, none gained or lost, and the table belongs to them |
| `CudaGraph.ExpandSizes` | inference_server/vllm/vllm/config.py:4380-4392 | the requested compile sizes are expanded in order, failing exactly on an unrecognized string |
| `CudaGraph.ExpandMeans` | inference_server/vllm/vllm/config.py:4380-4393 | a number is compiled for exactly when it was requested by itself or as a captured size, and nothing but numbers is left |
| `CudaGraph.ExpandCounts` | inference_server/vllm/vllm/config.py:4380-4393 | how often each number is listed: once per request for it, and once per captured size equal to it and request for those |
| `CudaGraph.CompilationConfig.PadForCudagraph` | inference_server/vllm/vllm/config.py:4581-4586 | the lookup is the smallest captured size that fits, zero for the empty batch, and fails exactly above the largest capture |
| `CudaGraphSizes.V1Members` | inference_server/vllm/vllm/config.py:4880-4901 | exactly which sizes the default V1 list holds |
| `CudaGraphSizes.PaddingWaste` | inference_server/vllm/vllm/config.py:4885-4904 | with the default V1 list and no filter, padding wastes at most seven slots and less than half the padded batch |
| `CudaGraphSizes.PaddingSplitsEvenly` | inference_server/vllm/vllm/config.py:4802-4820 | with the sequence-parallel filter every padded size is a multiple of the tensor-parallel size |
| `CudaGraphSizes.V0Fails` | inference_server/vllm/vllm/config.py:4857-4872 | the V0 derivation fails exactly when the filter is on and tensor_parallel_size / gcd(tensor_parallel_size, 8) exceeds 1024 |
| `CudaGraphSizes.V0FailsWithoutCandidate` | inference_server/vllm/vllm/config.py:4857-4872 | equivalently, when the filter leaves no candidate |
| `CudaGraphSizes.Gcd8IsGreatest` | inference_server/vllm/vllm/config.py:4857-4861 | the divisor used there is the greatest common divisor with eight |
| `CudaGraphSizes.V0FailsAt1025` | inference_server/vllm/vllm/config.py:4857-4872 | a failing configuration: 1025 ranks with sequence parallelism |
| `CudaGraphSizes.V0Largest` | inference_server/vllm/vllm/config.py:4863-4879 | the largest V0 capture is the least surviving candidate that holds max_num_seqs, the largest survivor if none does, and everything below it is captured |
| `CudaGraphSizes.V0Exactly` | inference_server/vllm/vllm/config.py:4852-4879 | the whole V0 result without its steps: which configurations give no list or an error, and otherwise that a candidate is captured unless a smaller one already holds max_num_seqs |
| `CudaGraphSizes.V1Exactly` | inference_server/vllm/vllm/config.py:4880-4901 | the whole V1 result without its steps: the empty, attribute-error and type-error cases, and otherwise how often each size is listed, for one given size and for several, in order |
| `CudaGraphSizes.SeveralSizes` | inference_server/vllm/vllm/config.py:4889-4890 | several given sizes are captured as they are, sorted |
| `CudaGraphSizes.SetCudagraphSizes` | inference_server/vllm/vllm/config.py:4851-4904 | the result is the specified one of V0Exactly and V1Exactly; leaves the configuration unchanged when the derivation fails, fails on an unrecognized compile size, and otherwise leaves a ready table for the derived or the user's sizes |
| `CudaGraphSizes.DeriveSizes` | inference_server/vllm/vllm/config.py:4851-4901 | the derived list or the error is the one of V0Exactly and V1Exactly |
| `CudaGraphSizes.ComputeSizes` | inference_server/vllm/vllm/config.py:4851-4901 | the branches compute the function that those lemmas are about |
| `LazyImports.ExemptMeans` | inference_server/vllm/tools/check_init_lazy_imports.py:56-75 | a path is exempt exactly when some enclosing branch is the body of a type-checking guard |
| `LazyImports.OccurrencesExactly` | inference_server/vllm/tools/check_init_lazy_imports.py:50-101 | the imports the traversal meets are exactly the import nodes that lie in the tree, one per position, in source order, each with the branches on the way to it |
| `LazyImports.EagerNamesMean` | inference_server/vllm/tools/check_init_lazy_imports.py:80-87 | an import makes one violation per package name other than vllm.env_override, in order |
| `LazyImports.EagerFromMeans` | inference_server/vllm/tools/check_init_lazy_imports.py:92-99 | a from import makes one violation, as written, when it is relative and not `.version`, or names the package |
| `LazyImports.CleanExactly` | inference_server/vllm/tools/check_init_lazy_imports.py:44-104 | no report exactly when every import that lies in the tree is harmless or in the body of an if on TYPE_CHECKING or typing.TYPE_CHECKING |
| `LazyImports.TopLevelImport` | inference_server/vllm/tools/check_init_lazy_imports.py:101-104 | an import of another package module at the top of a file is reported |
| `LazyImports.Visitor.Visit` | inference_server/vllm/tools/check_init_lazy_imports.py:50-101 | visiting a subtree appends exactly the eager imports outside guard bodies, in source order, and restores the flag |
| `LazyImports.Visitor.VisitAll` | inference_server/vllm/tools/check_init_lazy_imports.py:69-75 | the same for a list of statements |
| `LazyImports.Visitor.VisitIf` | inference_server/vllm/tools/check_init_lazy_imports.py:56-75 | the body of a guard is exempt, its else branch is not |
| `LazyImports.Visitor.VisitImport` | inference_server/vllm/tools/check_init_lazy_imports.py:77-87 | outside guards each internal name that is not whitelisted is reported |
| `LazyImports.Visitor.VisitImportFrom` | inference_server/vllm/tools/check_init_lazy_imports.py:89-99 | outside guards an internal or relative module that is not whitelisted is reported |
| `LazyImports.CheckTree` | inference_server/vllm/tools/check_init_lazy_imports.py:44-104 | the tree is clean exactly when every import node that lies in it, at any position, is harmless or in the body of a type-checking guard |
| `Text.DecRoundTrip` | inference_server/vllm/tools/check_triton_import.py:43-46 | decimal rendering read back gives the number |
| `Text.NumberFound` | inference_server/vllm/tools/check_triton_import.py:43-46 | the number after the first plus sign of a hunk header is the new start line |
| `Text.LStripMeans` | inference_server/vllm/tools/check_triton_import.py:25-25 | stripping on the left takes off white space and stops in front of anything else |
| `Text.RStripMeans` | inference_server/vllm/tools/check_triton_import.py:25-25 | the same on the right |
| `Text.StripOf` | inference_server/vllm/tools/check_triton_import.py:25-25 | what stands between white space and has none at its ends is what stripping leaves |
| `TritonText.ParseDiff` | inference_server/vllm/tools/check_triton_import.py:30-53 | the loop is the line-by-line tracker, with the type error of counting before any hunk header |
| `TritonDiff.CrashExactly` | inference_server/vllm/tools/check_triton_import.py:31-48 | for every sequence of lines: the type error occurs exactly when an added line outside exempt files comes before every numbered hunk header outside them |
| `TritonText.TypeErrorExactly` | inference_server/vllm/tools/check_triton_import.py:36-48 | the same for the raw text lines |
| `TritonText.DiffKindsRendered` | inference_server/vllm/tools/check_triton_import.py:36-47 | the lines of a rendered diff are classified as what they were rendered from: a new-file line as the path behind `b/` if it has one and as nothing otherwise, an added line that reads like a file header as a file header |
| `TritonText.NameKind` | inference_server/vllm/tools/check_triton_import.py:37-39 | every new-file line, plain, quoted, tab-ended or for a deleted file, is read as the model says |
| `TritonText.HunkHeaderKind` | inference_server/vllm/tools/check_triton_import.py:42-46 | a rendered hunk header yields its new start line |
| `TritonText.LineKind` | inference_server/vllm/tools/check_triton_import.py:37-47 | a rendered body line is a file header when it is added and begins with `++ b/`, an added line when it is added and does not begin with a plus sign, and ignored otherwise |
| `TritonText.PlusIsNotForbidden` | inference_server/vllm/tools/check_triton_import.py:24-27 | a line that begins with a plus sign is never a forbidden import |
| `TritonText.ForbiddenExactly` | inference_server/vllm/tools/check_triton_import.py:8-27 | a line is forbidden exactly when it is, between white space, `from` or `import`, white space, and triton at the end or before white space or a dot |
| `TritonText.FromTritonIsForbidden` | inference_server/vllm/tools/check_triton_import.py:8-27 | every `from triton` line is forbidden |
| `TritonText.AllowedLinesRedundant` | inference_server/vllm/tools/check_triton_import.py:8-27 | no allowed line matches the forbidden pattern |
| `TritonDiff.NextNumberMeans` | inference_server/vllm/tools/check_triton_import.py:42-48 | the number of a line in the new file is the start of its hunk plus the added lines before it in the hunk |
| `TritonDiff.TrueLinesMean` | inference_server/vllm/tools/check_triton_import.py:42-52 | the true report of a file lists its forbidden lines in order and completely |
| `TritonText.TrueFileMeans` | inference_server/vllm/tools/check_triton_import.py:8-52 | in terms of the text: nothing for a deleted file and for vllm/triton_utils/importing.py, otherwise every added triton import with its name and number |
| `TritonDiff.DiffExact` | inference_server/vllm/tools/check_triton_import.py:30-53 | the report is put together file by file, and what a file contributes is the truth about it exactly when each of its forbidden lines is treated rightly in the state in which the tracker comes to the file: skipped if the file is exempt, otherwise believed to be in that file and given its number |
| `TritonDiff.FileExact` | inference_server/vllm/tools/check_triton_import.py:37-52 | the same for one file, from whatever state the tracker is in when it reaches it |
| `TritonDiff.PlainExact` | inference_server/vllm/tools/check_triton_import.py:37-52 | for a plainly named file that depends on its own lines alone: in an exempt file the last header-like line above a forbidden one, if any, names an exempt path; in another file it names that same file and no plus-led line stands above in the hunk |
| `TritonDiff.MisnamedExact` | inference_server/vllm/tools/check_triton_import.py:37-52 | a file whose new-file line is not read as its name, and that has no header-like line, is exact only without forbidden lines, or when it is exempt and the tracker is skipping anyway |
| `TritonDiff.TabbedIsMisnamed` | inference_server/vllm/tools/check_triton_import.py:37-38 | a name with the tab that git puts behind names with spaces is read as another name |
| `TritonDiff.BelievedBefore` | inference_server/vllm/tools/check_triton_import.py:37-41 | between two files the tracker believes in the file named by the last line that read like a header, and skips accordingly |
| `TritonDiff.ExactReport` | inference_server/vllm/tools/check_triton_import.py:30-53 | when all files are exact the whole report is the true one |
| `TritonDiff.BelievedIsLast` | inference_server/vllm/tools/check_triton_import.py:37-39 | inside a file the tracker follows the last header-like line |
| `TritonDiff.BelievedUntouched` | inference_server/vllm/tools/check_triton_import.py:37-39 | without a header-like line it stays with the file |
| `TritonDiff.PlusInHunkMeans` | inference_server/vllm/tools/check_triton_import.py:42-48 | a plus-led line stands in the current hunk exactly when one is added after the last hunk header |
| `TritonDiff.TrackedFileNeverCrashes` | inference_server/vllm/tools/check_triton_import.py:42-48 | a file whose new-file line is read as that of a file that is not exempt never makes the tracker fail |
| `TritonDiff.NeverCrashes` | inference_server/vllm/tools/check_triton_import.py:30-53 | a diff without header-like lines in files whose name is not read, or read as exempt, never makes it fail |
| `TritonDiff.OrdinaryReport` | inference_server/vllm/tools/check_triton_import.py:30-53 | without plus-led lines, and with forbidden lines only in plainly named files, the tracker does not fail and its report is the true one |
| `TritonDiff.ShiftedNumber` | inference_server/vllm/tools/check_triton_import.py:47-48 | for every plus-led line above a forbidden one in its hunk the reported number is one too small |
| `TritonDiff.LostViolation` | inference_server/vllm/tools/check_triton_import.py:37-41 | for every added line that reads like the header of an exempt file a forbidden line below it is not reported |
| `TritonDiff.FailingExemptFile` | inference_server/vllm/tools/check_triton_import.py:37-48 | for every added line of an exempt file that reads like the header of another file the next added line is a type error |
| `TritonDiff.UnreadAfterExempt` | inference_server/vllm/tools/check_triton_import.py:37-41 | a file whose new-file line is not read leaves no trace when the tracker is skipping |
| `TritonDiff.UnreadLost` | inference_server/vllm/tools/check_triton_import.py:37-41 | so a forbidden line of such a file behind an exempt one is not reported |
| `TritonText.CheckRendered` | inference_server/vllm/tools/check_triton_import.py:20-53 | from text to report, for every multi-file zero-context diff and every form of new-file line: exactly when the type error occurs, and otherwise the per-file if-and-only-if of DiffExact |
| `TritonText.CheckIsRight` | inference_server/vllm/tools/check_triton_import.py:20-53 | what the check is for: on a diff without plus-led lines, and with triton imports only in plainly named files, the parsed text gives, file by file, exactly the added triton imports outside the exempt file, each with its file and number, in order |
| `TritonText.PlusLedLineShiftsNumber` | inference_server/vllm/tools/check_triton_import.py:47-48 | a concrete diff text: the true violation is in line 2, the parsed report says line 1 |
| `TritonText.FakeHeaderLosesViolation` | inference_server/vllm/tools/check_triton_import.py:37-41 | a concrete diff text whose forbidden import is not reported |
| `TritonText.FakeHeaderFails` | inference_server/vllm/tools/check_triton_import.py:37-48 | a concrete diff text on which the parser raises the type error |
| `TritonText.QuotedNameLosesViolation` | inference_server/vllm/tools/check_triton_import.py:37-41 | a concrete diff text in which a quoted file name behind the exempt file hides a forbidden import |
| `TritonText.ImportTritonIsForbidden` | inference_server/vllm/tools/check_triton_import.py:8-27 | the plain import is forbidden |
| `Lines.ReadConcat` | inference_server/vllm/tools/check_spdx_header.py:65-68 | writing proper lines and reading the file again gives the same lines |
| `Lines.FuseLines` | inference_server/vllm/tools/check_spdx_header.py:74-76 | writing an unterminated line before another fuses the two |
| `SpdxHeader.TheHeaderIsOk` | inference_server/vllm/tools/check_spdx_header.py:17-22 | the two actual header lines have everything the repair proofs rely on |
| `SpdxHeader.CheckStatus` | inference_server/vllm/tools/check_spdx_header.py:25-60 | the scan finds a header line exactly when some line after a shebang strips to it |
| `SpdxHeader.AddBoth` | inference_server/vllm/tools/check_spdx_header.py:70-80 | both header lines are written first, or right behind a shebang |
| `SpdxHeader.AddCopyright` | inference_server/vllm/tools/check_spdx_header.py:82-94 | the copyright line is written behind the first licence line |
| `SpdxHeader.AddLicense` | inference_server/vllm/tools/check_spdx_header.py:96-104 | the licence line is written before the first copyright line |
| `SpdxHeader.AddHeader` | inference_server/vllm/tools/check_spdx_header.py:63-104 | the written text is the old lines with exactly the missing lines inserted at the right place |
| `SpdxHeader.PlaceMeans` | inference_server/vllm/tools/check_spdx_header.py:70-104 | both lines go on top, past a shebang only; the copyright line right behind the first licence line; the licence line right before the first copyright line |
| `SpdxHeader.WrittenMeans` | inference_server/vllm/tools/check_spdx_header.py:70-104 | there stand the licence line and then the copyright line, or the one that was missing |
| `SpdxHeader.RepairCompletes` | inference_server/vllm/tools/check_spdx_header.py:63-104 | away from fusion the file reads back as the original lines with the missing ones inserted, in their place and order, complete, a shebang still first |
| `SpdxHeader.FusedShebang` | inference_server/vllm/tools/check_spdx_header.py:72-76 | a lone unterminated shebang swallows the licence line |
| `SpdxHeader.FusedLicense` | inference_server/vllm/tools/check_spdx_header.py:85-94 | an unterminated licence line at the end swallows the copyright line and is itself lost |
| `SpdxHeader.Repair` | inference_server/vllm/tools/check_spdx_header.py:113-142 | one check-and-repair pass; complete and empty files are untouched |
| `SpdxHeader.RepairExact` | inference_server/vllm/tools/check_spdx_header.py:25-104 | a pass over an incomplete header completes it exactly when it does not fuse lines |
| `SpdxHeader.RepairConverges` | inference_server/vllm/tools/check_spdx_header.py:25-104 | two passes complete every non-empty file and further passes change nothing |
| `SpdxHeader.LoneShebangIsNotCompleted` | inference_server/vllm/tools/check_spdx_header.py:72-76 | a concrete file that one pass does not complete |
| `Streaming.Telescope` | inference_server/vllm/benchmarks/backend_request_func.py:166-178 | first-token time and gaps add up to the latency, whatever the clock, even when the zero sentinel is met repeatedly |
| `Streaming.TrtTimesMean` | inference_server/vllm/benchmarks/backend_request_func.py:158-168 | the token times are those of the tokens, in order |
| `Streaming.TrtTextMeans` | inference_server/vllm/benchmarks/backend_request_func.py:166-167 | the generated text is that of the tokens, one behind the other |
| `Streaming.RequestTrtLlm` | inference_server/vllm/benchmarks/backend_request_func.py:151-187 | success exactly when accepted and decodable, the kind of error otherwise; the record holds the true first-token time, every later gap, and they sum to the latency, and all token text in order; a failed request keeps the text up to the chunk that failed |
| `Streaming.RequestChat` | inference_server/vllm/benchmarks/backend_request_func.py:394-445 | comments are skipped; the first-token time is that of the first event with choices after the start; with gaps and lost time it is the latency; the text of all choices in order; the kind of error, and no text, on failure |
| `Streaming.RecordEvent` | inference_server/vllm/benchmarks/backend_request_func.py:415-434 | a data event is the first token, one more gap or a usage report, and moves the last reading in any case |
| `Streaming.DataMean` | inference_server/vllm/benchmarks/backend_request_func.py:411-416 | the data events are picked in order and completely |
| `Streaming.TextMeans` | inference_server/vllm/benchmarks/backend_request_func.py:419-431 | the generated text is that of the events with choices, one behind the other |
| `Streaming.ChatUsageMeans` | inference_server/vllm/benchmarks/backend_request_func.py:432-433 | the last usage report without choices decides the token count |
| `Streaming.ChatGapsMean` | inference_server/vllm/benchmarks/backend_request_func.py:421-434 | one gap for each event with choices behind the first token, back to the data event before it |
| `Streaming.AllChoicesAreTokens` | inference_server/vllm/benchmarks/backend_request_func.py:419-434 | with choices in every data event the chat record is what the TRT-LLM client records for tokens at those times |
| `Streaming.LostExact` | inference_server/vllm/benchmarks/backend_request_func.py:415-434 | with a clock that never goes back the lost time is non-negative, and zero exactly when no late chunk without choices follows the first token |
| `Streaming.UsageReportLosesTime` | inference_server/vllm/benchmarks/backend_request_func.py:415-434 | every stream of one token and a later usage report loses exactly the time between the two |
| `Streaming.AllTimedNothingLost` | inference_server/vllm/benchmarks/backend_request_func.py:419-434 | nothing is lost when every data chunk carries choices |
| `Streaming.DecodesMeans` | inference_server/vllm/benchmarks/backend_request_func.py:299-306 | for the completions client a stream decodes exactly when it holds neither a malformed chunk nor a colon comment |
| `Streaming.RecordChoice` | inference_server/vllm/benchmarks/backend_request_func.py:314-326 | a chunk with choices is timed as first token or as one more gap |
| `Streaming.ChoicesMean` | inference_server/vllm/benchmarks/backend_request_func.py:311-313 | the timed events are those with choices, in order |
| `Streaming.LastUsageMeans` | inference_server/vllm/benchmarks/backend_request_func.py:327-328 | the last usage report decides the token count |
| `Streaming.RequestCompletions` | inference_server/vllm/benchmarks/backend_request_func.py:290-346 | success needs a chunk with choices; the record exceeds the latency by exactly the time between the two readings at the first token; the text of all choices in order; the kind of error, and no text, on failure |
| `Concurrency.StepKeepsInvariant` | inference_server/vllm/benchmarks/benchmark_serving.py:334-340 | every launch, acquire and finish keeps permits plus requests in flight constant and uses up one step |
| `Concurrency.RunKeepsInvariant` | inference_server/vllm/benchmarks/benchmark_serving.py:334-397 | every state of every run satisfies the invariant |
| `Concurrency.BoundedConcurrency` | inference_server/vllm/benchmarks/benchmark_serving.py:334-340 | never more than max_concurrency requests are in flight |
| `Concurrency.NoDeadlock` | inference_server/vllm/benchmarks/benchmark_serving.py:336-340 | a run that is not finished can go on |
| `Concurrency.RunLength` | inference_server/vllm/benchmarks/benchmark_serving.py:343-397 | every run ends within three steps per request and has then finished them all |
| `Concurrency.GatheredInOrder` | inference_server/vllm/benchmarks/benchmark_serving.py:395-397 | whatever the completion order, the i-th gathered output answers the i-th request |
| `Metrics.Record` | inference_server/vllm/benchmarks/benchmark_serving.py:131-159 | one output is folded in: all lists stay aligned with the successful requests |
| `Metrics.CountWithin` | inference_server/vllm/benchmarks/benchmark_serving.py:181-184 | the zip loop counts the requests that meet every listed objective |
| `Metrics.AddObjective` | inference_server/vllm/benchmarks/benchmark_serving.py:165-179 | a configured objective is added with its own metric list, an absent one changes nothing |
| `Metrics.MeetingIsGood` | inference_server/vllm/benchmarks/benchmark_serving.py:181-184 | meeting the zipped lists is being good request by request |
| `Metrics.Goodput` | inference_server/vllm/benchmarks/benchmark_serving.py:161-184 | the good count is the number of successful requests that meet every configured objective, zero without objectives |
| `Metrics.GoodExactly` | inference_server/vllm/benchmarks/benchmark_serving.py:161-184 | good by the numbers: objectives in milliseconds, times in seconds, time per token over the tokens behind the first |
| `Metrics.CountGoodMeans` | inference_server/vllm/benchmarks/benchmark_serving.py:181-184 | the good count is the number of good requests |
| `Metrics.SuccessesMean` | inference_server/vllm/benchmarks/benchmark_serving.py:131-132 | the successful outputs, in request order |
| `Metrics.PromptSumMeans` | inference_server/vllm/benchmarks/benchmark_serving.py:146-146 | a request adds its prompt length exactly when it succeeded |
| `Metrics.JoinItlMeans` | inference_server/vllm/benchmarks/benchmark_serving.py:154-154 | the gaps of all requests, one list behind the other |
| `Metrics.TpotsMean` | inference_server/vllm/benchmarks/benchmark_serving.py:148-151 | one entry for each request with more than one token |
| `Metrics.FoldOutputs` | inference_server/vllm/benchmarks/benchmark_serving.py:121-159 | the loop over the outputs computes these lists and sums |
| `Metrics.CalculateMetrics` | inference_server/vllm/benchmarks/benchmark_serving.py:121-184 | counts, per-request sums, aligned metric lists, the length of every request, and the number of good requests when an objective is configured |
| `TrtBenchmark.TpotSpreadsGaps` | inference_server/vllm/benchmarks/benchmark_serving.py:148-150 | for a request whose gaps account for everything behind the first token, time per output token times the tokens after the first is the sum of the gaps |
| `TrtBenchmark.TimesConserved` | inference_server/vllm/benchmarks/benchmark_serving.py:154-156 | over all such requests the latencies add up to the first-token times and the gaps |
| `TrtBenchmark.Benchmark` | inference_server/vllm/benchmarks/benchmark_serving.py:121-159 | from the streams of the TRT-LLM client to the reported lists: both facts hold of what is reported |
| `DataParallel.Contribution` | inference_server/vllm/vllm/forward_context.py:41-45 | a rank contributes a one-hot vector |
| `DataParallel.ReduceIsGather` | inference_server/vllm/vllm/forward_context.py:41-48 | the summing all-reduce of one-hot vectors is a gather |
| `DataParallel.RanksAgree` | inference_server/vllm/vllm/forward_context.py:70-79 | all ranks compute the same metadata and the supplied-vector path agrees with the collective |
| `DataParallel.SuppliedExactly` | inference_server/vllm/vllm/forward_context.py:70-73 | a vector supplied to all ranks passes every rank's assertion exactly when it is the gathered one; one rank checks its own entry only |
| `DataParallel.SuppliedIsUsed` | inference_server/vllm/vllm/forward_context.py:70-79 | a rank that accepts a supplied vector uses its largest entry and its running sums |
| `DataParallel.SliceIs` | inference_server/vllm/vllm/forward_context.py:78-79 | the cumulative sums are where the ranks' slices begin |
| `DataParallel.SlicesPartition` | inference_server/vllm/vllm/forward_context.py:78-79 | each position of the token range lies in exactly one rank's slice |
| `DataParallel.SliceLength` | inference_server/vllm/vllm/forward_context.py:77-79 | a slice is as long as its rank's batch and no longer than the maximum |
| `DataParallel.UnfinishedIsAny` | inference_server/vllm/vllm/config.py:2152-2164 | all ranks agree on "some rank is unfinished" |
| `DataParallel.SyncIsLeast` | inference_server/vllm/vllm/config.py:2166-2177 | the agreed memory size is the least among ranks that do not report -1, the largest 64-bit value if all do |
| `Contexts.Globals.Run` | inference_server/vllm/vllm/forward_context.py:135-185 | code run under any nesting of the managers, ending normally or by exception, sees what the leak-aware meaning says, leaves configuration and prefix as it found them, and the forward context too unless statistics code raises |
| `Contexts.Globals.RunForward` | inference_server/vllm/vllm/forward_context.py:122-185 | a forward block: metadata that raises leaves the variable alone, statistics that raise leave it unrestored |
| `Contexts.Globals.RunConfig` | inference_server/vllm/vllm/config.py:4986-5017 | a configuration block restores both variables whatever its body and its checks do |
| `Contexts.LeaksExactly` | inference_server/vllm/vllm/forward_context.py:146-185 | starting without a leak, a context is left behind exactly when an entered forward block outside any other has statistics that raise; without such a block an earlier leak stays as it is |
| `Contexts.LeakIsInstalled` | inference_server/vllm/vllm/forward_context.py:146-185 | what is left behind is a context that the code installed |
| `Contexts.RestoredExactly` | inference_server/vllm/vllm/forward_context.py:135-185 | code that does not install the visible context again leaves the forward variable as it found it exactly when no such statistics raise, earlier leaks included |
| `Contexts.PromiseKept` | inference_server/vllm/vllm/forward_context.py:135-185 | without raising statistics every read sees the innermost open block and nothing is left behind |
| `Contexts.LeakIsSeen` | inference_server/vllm/vllm/forward_context.py:146-185 | after caught statistics failures a read outside every block sees the closed block's context instead of failing its assertion |
| `Contexts.OpenForward` | inference_server/vllm/vllm/forward_context.py:103-108 | inside a forward block reads see its context and configuration reads are unaffected |
| `Contexts.OpenConfig` | inference_server/vllm/vllm/config.py:4986-5017 | inside a configuration block reads see its configuration and prefix and forward reads are unaffected |

## Left out

- `NinjaReport.SummarizeEntries`: printing, extensions and the final divisions by the length are not modelled.
- `NinjaLog.ReadTargets`: lines arrive already split, and converted or marked as not convertible; which texts `int` accepts is not modelled.
- `BadWords.NoBadWordsLogitsProcessor.Call`: requires the vocabulary size of the first call on later calls; NaN and plus infinity are not logits here.
- `CudaGraph.CompilationConfig.InitWithCudagraphSizes`: that the configuration and its caller go on sharing a list that was taken over is not modelled; negative captured sizes are excluded.
- `TritonText.CheckRendered`: hunks start at a hunk header and come in order without overlap, as git writes them; entries without a new-file line (mode changes, binary files) have no place of their own; the report text is kept as a record (file, number, code) rather than the formatted string with the stripped code.
- `TritonText.ParseDiff`: takes the lines; `diff.splitlines()` also splits at form feed, vertical tab, `\x1c` to `\x1e`, `\x85`, U+2028 and U+2029 inside a changed line, which is not modelled.
- `SpdxHeader.AddHeader`: translation of carriage returns on reading is not modelled.
- `Contexts.Globals.Run`: the default configuration built on an unset read is recorded as an unset read; which statistics or metadata code raises is an input.
- `DataParallel.RanksAgree`: the 32-bit width of the token tensor is not modelled; batch sizes are given, not derived from attention metadata.
- `Streaming.RequestTrtLlm`: the error of a failed request, here and in the other two clients, is its kind and not its text.
- The other streaming clients (TGI, DeepSpeed, Sagemaker, audio) would only repeat the three modelled ones.
- Percentiles, means, arrival times, dataset sampling and argument handling of the benchmarks: numeric library calls and plumbing.
- The rest of `config.py` (field validation, hashing, platform checks) and the custom-operator wrappers: declarations over libraries outside the repository.
- The middleware (routes, database, schemas): its behaviour lives in the web framework and the database.
