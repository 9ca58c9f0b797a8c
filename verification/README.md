# InferTune, modelled and verified in Dafny

InferTune sizes LLM serving configurations. It plans how VRAM is divided, searches configurations,
drives load at an engine, sweeps concurrency and calibrates a two-coefficient performance model. The
engines are separate pieces of code whose answers must agree; most results here connect two of them.

`dafny verify dfyconfig.toml` checks the whole project.

## Modules

| module | models |
|---|---|
| `OrderStatistics`, `WorkingSets` | nearest-rank percentiles and medians; the sampled in-flight token totals |
| `DTypes`, `CacheSpecs`, `CacheCompiler` | bit-sized types, the recursive tree of cache specs, and the compiler from layer lists to grouped specs |
| `Headroom`, `CacheCapacity` | galloping and bisection over any predicate; the cache budget predicate they are given |
| `Profiles`, `MemoryPlan`, `PlanTerms`, `PlanVerdicts`, `PlanMonotonicity` | overheads, the KV budget, the ledger, the binding constraint, and how they agree and move |
| `Utilization` | KV budgets as memory fractions and back |
| `Roofline`, `Calibration` | the performance model and the fits that invert it |
| `Selection`, `Metrics`, `Sweep` | benchmark metrics and the early-stopping concurrency sweep |
| `LoadGenerator` | workers, a locked counter and a locked record list as interleaved steps |
| `SearchSpace`, `SearchEngine` | Pareto pruning, the boot budget and the exhaustive baseline |
| `Weights`, `ActiveParameters` | weight bytes from checkpoint headers; active parameters of a mixture of experts |
| `Units` | printing and parsing sizes and token counts |
| `Results`, `Arithmetic`, `RealArithmetic` | options and errors; integer and real arithmetic facts |

## Conventions

Python loops that update variables are methods, each proved equal to a recursive function or to an
outright description; the theorems are about those. Exceptions are `Result` values, one constructor
per Python class. Floats are exact reals, `round` is round-half-even, `//` is floor division. The random
generator is re-seeded on every call and read in order, so a workload is a stream of request sizes, the
k-th request drawn having a size that depends on k alone. Benchmark runs and engine boots are
arbitrary functions.

## Where the code and its documentation disagree

The model follows the code; each item is the exact condition under which the documented claim holds.

- "Binary search over a monotone predicate" for the "largest concurrency" (`estimator/memory.py:544-557`):
  with two or more samples the predicate is not monotone, since raising the concurrency regroups one
  stream. `CacheCapacity.HeadroomIsLargestExactly`, `CacheCapacity.DefaultSearchIsSoundExactly`.
- "Total cache footprint fits" (`estimator/memory.py:544`): a windowed layer has no marginal cost, so it is
  never charged. `CacheCapacity.HeadroomIsSafeExactly`, `CacheSpecs.ChargeCoversExactly`,
  `CacheSpecs.FirstTokenCoveredExactly`.
- Headroom and token budget are presented as two views of one plan, but the former is limited to 4000
  samples and 4096 sequences. `PlanVerdicts.VerdictsAgreeExactly`.
- "The frontier contains the best candidate on each axis" (`search/space.py:210-212`): true of the front,
  not of the survivors trimmed to the boot budget. `SearchSpace.TrimmingKeepsCapacityExactly`,
  `SearchSpace.TrimmingCanLoseLargest`.
- A dominated candidate "can never win" (`search/space.py:9-11`): it can, on engines that measure otherwise than
  predicted. `SearchEngine.PruningIsFreeExactly`, and `SearchEngine.SearchMatchesGrid` for a monotone objective.
- The "highest memory-utilisation fraction an engine can be given safely" (`estimator/memory.py:621`) is floored
  at 0.05, which a device that can allocate less does not have. `Utilization.CeilingIsSafeExactly`.
- The safe utilisation ceiling can be exceeded by the printed flag. `Utilization.PrintedFlagRespectsCeiling`,
  `Utilization.PrintedFlagCanExceedCeiling`.
- "Subtracts total expert parameters and adds back only the activated ones" (`models/hf.py:357-358`): shared
  experts are added back without having been subtracted. `ActiveParameters.ActiveExactExactly`.
- MBU "is recoverable by inverting the relation that produced it" (`estimator/calibration.py:3-8`): the fit
  charges a two-byte all-reduce whatever the weight type. `Calibration.DecodeFitInvertsModel`.
- Compute-bound decode points are "counted as rejected rather than silently absorbed"
  (`estimator/calibration.py:17-19`): rejection looks at the value alone, which is often plausible: too low, or,
  where the all-reduce is overestimated, too high. `Calibration.ComputeBoundAbsorbedExactly`,
  `Calibration.SomeComputeBoundPointIsAbsorbed`, `Calibration.SomeComputeBoundPointIsOverstated`.
- The sweep "stops early when continuing cannot help" (`bench/harness.py:66-67`): a ladder can climb again
  after it stalls. `Sweep.AlwaysKeepsBestExactly` from the configuration, `Sweep.EarlyStopKeepsBestExactly`
  and `Sweep.EarlyStopKeepsKneeExactly` from the ladder, `Sweep.SaturationStopCanLoseBest` for the input.
- "Exactly `concurrency` requests are in flight at all times" (`bench/loadgen.py:167-168`): never with
  fewer requests than workers, and otherwise only while enough are left. `LoadGenerator.FullLoadReachedExactly`,
  `LoadGenerator.SettledLoadExactly`.

## Model

| member | source | states |
|---|---|---|
| `OrderStatistics.PercentileIsNearestRank` | `src/infertune/bench/metrics.py:49-57` | On every nonempty list and every quantile in (0,1) the sorted index picks an element with at least ceil(qn) elements at or below it and fewer than ceil(qn) strictly below, stated by counting and without sorting. |
| `OrderStatistics.KthSmallestIsUnique` | `src/infertune/bench/metrics.py:49-57` | The counting description pins the percentile down, so it can stand in for the code. |
| `OrderStatistics.PercentilePermutes` | `src/infertune/bench/metrics.py:49-57` | Reordering the samples never changes a percentile, nor whether it is refused. |
| `OrderStatistics.PercentileMonotoneInQuantile` | `src/infertune/core/workload.py:114-118` | Percentiles never cross: a larger quantile gives at least as large a value. |
| `OrderStatistics.PercentileMonotoneInSamples` | `src/infertune/core/workload.py:219-221` | Raising samples one by one can only raise a percentile. |
| `OrderStatistics.PercentileBelow` | `src/infertune/core/workload.py:219-221` | A percentile is below a bound exactly when at least rank-many samples are. |
| `OrderStatistics.MedianWithin` | `src/infertune/estimator/calibration.py:192-193` | The median stays within any interval that holds all samples. |
| `OrderStatistics.MedianExactly` | `src/infertune/estimator/calibration.py:192-193` | The median is the element of the middle rank, or the mean of the two middle ones, by counting. |
| `OrderStatistics.MajorityIsMedian` | `src/infertune/estimator/calibration.py:192-193` | A value held by more than half of the samples is the median, whatever the others are. |
| `WorkingSets.ComputeWorkingSet` | `src/infertune/core/workload.py:182-234` | The nested sampling loops, one generator position shared by all samples, compute the percentiles and mean of the totals of consecutive windows of the request stream, and the naive figure, with the fallback concurrency and all three argument errors. |
| `WorkingSets.WorkingSetExactly` | `src/infertune/core/workload.py:182-234` | Each figure by counting or summing requests: the three percentiles, the mean of all requests sampled, and the naive total, each rounded down. |
| `WorkingSets.NaiveAddsUp` | `src/infertune/core/workload.py:223-225` | The naive total grows by both marginal 95th percentiles with every sequence. |
| `WorkingSets.TotalsUseEveryRequest` | `src/infertune/core/workload.py:208-218` | The sampled totals use the first samples * n requests of the stream, each once. |
| `WorkingSets.WorkingSetOrdered` | `src/infertune/core/workload.py:198-234` | A working set exists exactly when some concurrency of at least 1 is known and at least one sample is drawn, and then p50 <= p95 <= p99. |
| `WorkingSets.TokensGrow` | `src/infertune/estimator/memory.py:563-573` | Pointwise growth of the sampled totals makes every token percentile grow with concurrency. |
| `WorkingSets.OneSampleGrows` | `src/infertune/core/workload.py:208-218` | With one sample and non-negative sizes the totals always grow. |
| `WorkingSets.TokensAtMost` | `src/infertune/core/workload.py:219-221` | Truncated tokens are within a whole-number bound exactly when enough sampled totals are below the next whole number. |
| `DTypes.BytesFor` | `src/infertune/core/dtypes.py:52-60` | The byte count is the least one whose bits cover the elements. |
| `DTypes.GroupingExact` | `src/infertune/core/dtypes.py:52-60` | Sizing n copies together equals n times one copy exactly when the type is whole-byte, the element count is even, or n is 1. |
| `CacheSpecs.ClosedForm` | `src/infertune/core/cache.py:173-346` | For arbitrarily nested specs, sequence bytes are fixed + length * marginal + the sum over windowed leaves of min(length, window) * bytes per token. |
| `CacheSpecs.NextTokenCost` | `src/infertune/core/cache.py:173-346` | One more token costs the marginal bytes plus one token in each window not yet full. |
| `CacheSpecs.SequenceBytesMonotone` | `src/infertune/core/cache.py:179-185` | Sequence bytes never fall as the sequence grows. |
| `CacheSpecs.SequenceBytesConcave` | `src/infertune/core/cache.py:179-185` | A later token never costs more than an earlier one. |
| `CacheSpecs.GrowthPastWindows` | `src/infertune/core/cache.py:339-346` | Past every window in the tree, growth per token is exactly the marginal cost. |
| `CacheSpecs.ScalesWithContextIsExact` | `src/infertune/core/cache.py:336-337` | The flag is false exactly when sequence bytes are constant in the length, for every type and rank count. |
| `CacheSpecs.KvHeadsCover` | `src/infertune/core/cache.py:144-152` | A rank holds the least number of heads with which all ranks together hold them all. |
| `CacheSpecs.AttentionTokenExactly` | `src/infertune/core/cache.py:163-171` | One token on one rank is a key and a value for each head, dimension and layer, in whole bytes. |
| `CacheSpecs.LatentTokenExactly` | `src/infertune/core/cache.py:224-236` | Latent bytes per token at 16 bits, at the two fp8 layouts, and at int8. |
| `CacheSpecs.LatentsReplicate` | `src/infertune/core/cache.py:224-236` | Every rank stores the whole latent. |
| `CacheSpecs.StateExactly` | `src/infertune/core/cache.py:285-297` | Mamba state on one rank: a convolution window over channels and group projections, and an SSM state per channel. |
| `CacheSpecs.StateShards` | `src/infertune/core/cache.py:285-297` | Ranks that divide channels and groups divide the state. |
| `CacheSpecs.ShardingNeverCosts` | `src/infertune/core/cache.py:144-171` | More ranks never raise the fixed or the per-token bytes of one rank, through every nesting. |
| `CacheSpecs.LatentFp8Exact` | `src/infertune/core/cache.py:224-236` | For one latent cache, fp8 costs no more per token than bf16 exactly when the latent rank is at least 16. |
| `CacheSpecs.Fp8NeverCosts` | `src/infertune/core/cache.py:224-346` | With every latent rank at least 16, fp8 never costs more than bf16, fixed or per token. |
| `CacheSpecs.ChargeCoversExactly` | `src/infertune/estimator/memory.py:563-573` | For every cache, type and rank count, the charge (n * fixed + tokens * marginal, floored at 1) bounds the real footprint of every batch exactly when it covers the first token of a sequence. |
| `CacheSpecs.FirstTokenCoveredExactly` | `src/infertune/estimator/memory.py:175-177` | That is exactly when no leaf slides a window, except a four-bit cache storing nothing but one windowed byte per token; for whole-byte types, exactly when no leaf does. |
| `CacheSpecs.ChargeIsExactExactly` | `src/infertune/estimator/memory.py:175-177` | The charge equals the footprint on every batch exactly when no leaf slides a window and some leaf pays per token. |
| `CacheCompiler.BuildCacheSpec` | `src/infertune/models/hf.py:123-248` | The builder, with parts appended in order, returns the same spec or error as the five-path specification. |
| `CacheCompiler.DimExactly` | `src/infertune/models/hf.py:96-109` | The head width is the explicit positive one, else the hidden size split evenly over the heads, else an unknown architecture. |
| `CacheCompiler.NoDimBuildsNothing` | `src/infertune/models/hf.py:96-109` | Without a head width nothing is built. |
| `CacheCompiler.BuildsLatent` | `src/infertune/models/hf.py:133-150` | A latent rank decides first, and the spec reads neither heads nor layer lists. |
| `CacheCompiler.BuildsUniform` | `src/infertune/models/hf.py:228-248` | From the raw fields: the KV heads configured, grouped exactly when fewer than the heads, sliding exactly when a positive window is set and not disabled, and ValueError otherwise. |
| `CacheCompiler.UniformBytes` | `src/infertune/models/hf.py:228-248` | On one rank each retained token costs a key and a value for every configured KV head of every layer. |
| `CacheCompiler.BuildsHybrid` | `src/infertune/models/hf.py:152-184` | From the raw fields: one attention part and one Mamba part with their layer counts, refused exactly when neither occurs or an occurring part is incomplete. |
| `CacheCompiler.BuildsTypes` | `src/infertune/models/hf.py:186-226` | From the raw fields: one full part and one sliding part with their layer counts, refused exactly on an unknown name or an unusable part. |
| `CacheCompiler.LayerTypesAccepted` | `src/infertune/models/hf.py:186-226` | A typed list is accepted exactly when every layer could be built by itself. |
| `CacheCompiler.GroupedQueriesScaleUniform` | `src/infertune/models/hf.py:112-116` | On one rank and whole-byte types the cache costs kv/heads of what one KV head per query head would, with or without a window throughout. |
| `CacheCompiler.GroupedQueriesScaleTypes` | `src/infertune/models/hf.py:112-116` | The same for interleaved full and sliding layers. |
| `CacheCompiler.HybridPatternPreservesBytes` | `src/infertune/models/hf.py:152-184` | For every attention/Mamba pattern, length and rank count the built spec costs the sum of its layers exactly when the type is whole-byte, the Mamba state per layer is even, or at most one layer is Mamba. |
| `CacheCompiler.LayerTypesPreserveBytes` | `src/infertune/models/hf.py:186-226` | For every full/sliding layer list the built spec costs the sum of its layers, at every type width. |
| `CacheCompiler.LayerOrderIsIrrelevant` | `src/infertune/models/hf.py:152-226` | Permuting the layer list changes neither the built spec nor which error is raised. |
| `CacheCompiler.HybridPatternAccepted` | `src/infertune/models/hf.py:152-184` | A pattern is accepted exactly when some layer caches and each layer could be built by itself. |
| `Headroom.MaxConcurrency` | `src/infertune/estimator/memory.py:575-587` | The galloping and bisection loops equal their recursive specification and evaluate the predicate at most 2*log2(ceiling)+1 times. |
| `Headroom.SearchIsLocallyMaximal` | `src/infertune/estimator/memory.py:575-587` | For any predicate the answer fits, is within the ceiling, is 0 exactly when one request does not fit, and its successor does not fit, short only at a ceiling that is no power of two. |
| `Headroom.SearchIsLargestExactly` | `src/infertune/estimator/memory.py:575-587` | For a downward-closed predicate the answer is the largest fitting concurrency exactly when the ceiling is a power of two or does not fit; otherwise it is one short. |
| `CacheCapacity.FitsByCounting` | `src/infertune/estimator/memory.py:563-573` | A concurrency fits exactly when rank-many sampled totals leave room for its fixed state, at the median, the 95th or the 99th percentile by the quantile asked for. |
| `CacheCapacity.HeadroomAnswers` | `src/infertune/estimator/memory.py:558-576` | The errors of a query, and the early answer to an empty budget. |
| `CacheCapacity.HeadroomIsLargestExactly` | `src/infertune/estimator/memory.py:532-587` | For every cache, type, rank count, quantile and ceiling, "largest concurrency that fits" holds over all workloads and positive budgets exactly when the ceiling is 1, is 2 and the percentile is the maximum, or is a power of two and one sample is drawn: resampling regroups the stream and the predicate is not monotone. |
| `CacheCapacity.DefaultSearchIsSoundExactly` | `src/infertune/estimator/memory.py:540-541` | At the default ceiling that condition is a single sample. |
| `CacheCapacity.EmptyBudgetIsLargestExactly` | `src/infertune/estimator/memory.py:575-576` | A zero budget is answered 0 unseen, which is the largest exactly when no concurrency within the ceiling costs nothing. |
| `CacheCapacity.CoveredHeadroomIsSafe` | `src/infertune/estimator/memory.py:532-587` | Where the charge covers a first token, any in-flight lengths within the p95 total stay inside the budget at the reported concurrency. |
| `CacheCapacity.HeadroomIsSafeExactly` | `src/infertune/estimator/memory.py:532-587` | That safety holds for every workload and budget exactly when the charge covers a first token, so for whole-byte types exactly when no layer slides a window. |
| `MemoryPlan.BuildLedger` | `src/infertune/estimator/memory.py:410-511` | The appended ledger, with its two conditional lines, lists exactly the terms and its consumption lines sum to them. |
| `MemoryPlan.LedgerBalances` | `src/infertune/estimator/memory.py:423-511` | Each named line carries its own term once, and the consumption lines sum to weights + torch overheads + safety + recurrent state + KV budget. |
| `PlanVerdicts.SomeRequestIsFeasible` | `src/infertune/estimator/memory.py:198-250` | The feasible set is not empty: a concrete model, device and request are in it. |
| `PlanVerdicts.PlanExistsExactly` | `src/infertune/estimator/memory.py:180-326` | A plan is returned exactly for feasible requests, whatever the workload; the reconcile check never fails and the terms sum to usable memory. |
| `PlanTerms.OverheadsExactly` | `src/infertune/estimator/memory.py:126-172` | Overheads are sized exactly for a positive concurrency and token budget, in raw figures: logits of three fp32 buffers not split over ranks, graphs, workspace, and activations as the least bytes of their elements. |
| `PlanTerms.NonTorchExactly` | `src/infertune/estimator/memory.py:164-167` | Driver, collective and compilation memory, which plans never charge. |
| `PlanTerms.TermsExactly` | `src/infertune/estimator/memory.py:206-318` | Every term of a plan: weights rounded up over ranks, a three percent margin to the nearest byte, activations with logits, fixed overhead with the recurrent state of every sequence, the cache as what is left, and the token price. |
| `PlanTerms.RefusalsExactly` | `src/infertune/estimator/memory.py:200-250` | A request is infeasible, rather than wrong, exactly when it is well typed and the device has too few ranks or nothing left for the cache. |
| `PlanTerms.TokensExactly` | `src/infertune/core/plan.py:158-160` | The token capacity is the largest count whose bytes fit the KV budget. |
| `PlanTerms.CacheLimitedExactly` | `src/infertune/core/plan.py:162-172` | Unknown exactly without a compute figure for the weight type, False exactly when headroom is past the compute wall. |
| `PlanTerms.CriticalSizesAgree` | `src/infertune/core/gpu.py:114-126` | The critical batch size of the device is the one of the performance model at 50% compute and 80% bandwidth use. |
| `PlanVerdicts.LedgerReconciles` | `src/infertune/estimator/memory.py:423-511` | The consumption lines printed beside any plan sum to usable memory to the byte. |
| `PlanVerdicts.RequestFitsExactly` | `src/infertune/estimator/memory.py:226-286` | The reservation for recurrent state cancels and the floor loses nothing: the requested concurrency fits the headroom predicate exactly when its p95 tokens fit the token budget. |
| `PlanVerdicts.VerdictsAgreeWithinLimits` | `src/infertune/estimator/memory.py:226-286` | On a monotone workload, with at most 4000 samples and 4096 sequences, headroom reaches the request exactly when its p95 tokens fit the token budget. |
| `PlanVerdicts.VerdictsAgreeExactly` | `src/infertune/estimator/memory.py:255-286` | For each feasible request, that agreement holds on all monotone workloads exactly when samples <= 4000 and max_num_seqs <= 4096; the default of 8000 samples is outside. |
| `PlanVerdicts.DisagreesPastCeiling` | `src/infertune/estimator/memory.py:540-540` | Past 4096 sequences an empty workload separates the two verdicts. |
| `PlanVerdicts.DisagreesPast4000Samples` | `src/infertune/estimator/memory.py:255-286` | Past 4000 samples a late burst separates the two verdicts, on a workload that keeps the predicate monotone. |
| `PlanVerdicts.BindingMeansWhatItSays` | `src/infertune/estimator/memory.py:329-407` | COMPUTE_BOUND or MAX_MODEL_LEN implies headroom above the request, COMPUTE_BOUND implies cache_limited is False, USER_LIMIT means exactly a context-free cache, and three of the declared constraints are never produced. |
| `PlanVerdicts.BindingExactly` | `src/infertune/estimator/memory.py:345-407` | Each of the four constraints if and only if, for every feasible published plan and workload, in bytes and rates: whether the p95 tokens fit the KV bytes and headroom exceeds the request, whether request and headroom are past the compute wall, and whether every sequence would fit at full length below the trained context. |
| `PlanVerdicts.WeightsBindExactly` | `src/infertune/estimator/memory.py:348-349` | Weights are named exactly when they leave nothing of usable memory, which no published plan does. |
| `PlanMonotonicity.BudgetAntitone` | `src/infertune/estimator/memory.py:126-235` | Over one order on the whole lattice (fewer sequences, shorter context, more ranks) the KV byte budget never falls. |
| `PlanMonotonicity.BudgetTokensAntitone` | `src/infertune/core/plan.py:158-160` | The same for the KV token budget, through the ceiling and floor divisions. |
| `PlanMonotonicity.FeasibleIsDownSet` | `src/infertune/estimator/memory.py:180-250` | Feasible requests form a down-set of that order. |
| `PlanMonotonicity.Fp8NeverLosesTokens` | `src/infertune/estimator/memory.py:206-235` | Planning with fp8 gives at least the bytes and tokens of bf16 once every latent rank is at least 16. |
| `PlanMonotonicity.RepricingUnderstatesReplanning` | `src/infertune/estimator/memory.py:514-529` | Switching the cache type of a finished plan never promises more tokens than planning afresh when the fixed state does not grow, and the same number when it is equal. |
| `Utilization.RequiredUtilization` | `src/infertune/adapters/vllm.py:222-228` | For every reconciling plan the required fraction is (usable - safety)/total, independent of the model. |
| `Utilization.AnswersExactly` | `src/infertune/adapters/vllm.py:219-243` | When inversion, ceiling and prediction are refused, and when an inverted fraction is reported as clamped. |
| `Utilization.InversionRoundTrips` | `src/infertune/adapters/vllm.py:222-248` | Unclamped, predicting KV at the inverted fraction returns KV budget + recurrent state within total/20000 + 1/2 bytes. |
| `Utilization.PrintedFlagRespectsCeiling` | `src/infertune/adapters/vllm.py:228-298` | The computed fraction respects the ceiling, and the four-digit flag does exactly when the plan asks for less than the ceiling or the ceiling does not round up. |
| `Utilization.PrintedFlagCanExceedCeiling` | `src/infertune/adapters/vllm.py:228-298` | A witness: a valid device and a reconciling plan clamped to the safe ceiling 0.90196 and printed as 0.9020. |
| `Utilization.CeilingIsSafeExactly` | `src/infertune/estimator/memory.py:615-666` | For any device and any plan whose committed terms fit: weights + torch overheads + predicted KV stay within usable memory at every flag up to the safe ceiling exactly when five percent of the device rounds to no more than its usable memory. |
| `Utilization.CeilingIsSafe` | `src/infertune/estimator/memory.py:615-666` | Every device that can allocate a twentieth of its memory is safe up to the ceiling. |
| `Utilization.CeilingShortfall` | `src/infertune/estimator/memory.py:615-666` | On every device, a plan compiled under the safe ceiling receives its KV less at most 3% of the driver reserve, and rounding. |
| `Utilization.PlansQualify` | `src/infertune/estimator/memory.py:301-325` | Every plan the estimator returns meets the hypotheses of the utilisation results. |
| `Roofline.DecodeFollowsRates` | `src/infertune/estimator/roofline.py:160-201` | A decode step is four rates applied to the batch: weight read, cache read, compute, and an affine all-reduce. |
| `Roofline.CommunicationIsAffine` | `src/infertune/estimator/roofline.py:133-157` | All-reduce time is a per-token rate times tokens plus a fixed latency. |
| `Roofline.DecodeExactly` | `src/infertune/estimator/roofline.py:160-201` | A decode step in raw bytes and operations: weights rounded up over ranks, every context, two operations per active parameter and sequence, at the achieved bandwidth and peak, and both errors. |
| `Roofline.PrefillExactly` | `src/infertune/estimator/roofline.py:204-240` | The same for prefill. |
| `Roofline.PrefillJoins` | `src/infertune/estimator/roofline.py:223-225` | Joining two prompts costs both and 8 * layers * hidden * m * n for the attention between them. |
| `Roofline.PrefillIsDecodeWithoutAttention` | `src/infertune/estimator/roofline.py:223-225` | Without layers, prefill of n tokens costs decoding a batch of n. |
| `Roofline.PrefillOfOne` | `src/infertune/estimator/roofline.py:223-225` | A lone token costs its decode and 4 * layers * hidden. |
| `Roofline.PrefillIsSuperlinear` | `src/infertune/estimator/roofline.py:204-240` | Prefill compute time grows more than proportionally with the prompt. |
| `Roofline.PeakExactly` | `src/infertune/estimator/roofline.py:123-130` | The listed peak of the type, else the highest listed. |
| `Roofline.CommunicationExactly` | `src/infertune/estimator/roofline.py:133-157` | All-reduce time in raw figures: two calls per layer of 2(n-1)/n of the hidden states in whole bytes, and their latency. |
| `Roofline.BoundExactly` | `src/infertune/estimator/roofline.py:111-120` | The named bound is a longest term, and the total is the longer of memory and compute plus the rest. |
| `Roofline.ThroughputExactly` | `src/infertune/estimator/roofline.py:302-309` | Throughput times the step is the batch, and zero for a step without time. |
| `Roofline.DecodeShape` | `src/infertune/estimator/roofline.py:160-201` | Step time never falls with the batch while tokens per second never fall either and stay within achievable_flops * tp / (2 * active parameters). |
| `Roofline.ComputeBoundPastCritical` | `src/infertune/estimator/roofline.py:266-277` | With two-byte weights, compute exceeding memory time implies a batch above the critical one; an equivalence at zero context and one rank. |
| `Roofline.NeverComputeBoundExactly` | `src/infertune/estimator/roofline.py:111-120` | Decode stays memory-bound at every batch exactly when reading the cache of one sequence takes at least as long as computing its token; otherwise the batch past the crossing is compute-bound. |
| `Calibration.DecodeFitInvertsModel` | `src/infertune/estimator/calibration.py:76-100` | Fitting MBU to a modelled step gives mbu * t_memory / max(t_memory, t_compute) (never above the truth, and the truth exactly when t_memory >= t_compute) exactly at one rank, without a link, or for 16-bit types; anywhere else it gives something different or nothing. |
| `Calibration.ComputeBoundAbsorbedExactly` | `src/infertune/estimator/calibration.py:155-190` | For every modelled decode point, with left = max(t_memory, t_compute) plus the real all-reduce less the two-byte one: it is accepted exactly when left > 0 and 0.02 * left <= mbu * t_memory <= left, and then below the true MBU exactly when left > t_memory. |
| `Calibration.ComputeBoundAbsorbedBelow` | `src/infertune/estimator/calibration.py:155-190` | At one rank, without a link, or for 16-bit types: accepted exactly when mbu * t_memory >= 0.02 * max(t_memory, t_compute), and then below the truth exactly when compute-bound. |
| `Calibration.SomeComputeBoundPointIsAbsorbed` | `src/infertune/estimator/calibration.py:155-190` | A witness: a compute-bound point accepted at half of the true MBU. |
| `Calibration.SomeComputeBoundPointIsOverstated` | `src/infertune/estimator/calibration.py:76-100` | A witness with 8-bit weights on two ranks: a compute-bound point accepted at four thirds of the true MBU. |
| `Calibration.PrefillFitInvertsModel` | `src/infertune/estimator/calibration.py:103-134` | The dual for MFU, at every rank count and type. |
| `Calibration.SameCommunicationExactly` | `src/infertune/estimator/calibration.py:76-100` | The all-reduce term the MBU fit assumes is the modelled one exactly at one rank, without a link, or for 16-bit types. |
| `Calibration.Calibrate` | `src/infertune/estimator/calibration.py:155-208` | The nested loops collect the accepted samples and rejections of the specification, and the coefficients always satisfy the constructor. |
| `Calibration.ContextExactly` | `src/infertune/estimator/calibration.py:155-190` | The context of a point: the measured one when positive, else the rounded-down average prompt. |
| `Calibration.PromptExactly` | `src/infertune/estimator/calibration.py:155-190` | The prompt fitted for prefill: that average, and at least one token. |
| `Calibration.AttemptsExactly` | `src/infertune/estimator/calibration.py:155-190` | When each attempt is made: a success, a latency that is given and not zero, and a token price or a low enough concurrency. |
| `Calibration.RunsAccounted` | `src/infertune/estimator/calibration.py:155-190` | Every accepted sample is plausible and every point contributes exactly two outcomes: accepted, rejected or not tried. |
| `Calibration.CalibrationAccounts` | `src/infertune/estimator/calibration.py:155-208` | Samples fitted, attempts rejected and attempts not made are two for every point of every run; without samples on a side the coefficient of the prior stays, and its overhead always does. |
| `Calibration.FittedIsValid` | `src/infertune/estimator/calibration.py:192-199` | Medians of plausible samples, or the prior, always satisfy the RooflineCoefficients constructor. |
| `Calibration.MajorityCalibrates` | `src/infertune/estimator/calibration.py:192-199` | A value shared by more than half of the accepted samples is the calibrated one. |
| `Calibration.CalibrationRecoversTruth` | `src/infertune/estimator/calibration.py:137-208` | On either side, if more than half of the attempts over all runs come from modelled steps in the right regime (decode also at one rank, without a link, or at 16 bits) with one plausible coefficient and the overhead of the prior, the calibrated coefficient is the true one, whatever the other points hold. |
| `Metrics.StatsAreOrdered` | `src/infertune/bench/metrics.py:73-85` | min <= p50 <= p90 <= p99 <= max on every sample list, the empty one included. |
| `Metrics.ThroughputSign` | `src/infertune/bench/metrics.py:121-131` | Throughput is never negative, and zero without a success. |
| `Metrics.ErrorRateIsOneExactly` | `src/infertune/bench/metrics.py:97-106` | The error rate is in [0,1] and is 1 exactly when something was recorded and nothing succeeded. |
| `Metrics.ErrorRateCounts` | `src/infertune/bench/metrics.py:97-106` | The error rate times the requests recorded is how many did not succeed. |
| `Metrics.MeetsByCounting` | `src/infertune/bench/metrics.py:144-151` | An SLA is met exactly when some request succeeded and, by counting raw records, at least rank ceil(0.99 n) of the n successful ones start within the TTFT limit and as many of those of two or more tokens keep the TPOT limit; with none of the latter, exactly when that limit is at least 0. |
| `Metrics.StatsAre` | `src/infertune/bench/metrics.py:73-85` | Each summary figure by counting: p50, p90 and p99 are the elements of their ranks, min and max bound all samples, mean times count is the sum. |
| `Metrics.EmptyStatsAreZero` | `src/infertune/bench/metrics.py:73-76` | Without samples every figure is zero. |
| `Metrics.ThroughputCountsOutput` | `src/infertune/bench/metrics.py:121-131` | Throughput is additive over records and counts the output tokens of successful requests, prompts and failures excluded. |
| `Metrics.SaturationConcurrency` | `src/infertune/bench/metrics.py:181-195` | The scanning loop returns the first usable point gaining under two percent on the best so far, else the last. |
| `Sweep.SweepConcurrency` | `src/infertune/bench/harness.py:52-128` | The climb with its three breaks returns the points and the at most one note of the recursive specification. |
| `Sweep.SweepIsLadderPrefix` | `src/infertune/bench/harness.py:75-128` | Points are a nonempty prefix of the sorted ladder, and only the last can violate a check; without a note the ladder is exhausted. |
| `Sweep.NoteMeans` | `src/infertune/bench/harness.py:88-125` | The note read off the last point: too many errors first, then a gain under two percent on a positive best, then a given SLA missed, and no note exactly when none applies. |
| `Sweep.PointsAreRuns` | `src/infertune/bench/harness.py:75-84` | The k-th point is one run at the k-th rung with the larger of the configured requests and the concurrency. |
| `Sweep.DetectorsAgree` | `src/infertune/bench/metrics.py:181-195` | On every sweep that stops on saturation, whatever ended it and whatever the error limit, the re-derived saturation point is the last usable point. |
| `Sweep.ThroughputGrows` | `src/infertune/bench/harness.py:95-107` | From the first positive point, each point but the last is at least 1.02 times everything before it. |
| `Metrics.BestIsBest` | `src/infertune/bench/metrics.py:168-171` | The reported best succeeded and is not exceeded by any point, usable or not; there is none exactly when nothing succeeded. |
| `Metrics.KneeIsBest` | `src/infertune/bench/metrics.py:173-178` | The knee meets the SLA and no point that meets it is faster; there is none exactly when nothing meets it. |
| `Sweep.BestIsNearTheEnd` | `src/infertune/bench/metrics.py:168-171` | The best throughput of such a sweep is attained at one of its last two points. |
| `Sweep.SlaStopKeepsKnee` | `src/infertune/bench/harness.py:109-119` | If meeting the SLA is downward closed along the ladder and only the SLA check can stop the climb, the knee equals that of the full ladder. |
| `Sweep.EarlyStopKeepsKneeExactly` | `src/infertune/bench/metrics.py:173-178` | Whichever check stops the climb, the knee is that of the full ladder exactly when no rung past the first to fail a check meets the SLA with more throughput than all before it. |
| `Sweep.AlwaysKeepsBestExactly` | `src/infertune/bench/harness.py:24-50` | From the configuration alone: the best throughput of the ladder is kept under every engine and SLA exactly when there is one rung, or max_error_rate is 1, SLA misses do not stop the climb, and it ignores saturation or has two rungs. |
| `Sweep.PeakIsRunningBest` | `src/infertune/bench/harness.py:107-107` | The running best of the loop, over all points, is the best throughput the sweep reports. |
| `Sweep.EarlyStopKeepsBestExactly` | `src/infertune/bench/harness.py:66-119` | For every valid configuration and whichever check stops the climb, the sweep keeps the best throughput of the whole ladder exactly when no rung past the first to fail a check beats what was measured up to it. |
| `Sweep.SaturationStopKeepsBestExactly` | `src/infertune/bench/harness.py:95-107` | If only saturation can stop the climb, the best throughput is kept exactly when no rung after the full ladder first stalls beats the best by then. |
| `Sweep.SaturationStopLosesLittle` | `src/infertune/bench/harness.py:95-107` | If gains under two percent never re-accelerate, the full ladder is better by at most a factor of 1.02 for each dropped rung. |
| `Sweep.SaturationStopCanLoseBest` | `src/infertune/bench/harness.py:95-107` | A witness ladder (100, 101, 200 tokens/s) that stalls and climbs again, where the stop loses the best throughput. |
| `LoadGenerator.Counters.constructor` | `src/infertune/bench/loadgen.py:63-68` | The counter starts at zero. |
| `LoadGenerator.Counters.Take` | `src/infertune/bench/loadgen.py:70-75` | A ticket is granted exactly while the counter is below the limit, and then increments it by one. |
| `LoadGenerator.StepKeepsInv` | `src/infertune/bench/loadgen.py:194-215` | Every interleaved lock, read, write, append and callback step keeps mutual exclusion, fresh reads, ticket conservation and progress order. |
| `LoadGenerator.RunsAreSafe` | `src/infertune/bench/loadgen.py:194-215` | In every state of every run started = recorded + in flight <= limit, in flight <= workers, callbacks so far are 1, 2, ..., and without a deadline a worker has left only once the limit is reached. |
| `LoadGenerator.FullLoadReachedExactly` | `src/infertune/bench/loadgen.py:165-215` | Some run reaches exactly `concurrency` requests in flight exactly when the call may issue that many; with a smaller request count no run ever does. |
| `LoadGenerator.SettledLoadExactly` | `src/infertune/bench/loadgen.py:165-215` | With a request count, in every reachable state where each worker awaits a response or has left, exactly min(concurrency, n_requests - recorded) requests are in flight. |
| `LoadGenerator.TakeIsAtomic` | `src/infertune/bench/loadgen.py:63-75` | In every run, whatever other workers do between its lock, read and write, a critical section changes the counter and grants a ticket exactly as one uninterrupted call of Take. |
| `LoadGenerator.RunsAreBounded` | `src/infertune/bench/loadgen.py:194-215` | Every run, under every schedule, has at most 8 * limit + 4 * workers steps. |
| `LoadGenerator.PrepareExactly` | `src/infertune/bench/loadgen.py:174-193` | A call is accepted exactly with a worker and either a positive request count or a duration, and what it runs with. |
| `LoadGenerator.SomeoneCanMove` | `src/infertune/bench/loadgen.py:194-215` | No reachable state deadlocks: until all workers have left, one can move. |
| `LoadGenerator.AcceptedCallsDeliver` | `src/infertune/bench/loadgen.py:154-215` | From the arguments: an accepted call that runs to its end records exactly n_requests, or, under a deadline, at most one million, with callbacks 1..n. |
| `LoadGenerator.CompleteRunsRecordEverything` | `src/infertune/bench/loadgen.py:154-215` | A run that can go no further has finished, with callbacks exactly 1..n; without a deadline it holds exactly one record per ticket, n_requests in all. |
| `SearchSpace.ScoreAll` | `src/infertune/search/space.py:172-184` | The loop returns the feasible scores in order and counts the rest. |
| `SearchSpace.ComputeFront` | `src/infertune/search/space.py:250-261` | The double loop, with its identity test, computes the undominated candidates in order. |
| `SearchSpace.FrontIsUndominated` | `src/infertune/search/space.py:250-261` | A candidate is on the front exactly when nothing scored dominates it. |
| `SearchSpace.FrontCovers` | `src/infertune/search/space.py:250-261` | Every scored candidate is matched on both axes by a member of the front. |
| `SearchSpace.FrontIsAntichain` | `src/infertune/search/space.py:187-195` | On the front, more of one axis means no more of the other, and a tie on one is a tie on both. |
| `SearchSpace.FrontIsStaircase` | `src/infertune/search/space.py:234-240` | Sorted by falling throughput, cache capacity never falls, and the axes tie together. |
| `SearchSpace.Prune` | `src/infertune/search/space.py:198-247` | The report of the loops equals the specification. |
| `SearchSpace.PruneAccountsForAll` | `src/infertune/search/space.py:227-247` | enumerated = infeasible + dominated + front size; survivors are min(keep, front size) members of the front. |
| `SearchSpace.FirstSurvivorIsFastest` | `src/infertune/search/space.py:234-247` | For every boot budget the first survivor has the highest predicted throughput of anything feasible. |
| `SearchSpace.LastOfFrontIsLargest` | `src/infertune/search/space.py:250-261` | The last of the sorted front has the most cache capacity of anything feasible. |
| `SearchSpace.TrimmingKeepsCapacityExactly` | `src/infertune/search/space.py:210-240` | The survivors hold the largest cache exactly when the front fits the budget or the last point kept ties with the front's last. |
| `SearchSpace.TrimmingCanLoseLargest` | `src/infertune/search/space.py:234-240` | A witness: two candidates and a budget of one boot, where the largest cache is trimmed away. |
| `SearchEngine.ConfigurationBootsAlike` | `src/infertune/search/engine.py:36-37` | A boot that reads only the configuration measures the same under both scorers, which is what the comparisons with the baseline assume. |
| `SearchEngine.Search` | `src/infertune/search/engine.py:101-182` | The booting loop returns the winner of the specification and boots at most the budget; a budget below 1 is refused. |
| `SearchEngine.SearchServesSla` | `src/infertune/search/engine.py:40-56` | Of the candidates booted: the winner has a point that meets the SLA at the reported throughput, no point of any of them that meets it is faster, and there is no winner exactly when no such point has positive throughput. |
| `SearchEngine.GridServesSla` | `src/infertune/search/engine.py:185-222` | The same for the exhaustive baseline over everything feasible. |
| `SearchEngine.SearchApproximatesGrid` | `src/infertune/search/engine.py:101-222` | With predictions within a fraction e < 1 of the measurements, for every budget >= 1 the search measures at least (1-e)/(1+e) of the exhaustive winner. |
| `SearchEngine.SearchMatchesGrid` | `src/infertune/search/engine.py:101-222` | If the front fits the budget and the objective is monotone on both axes, search and exhaustive winner measure the same. |
| `SearchEngine.PruningIsFreeExactly` | `src/infertune/search/space.py:198-247` | Search and exhaustive baseline tie for every engine and SLA exactly when pruning and the boot budget drop nothing feasible. |
| `SearchEngine.DroppedCouldWin` | `src/infertune/search/space.py:9-11` | For any feasible candidate not booted there is a boot under which the baseline finds it at twice what the search finds. |
| `SearchEngine.SearchNeverBeatsGrid` | `src/infertune/search/engine.py:185-222` | No pruned search measures more than the exhaustive one. |
| `SearchEngine.ScoresAgree` | `src/infertune/search/space.py:127-169` | Sampling and coefficients decide neither feasibility nor whether scoring raises (only a prompt below one token does); with equal coefficients both axes agree. |
| `SearchEngine.ScorersAgree` | `src/infertune/search/space.py:127-169` | So the search and its baseline, which score with different defaults, see the same candidates, as their comparisons assume. |
| `SearchEngine.ScoreExactly` | `src/infertune/search/space.py:157-169` | A score in the figures of its plan: cache tokens are the largest count whose bytes fit the KV budget, predicted throughput times the decode step is the batch, and the times are those of the decode and prefill steps. |
| `SearchEngine.RequestExactly` | `src/infertune/search/space.py:137-155` | A candidate is planned on its tensor ranks alone, with its own cache type and 16-bit activations. |
| `SearchEngine.PlanIgnoresSampling` | `src/infertune/estimator/memory.py:180-326` | Existence, KV bytes and token price of a plan do not depend on the workload or the sample count. |
| `Units.PrintedSizesParse` | `src/infertune/core/units.py:99-147` | For every n >= 0, binary or decimal, parsing the printed size succeeds and is within 0.005 units + 1/2 byte of n, exactly n below one unit. |
| `Units.PrintedTokensParse` | `src/infertune/adapters/vllm.py:394-395` | A printed token count uses only digits and commas, and stripping the commas reads back exactly n. |
| `Units.ParsesExactly` | `src/infertune/core/units.py:99-127` | A text is a size exactly when it is blanks, a sign, digits with an optional fraction, blanks, a known unit or none, blanks, and not below zero. |
| `Units.WrittenParses` | `src/infertune/core/units.py:99-127` | What every such text is read as: its value times its scale, to the nearest byte. |
| `Units.ScalesExactly` | `src/infertune/core/units.py:34-45` | The nine known units and their scales, and no others. |
| `Units.PrintsLargestUnit` | `src/infertune/core/units.py:130-146` | The largest unit the count reaches, with the nearest hundredth of it, or the plain count. |
| `Units.CommasExactly` | `src/infertune/core/units.py:149-151` | Commas stand exactly before every third digit from the end, with no leading zero. |
| `Units.ReadPrinted` | `src/infertune/core/units.py:146-146` | Below one unit the digits printed before " B" read back exactly. |
| `Weights.TensorsFromHeader` | `src/infertune/models/safetensors.py:196-223` | Accepted exactly when every record has a usable non-negative size and there is at least one record; then the records in order. |
| `Weights.SizesExactly` | `src/infertune/models/safetensors.py:204-219` | A record is as long as its interval, else the least bytes of its elements for a known dtype, else unreadable. |
| `Weights.WidthsExactly` | `src/infertune/models/safetensors.py:42-58` | Bytes per element of every known dtype, and no others. |
| `Weights.HeadNamesExactly` | `src/infertune/models/safetensors.py:226-227` | Output heads are the two bare names and any module path ending in one. |
| `Weights.ProductsMultiply` | `src/infertune/models/safetensors.py:72-74` | Elements multiply over dimensions and a scalar is one. |
| `Weights.RawBytesCountsClaims` | `src/infertune/models/safetensors.py:209-220` | For records inside a payload, in any order, the summed sizes equal the claims counted byte by byte. |
| `Weights.TilingSumsToPayload` | `src/infertune/models/safetensors.py:209-220` | Without overlaps the sum is the payload length exactly when no byte is unclaimed; without gaps, exactly when none is claimed twice. |
| `Weights.ContiguousTelescopes` | `src/infertune/models/safetensors.py:209-220` | Offsets that follow one another telescope to the payload length. |
| `Weights.Summarise` | `src/infertune/models/safetensors.py:230-268` | The counting loop, dedup and filter yield exactly the described measurement; it raises only for a tied head in a checkpoint of zero bytes. |
| `Weights.MeasurementConserves` | `src/infertune/models/safetensors.py:237-267` | The histogram after dedup and filtering sums to total_bytes, raw = total + dedup, and every entry is positive: the filter drops no negative one. |
| `Weights.DedupRemovesOneTensor` | `src/infertune/models/safetensors.py:245-261` | A tied measurement is that of the list with its first output head removed. |
| `Weights.MeasurementUnique` | `src/infertune/models/safetensors.py:237-267` | The description determines the measurement. |
| `Weights.MeasureLocal` | `src/infertune/models/safetensors.py:271-297` | Shard headers are concatenated in order; it fails exactly on an unreadable or empty shard, or, with all readable, on a tied output head in zero bytes. |
| `Weights.ShardsAdd` | `src/infertune/models/safetensors.py:276-286` | Bytes, elements and histogram are additive over shard concatenation. |
| `Weights.OrderIrrelevantExactly` | `src/infertune/models/safetensors.py:245-250` | Tensor order is irrelevant to the tied measurement exactly when all output heads have the same bytes, elements and dtype (or no bytes). |
| `ActiveParameters.ActiveWithinTotal` | `src/infertune/models/hf.py:354-380` | On every path the active count is between 1 and the total. |
| `ActiveParameters.EstimateExactly` | `src/infertune/models/hf.py:354-380` | The estimate in raw figures on every path: three matrices per expert, MoE layers past the dense ones, and the fallbacks to the total. |
| `ActiveParameters.ActiveOvershoot` | `src/infertune/models/hf.py:372-380` | For a model composed of base, routed and shared experts, the estimate exceeds the true active count by min(shared, idle) expert blocks per MoE layer. |
| `ActiveParameters.ActiveExactExactly` | `src/infertune/models/hf.py:357-380` | It is the true count exactly when nothing is shared, nothing is idle or no layer is MoE. |

## Left out

- HTTP, server-sent events, range requests and thread pools: a request is one in-flight step that yields one record, with no timing.
- Request failures inside a worker, exceptions raised by progress callbacks, and the clock behind a deadline: a timed worker may leave at any loop top.
- Sizes past 2^53 and every other rounding of binary floating point, except the explicit `round` calls.
- Random number quality, the distributions behind a request's size and their marginal percentiles, and the overstatement ratio.
- The confidence interval and `relative_uncertainty` of the performance model.
- `Sweep.SlaStopKeepsKnee`: its monotonicity of the SLA along the ladder is a hypothesis, since latency is measured.
- `SearchEngine.SearchApproximatesGrid`: prediction accuracy is a hypothesis, since measurements are arbitrary, and so is that booting a candidate measures the same under the scores of the search and of the baseline.
- `SearchEngine.ScorersAgree`: as functions, the scorers need a prompt of at least one token, below which scoring raises (`SearchEngine.ScoresAgree` covers both); the sample counts are positive together or not at all.
- `CacheCompiler.BuildCacheSpec`: alternative spellings of configuration keys are resolved beforehand, and warnings are not modelled.
- `Weights.Summarise`: the insertion order of the histogram, and so which of two equal dtypes is dominant, is not modelled.
- `Weights.MeasureLocal`: file access and JSON parsing are left out; a shard is its parsed header.
- `Units.PrintedSizesParse`: ASCII digits, letters and blanks, and the default precision of two decimals.
- Candidate enumeration, quantisation and mixture-of-experts detection, and the fuzzy GPU lookup: single-branch code.
- The rest of `adapters/vllm.py` and all of `adapters/sglang.py`: flag tables, introspection and log patterns depend on the engines.
- Constructor range checks beyond the fields a built spec, a call or a request supplies.
- SQLite storage, the CLI, NVML discovery, and warning, formula and provenance texts.
