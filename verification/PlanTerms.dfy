/**
 What each figure of a plan is, in raw bytes: overheads, terms, refusals and derived readings
 (estimator/memory.py `estimate_overheads`, `estimate_plan`; core/plan.py; core/model.py).
 */
module PlanTerms {
  import opened Results
  import opened Arithmetic
  import opened RealArithmetic
  import opened DTypes
  import opened CacheSpecs
  import opened Profiles
  import opened WorkingSets
  import opened MemoryPlan
  import opened PlanVerdicts
  import R = Roofline

  /** The whole split over `tp` ranks, rounded down, with one left when there is less than one each. */
  ghost predicate FloorShare(share: int, whole: nat, tp: nat) {
    if whole < tp then share == 1 else share * tp <= whole < (share + 1) * tp
  }

  /** The least number of whole bytes that hold `bits`. */
  ghost predicate LeastBytes(bytes: int, bits: int) { 8 * bytes - 8 < bits <= 8 * bytes }

  /** An absent or zero token budget stands for the model length, at most 8192. */
  ghost predicate Batched(req: Request, batched: int) {
    if req.maxBatchedTokens == None || req.maxBatchedTokens == Some(0)
    then batched == (if req.maxModelLen <= 8192 then req.maxModelLen else 8192)
    else req.maxBatchedTokens == Some(batched)
  }

  /** The MLP width: the configured one when positive, else four times the hidden size. */
  ghost predicate Width(model: Model, width: int) {
    if model.intermediate.Some? && model.intermediate.value > 0 then Some(width) == model.intermediate
    else width == 4 * model.hidden
  }

  lemma FloorShareIs(whole: nat, tp: nat)
    requires tp >= 1
    ensures FloorShare(Max(1, whole / tp), whole, tp)
  {
    FloorDivGalois(1, whole, tp);
    FloorDivGalois(whole / tp, whole, tp);
    FloorDivGalois(whole / tp + 1, whole, tp);
  }

  /**
   Overheads are sized exactly for a positive concurrency and token budget: logits are three fp32 buffers,
   not split over ranks; graphs cost 64 MiB and 1200 bytes a sequence and hidden unit unless eager;
   activations are two elements per batched token and unit of hidden and MLP width on the rank.
   */
  lemma OverheadsExactly(model: Model, req: Request, batched: int, width: nat)
    requires ValidModel(model) && req.parallelism.Valid() && Batched(req, batched) && Width(model, width)
    ensures var over := OverheadsOf(model, req);
            && (over.Ok? <==> req.maxNumSeqs >= 1 && batched >= 1)
            && (over.Err? ==> over.error == ValueError)
            && (over.Ok? ==>
                  exists hidden: nat, inner: nat ::
                    && FloorShare(hidden, model.hidden, req.parallelism.tensor)
                    && FloorShare(inner, width, req.parallelism.tensor)
                    && over.value.logits == 12 * (req.maxNumSeqs * model.vocab)
                    && over.value.cudaGraph ==
                         (if req.enforceEager then 0 else 67_108_864 + 1200 * (req.maxNumSeqs * hidden))
                    && over.value.attentionWorkspace == 134_217_728
                    && LeastBytes(over.value.prefillActivation,
                                  2 * (batched * (hidden + inner)) * req.activationDtype.Bits()))
  {
    var tp := req.parallelism.tensor;
    assert TokenBudget(req) == batched && EffectiveIntermediate(model) == width;
    if req.maxNumSeqs >= 1 && batched >= 1 {
      var over := OverheadsOf(model, req).value;
      var hidden, inner := HiddenPerGpu(model, tp), Max(1, width / tp) as nat;
      FloorShareIs(model.hidden, tp);
      FloorShareIs(width, tp);
      assert over.prefillActivation == BytesFor(batched * (hidden + inner) * 2, req.activationDtype);
      assert over.logits == req.maxNumSeqs * model.vocab * 4 * 3;
    }
  }

  /** What the driver, the collectives and compilation hold outside the allocator, which plans never charge. */
  lemma NonTorchExactly(model: Model, req: Request)
    requires req.parallelism.Valid() && OverheadsOf(model, req).Ok?
    ensures var over := OverheadsOf(model, req).value;
            && over.cudaContext == 314_572_800
            && over.nccl == (if req.parallelism.tensor > 1 || req.parallelism.pipeline > 1 then 230_686_720 else 0)
            && over.compileWorkspace == (if req.enforceEager then 0 else 419_430_400)
  {}

  /** The cache type planned for: the one asked for, or the type of the weights. */
  ghost predicate PlannedType(model: Model, req: Request, dtype: DType) {
    req.kvDtype == Some(dtype) || (req.kvDtype == None && dtype == model.weightDtype)
  }

  /**
   Every term of a plan: weights rounded up over the ranks, a margin of three percent to the nearest byte,
   activations with logits, graphs and workspace with the recurrent state of every sequence, and to the
   cache what is left of usable memory.
   */
  lemma TermsExactly(model: Model, gpu: Gpu, draw: Stream, req: Request, dtype: DType)
    requires WellFormed(model, gpu, req) && EstimatePlan(model, gpu, draw, req).Ok? && PlannedType(model, req, dtype)
    ensures OverheadsOf(model, req).Ok?
    ensures HasTerms(model, gpu, req, dtype, OverheadsOf(model, req).value, EstimatePlan(model, gpu, draw, req).value)
  {
    hide OverheadsOf, EstimatePlan, KvBudget, Assemble, HasTerms;
    var headroom, binding := PlanIsAssembled(model, gpu, draw, req);
    AssembledTerms(model, gpu, req, dtype, OverheadsOf(model, req).value, headroom, binding);
  }

  /** The terms of a plan, in raw figures. */
  ghost predicate HasTerms(model: Model, gpu: Gpu, req: Request, dtype: DType, over: Overheads, plan: Plan)
    requires WellFormed(model, gpu, req)
  {
    var tp := req.parallelism.tensor;
    && (plan.weights - 1) * tp < model.weightBytes <= plan.weights * tp
    && 100.0 * plan.safety as real - 50.0 <= 3.0 * gpu.usable as real <= 100.0 * plan.safety as real + 50.0
    && plan.activationPeak == over.prefillActivation + over.logits
    && plan.fixedOverhead == over.cudaGraph + over.attentionWorkspace + FixedBytes(model.cache, dtype, tp) * req.maxNumSeqs
    && plan.kvBudget == gpu.usable - plan.weights - plan.safety - plan.activationPeak - plan.fixedOverhead
    && plan.kvBytesPerToken == (if MarginalBytes(model.cache, dtype, tp) == 0 then 1
                                else MarginalBytes(model.cache, dtype, tp))
    && plan.kvDtype == dtype && plan.parallelism == req.parallelism
  }

  lemma AssembledTerms(model: Model, gpu: Gpu, req: Request, dtype: DType, over: Overheads, headroom: nat, binding: Binding)
    requires WellFormed(model, gpu, req) && PlannedType(model, req, dtype) && req.maxNumSeqs >= 1
    requires KvBudget(model, gpu, req, over) >= 0
    ensures HasTerms(model, gpu, req, dtype, over,
                     Assemble(model, gpu, req, over, KvBudget(model, gpu, req, over), headroom, binding))
  {
    assert KvDtype(model, req) == dtype;
    SafetyIsThreePercent(gpu.usable);
    WeightsRoundUp(model, req.parallelism.tensor);
    RecurrentStateNonNegative(model, req);
    assert RecurrentState(model, req) == FixedBytes(model.cache, dtype, req.parallelism.tensor) * req.maxNumSeqs;
    hide CriticalBatchSize, FixedBytes, MarginalBytes, Safety, WeightBytesPerGpu, RecurrentState;
  }

  lemma PlanIsAssembled(model: Model, gpu: Gpu, draw: Stream, req: Request) returns (headroom: nat, binding: Binding)
    requires WellFormed(model, gpu, req) && EstimatePlan(model, gpu, draw, req).Ok?
    ensures OverheadsOf(model, req).Ok? && req.maxNumSeqs >= 1
    ensures var over := OverheadsOf(model, req).value;
            && KvBudget(model, gpu, req, over) >= 0
            && EstimatePlan(model, gpu, draw, req).value
               == Assemble(model, gpu, req, over, KvBudget(model, gpu, req, over), headroom, binding)
  {
    PlanExistsExactly(model, gpu, draw, req);
    RefusedExactlyInfeasible(model, gpu, req);
    hide Classify, PlanHeadroom, EstimateOverheads, Assemble, KvBudget, BindingOf;
    var over := OverheadsOf(model, req).value;
    var kvBudget := KvBudget(model, gpu, req, over);
    headroom := PlanHeadroom(model, draw, req, kvBudget).value;
    binding := BindingOf(model, gpu, draw, req, kvBudget, headroom);
  }

  lemma WeightsRoundUp(model: Model, tp: nat)
    requires tp >= 1
    ensures (WeightBytesPerGpu(model, tp) - 1) * tp < model.weightBytes <= WeightBytesPerGpu(model, tp) * tp
  {
    Distribute(WeightBytesPerGpu(model, tp), -1, tp);
  }

  lemma SafetyIsThreePercent(usable: nat)
    ensures 100.0 * Safety(usable) as real - 50.0 <= 3.0 * usable as real <= 100.0 * Safety(usable) as real + 50.0
  {}

  /**
   Which error refuses a request: the device when it has too few ranks or nothing left for the cache,
   otherwise the arguments themselves.
   */
  lemma RefusalsExactly(model: Model, gpu: Gpu, draw: Stream, req: Request, dtype: DType)
    requires WellFormed(model, gpu, req) && PlannedType(model, req, dtype)
    ensures var result := EstimatePlan(model, gpu, draw, req);
            var wellTyped := dtype.Bits() >= 8 && req.maxModelLen >= 1;
            var p := req.parallelism;
            && (result == Err(InfeasibleConfiguration) <==>
                  wellTyped && (p.tensor * p.pipeline * p.data > gpu.count
                                || (OverheadsOf(model, req).Ok?
                                    && KvBudget(model, gpu, req, OverheadsOf(model, req).value) <= 0)))
            && (result.Err? ==> result.error == InfeasibleConfiguration || result.error == ValueError)
  {
    PlanExistsExactly(model, gpu, draw, req);
    RefusedExactlyInfeasible(model, gpu, req);
    hide Classify, OverheadsOf, KvBudget, FinishPlan;
  }

  /** The token capacity is the largest count whose bytes fit the budget. */
  lemma TokensExactly(plan: Plan)
    requires plan.kvBytesPerToken >= 1
    ensures plan.KvBudgetTokens() * plan.kvBytesPerToken <= plan.kvBudget
            < (plan.KvBudgetTokens() + 1) * plan.kvBytesPerToken
  {
    FloorDivGalois(plan.KvBudgetTokens(), plan.kvBudget, plan.kvBytesPerToken);
    FloorDivGalois(plan.KvBudgetTokens() + 1, plan.kvBudget, plan.kvBytesPerToken);
  }

  /** Whether the cache is the nearer wall: unknown without a compute figure, else read in rates. */
  lemma CacheLimitedExactly(model: Model, gpu: Gpu, plan: Plan)
    requires ValidGpu(gpu) && plan.critical == CriticalBatchSize(gpu, model.weightDtype)
    ensures plan.CacheLimited() == None <==> model.weightDtype !in gpu.denseFlops
    ensures plan.CacheLimited() == Some(false) <==> PastCompute(model, gpu, plan.headroom)
  {
    PastComputeIsCritical(model, gpu, plan.headroom);
  }

  /** The planner's critical batch size is the performance model's at 50% compute and 80% bandwidth use. */
  lemma CriticalSizesAgree(gpu: Gpu, dtype: DType, coef: R.Coefficients)
    requires ValidGpu(gpu) && dtype in gpu.denseFlops
    requires R.ValidCoefficients(coef) && coef.mfu == 0.5 && coef.mbu == 0.8
    ensures CriticalBatchSize(gpu, dtype) == Some(R.CriticalBatch(gpu, dtype, coef))
  {}
}
