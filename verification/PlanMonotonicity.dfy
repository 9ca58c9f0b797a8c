/** How the KV budget moves over the configuration lattice (estimator/memory.py, core/model.py). */
module PlanMonotonicity {
  import opened Results
  import opened Arithmetic
  import opened DTypes
  import opened CacheSpecs
  import opened Profiles
  import opened MemoryPlan
  import opened PlanVerdicts

  /** Overheads can be sized: the checks `estimate_overheads` makes. */
  ghost predicate Sized(model: Model, gpu: Gpu, req: Request) {
    WellFormed(model, gpu, req) && req.maxNumSeqs >= 1 && TokenBudget(req) >= 1
  }

  ghost function Budget(model: Model, gpu: Gpu, req: Request): int
    requires Sized(model, gpu, req)
  {
    KvBudget(model, gpu, req, OverheadsOf(model, req).value)
  }

  ghost function BudgetTokens(model: Model, gpu: Gpu, req: Request): int
    requires Sized(model, gpu, req)
  {
    Budget(model, gpu, req) / PerToken(model.cache, KvDtype(model, req), req.parallelism.tensor)
  }

  /** `hard` asks for at least as many sequences and as much context, on at most as many ranks. */
  ghost predicate Easier(easy: Request, hard: Request) {
    && easy.maxNumSeqs <= hard.maxNumSeqs
    && easy.maxModelLen <= hard.maxModelLen
    && hard.parallelism.tensor <= easy.parallelism.tensor
    && easy.maxBatchedTokens == hard.maxBatchedTokens
    && easy.kvDtype == hard.kvDtype
    && easy.activationDtype == hard.activationDtype
    && easy.enforceEager == hard.enforceEager
    && easy.samples == hard.samples
  }

  lemma HiddenAntitone(model: Model, tp: nat, tp': nat)
    requires 1 <= tp <= tp'
    ensures HiddenPerGpu(model, tp') <= HiddenPerGpu(model, tp)
    ensures Max(1, EffectiveIntermediate(model) / tp') <= Max(1, EffectiveIntermediate(model) / tp)
  {
    FloorDivAntitone(model.hidden, tp, tp');
    FloorDivAntitone(EffectiveIntermediate(model), tp, tp');
  }

  lemma GraphMonotone(model: Model, seqs: nat, seqs': nat, tp: nat, tp': nat, eager: bool)
    requires seqs <= seqs' && 1 <= tp' <= tp
    ensures GraphBytes(model, seqs, tp, eager) <= GraphBytes(model, seqs', tp', eager)
  {
    HiddenAntitone(model, tp', tp);
    MulMonotone(seqs, seqs', HiddenPerGpu(model, tp), HiddenPerGpu(model, tp'));
  }

  lemma PrefillMonotone(model: Model, batched: nat, batched': nat, tp: nat, tp': nat, dtype: DType)
    requires batched <= batched' && 1 <= tp' <= tp
    ensures PrefillBytes(model, batched, tp, dtype) <= PrefillBytes(model, batched', tp', dtype)
  {
    HiddenAntitone(model, tp', tp);
    var width := HiddenPerGpu(model, tp) + Max(1, EffectiveIntermediate(model) / tp);
    var width' := HiddenPerGpu(model, tp') + Max(1, EffectiveIntermediate(model) / tp');
    MulMonotone(batched, batched', width, width');
    BytesForMonotone(batched * width * ACTIVATION_ELEMENTS, batched' * width' * ACTIVATION_ELEMENTS, dtype);
  }

  lemma LogitsMonotone(model: Model, seqs: nat, seqs': nat)
    requires seqs <= seqs'
    ensures LogitsBytes(model, seqs) <= LogitsBytes(model, seqs')
  {
    MulMonotone(seqs, seqs', model.vocab, model.vocab);
  }

  lemma OverheadsMonotone(model: Model, gpu: Gpu, easy: Request, hard: Request)
    requires Sized(model, gpu, easy) && Sized(model, gpu, hard) && Easier(easy, hard)
    ensures OverheadsOf(model, easy).value.TorchSide() <= OverheadsOf(model, hard).value.TorchSide()
  {
    var tp, tp' := easy.parallelism.tensor, hard.parallelism.tensor;
    GraphMonotone(model, easy.maxNumSeqs, hard.maxNumSeqs, tp, tp', easy.enforceEager);
    PrefillMonotone(model, TokenBudget(easy), TokenBudget(hard), tp, tp', easy.activationDtype);
    LogitsMonotone(model, easy.maxNumSeqs, hard.maxNumSeqs);
  }

  lemma RecurrentMonotone(model: Model, easy: Request, hard: Request)
    requires ValidModel(model) && easy.parallelism.Valid() && hard.parallelism.Valid() && Easier(easy, hard)
    requires easy.maxNumSeqs >= 0
    ensures RecurrentState(model, easy) <= RecurrentState(model, hard)
  {
    var dtype := KvDtype(model, easy);
    ShardingNeverCosts(model.cache, dtype, hard.parallelism.tensor, easy.parallelism.tensor);
    MulMonotone(FixedBytes(model.cache, dtype, easy.parallelism.tensor),
                FixedBytes(model.cache, dtype, hard.parallelism.tensor), easy.maxNumSeqs, hard.maxNumSeqs);
  }

  /**
   One order over the whole lattice: fewer sequences, shorter contexts and more ranks can only leave
   more bytes, and more tokens, for the cache.
   */
  lemma BudgetAntitone(model: Model, gpu: Gpu, easy: Request, hard: Request)
    requires Sized(model, gpu, easy) && Sized(model, gpu, hard) && Easier(easy, hard)
    ensures Budget(model, gpu, hard) <= Budget(model, gpu, easy)
  {
    OverheadsMonotone(model, gpu, easy, hard);
    RecurrentMonotone(model, easy, hard);
    CeilDivAntitone(model.weightBytes, hard.parallelism.tensor, easy.parallelism.tensor);
  }

  lemma BudgetTokensAntitone(model: Model, gpu: Gpu, easy: Request, hard: Request)
    requires Sized(model, gpu, easy) && Sized(model, gpu, hard) && Easier(easy, hard)
    requires Budget(model, gpu, hard) >= 0
    ensures BudgetTokens(model, gpu, hard) <= BudgetTokens(model, gpu, easy)
  {
    BudgetAntitone(model, gpu, easy, hard);
    var dtype := KvDtype(model, easy);
    ShardingNeverCosts(model.cache, dtype, hard.parallelism.tensor, easy.parallelism.tensor);
    QuotientMonotone(Budget(model, gpu, hard), Budget(model, gpu, easy),
                     PerToken(model.cache, dtype, easy.parallelism.tensor),
                     PerToken(model.cache, dtype, hard.parallelism.tensor));
  }

  lemma QuotientMonotone(a: nat, a': nat, d: nat, d': nat)
    requires a <= a' && 0 < d <= d'
    ensures a / d' <= a' / d
  {
    FloorDivAntitone(a, d, d');
    FloorDivMonotone(a, a', d);
  }

  /** Feasible requests form a down-set: anything easier that the machine can schedule is feasible too. */
  lemma FeasibleIsDownSet(model: Model, gpu: Gpu, easy: Request, hard: Request)
    requires WellFormed(model, gpu, easy) && WellFormed(model, gpu, hard) && Easier(easy, hard)
    requires easy.maxNumSeqs >= 1 && easy.maxModelLen >= 1 && easy.parallelism.GpusRequired() <= gpu.count
    requires Feasible(model, gpu, hard)
    ensures Feasible(model, gpu, easy)
  {
    BudgetAntitone(model, gpu, easy, hard);
  }

  /** Eight-bit cache never holds fewer tokens than sixteen-bit once every latent rank is at least 16. */
  lemma Fp8NeverLosesTokens(model: Model, gpu: Gpu, bf16: Request, fp8: Request)
    requires Sized(model, gpu, bf16) && Sized(model, gpu, fp8)
    requires bf16.kvDtype == Some(BF16) && fp8.kvDtype.Some? && fp8.kvDtype.value.IsFloat8()
    requires fp8.(kvDtype := Some(BF16)) == bf16
    requires LatentsAtLeast16(model.cache) && Budget(model, gpu, bf16) >= 0
    ensures Budget(model, gpu, bf16) <= Budget(model, gpu, fp8)
    ensures BudgetTokens(model, gpu, bf16) <= BudgetTokens(model, gpu, fp8)
  {
    var tp, dtype := bf16.parallelism.tensor, fp8.kvDtype.value;
    Fp8NeverCosts(model.cache, dtype, tp);
    MulMonotone(FixedBytes(model.cache, dtype, tp), FixedBytes(model.cache, BF16, tp), bf16.maxNumSeqs, bf16.maxNumSeqs);
    QuotientMonotone(Budget(model, gpu, bf16), Budget(model, gpu, fp8),
                     PerToken(model.cache, dtype, tp), PerToken(model.cache, BF16, tp));
  }

  /**
   Re-pricing a finished plan keeps its byte budget, so it never promises more tokens than planning
   afresh for a type with no larger fixed state, and promises exactly as many when the state is equal.
   */
  lemma RepricingUnderstatesReplanning(model: Model, gpu: Gpu, req: Request, dtype: DType, plan: Plan)
    requires Sized(model, gpu, req)
    requires plan.parallelism == req.parallelism && plan.kvBudget == Budget(model, gpu, req)
    ensures var req' := req.(kvDtype := Some(dtype));
            var tp := req.parallelism.tensor;
            var before, after := FixedBytes(model.cache, KvDtype(model, req), tp), FixedBytes(model.cache, dtype, tp);
            var repriced := WithKvDtype(plan, model.cache, dtype).KvBudgetTokens();
            && (after <= before ==> repriced <= BudgetTokens(model, gpu, req'))
            && (after == before ==> repriced == BudgetTokens(model, gpu, req'))
  {
    var tp := req.parallelism.tensor;
    var before, after := FixedBytes(model.cache, KvDtype(model, req), tp), FixedBytes(model.cache, dtype, tp);
    if after <= before {
      MulMonotone(after, before, req.maxNumSeqs, req.maxNumSeqs);
      FloorDivMonotone(plan.kvBudget, Budget(model, gpu, req.(kvDtype := Some(dtype))), PerToken(model.cache, dtype, tp));
    }
  }
}
