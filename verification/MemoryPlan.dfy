/** Overheads, the KV budget, the ledger and the binding constraint (estimator/memory.py, core/plan.py). */
module MemoryPlan {
  import opened Results
  import opened Arithmetic
  import opened DTypes
  import opened CacheSpecs
  import opened Profiles
  import opened WorkingSets
  import opened CacheCapacity

  const MIB: nat := 1024 * 1024
  const CUDA_CONTEXT_BYTES: nat := 300 * MIB
  const NCCL_BYTES_PER_RANK: nat := 220 * MIB
  const COMPILE_WORKSPACE_BYTES: nat := 400 * MIB
  const CUDA_GRAPH_BASE_BYTES: nat := 64 * MIB
  const CUDA_GRAPH_BYTES_PER_SEQ_PER_HIDDEN: nat := 1200
  const ACTIVATION_ELEMENTS: nat := 2
  const ATTENTION_WORKSPACE_BYTES: nat := 128 * MIB
  const FRAGMENTATION_FRACTION := 0.03
  const LOGITS_BUFFER_COPIES: nat := 3

  /** Per-GPU terms other than weights and cache, split by which allocator owns them. */
  datatype Overheads = Overheads(
    cudaContext: nat,
    nccl: nat,
    compileWorkspace: nat,
    cudaGraph: nat,
    attentionWorkspace: nat,
    prefillActivation: nat,
    logits: nat)
  {
    function TorchSide(): nat { cudaGraph + attentionWorkspace + prefillActivation + logits }
  }

  datatype Request = Request(
    maxNumSeqs: int,
    maxModelLen: int,
    maxBatchedTokens: Option<int>,
    parallelism: Parallelism,
    kvDtype: Option<DType>,
    activationDtype: DType,
    enforceEager: bool,
    samples: int)

  function KvDtype(model: Model, req: Request): DType {
    if req.kvDtype.Some? then req.kvDtype.value else model.weightDtype
  }

  /** Python's `or`: an absent or zero token budget falls back to the model length, capped at 8192. */
  function TokenBudget(req: Request): int {
    if req.maxBatchedTokens.Some? && req.maxBatchedTokens.value != 0
    then req.maxBatchedTokens.value else Min(req.maxModelLen, 8192)
  }

  function HiddenPerGpu(model: Model, tp: nat): nat
    requires tp >= 1
  {
    Max(1, model.hidden / tp)
  }

  function PrefillBytes(model: Model, batched: nat, tp: nat, dtype: DType): nat
    requires tp >= 1
  {
    var inner := Max(1, EffectiveIntermediate(model) / tp);
    BytesFor(batched * (HiddenPerGpu(model, tp) + inner) * ACTIVATION_ELEMENTS, dtype)
  }

  function GraphBytes(model: Model, seqs: nat, tp: nat, eager: bool): nat
    requires tp >= 1
  {
    if eager then 0
    else CUDA_GRAPH_BASE_BYTES + seqs * HiddenPerGpu(model, tp) * CUDA_GRAPH_BYTES_PER_SEQ_PER_HIDDEN
  }

  function LogitsBytes(model: Model, seqs: nat): nat {
    seqs * model.vocab * 4 * LOGITS_BUFFER_COPIES
  }

  function EstimateOverheads(model: Model, seqs: int, batched: int, par: Parallelism, dtype: DType, eager: bool)
    : Result<Overheads>
    requires par.Valid()
  {
    if seqs < 1 || batched < 1 then Err(ValueError)
    else
      Ok(Overheads(
           CUDA_CONTEXT_BYTES,
           if par.tensor > 1 || par.pipeline > 1 then NCCL_BYTES_PER_RANK else 0,
           if eager then 0 else COMPILE_WORKSPACE_BYTES,
           GraphBytes(model, seqs, par.tensor, eager),
           ATTENTION_WORKSPACE_BYTES,
           PrefillBytes(model, batched, par.tensor, dtype),
           LogitsBytes(model, seqs)))
  }

  function Safety(usable: nat): (s: nat)
    ensures s <= usable
  {
    RoundBelow(usable as real * FRAGMENTATION_FRACTION, usable);
    RoundMonotone(0.0, usable as real * FRAGMENTATION_FRACTION);
    Round(usable as real * FRAGMENTATION_FRACTION)
  }

  function RecurrentState(model: Model, req: Request): int
    requires ValidModel(model) && req.parallelism.Valid()
  {
    FixedBytes(model.cache, KvDtype(model, req), req.parallelism.tensor) * req.maxNumSeqs
  }

  lemma RecurrentStateNonNegative(model: Model, req: Request)
    requires ValidModel(model) && req.parallelism.Valid() && req.maxNumSeqs >= 0
    ensures RecurrentState(model, req) >= 0
  {}

  datatype Binding =
    | KV_WORKING_SET | WEIGHTS_DO_NOT_FIT | MAX_MODEL_LEN | SLA_TTFT | SLA_TPOT | COMPUTE_BOUND | USER_LIMIT

  datatype Plan = Plan(
    weights: nat,
    activationPeak: nat,
    fixedOverhead: nat,
    safety: nat,
    kvBudget: nat,
    kvBytesPerToken: nat,
    parallelism: Parallelism,
    kvDtype: DType,
    binding: Binding,
    headroom: nat,
    critical: Option<real>)
  {
    function KvBudgetTokens(): nat
      requires kvBytesPerToken >= 1
    {
      kvBudget / kvBytesPerToken
    }

    function CacheLimited(): Option<bool> {
      if critical.None? then None else Some((headroom as real) < critical.value)
    }

    function TotalAllocated(): nat { weights + activationPeak + fixedOverhead + safety + kvBudget }
  }

  function CriticalBatchSize(gpu: Gpu, dtype: DType): Option<real>
    requires ValidGpu(gpu)
  {
    if dtype in gpu.denseFlops then Some((gpu.denseFlops[dtype] * 0.5) / (gpu.bandwidth * 0.8)) else None
  }

  /** An absent critical batch size stands for infinity. */
  predicate AtLeastCritical(n: int, critical: Option<real>) {
    critical.Some? && n as real >= critical.value
  }

  function Classify(model: Model, draw: Stream, kvTokens: nat, cacheWall: nat, critical: Option<real>,
                    seqs: nat, modelLen: int, weights: nat, usable: nat, samples: nat): Binding
    requires samples >= 1
  {
    if weights >= usable then WEIGHTS_DO_NOT_FIT
    else if !ScalesWithContext(model.cache) then USER_LIMIT
    else if TokensAt(draw, seqs, samples, 0.95) > kvTokens then KV_WORKING_SET
    else if cacheWall <= seqs then KV_WORKING_SET
    else if AtLeastCritical(seqs, critical) then COMPUTE_BOUND
    else if modelLen < model.maxPosition && kvTokens >= seqs * modelLen then MAX_MODEL_LEN
    else if !AtLeastCritical(cacheWall, critical) then KV_WORKING_SET
    else COMPUTE_BOUND
  }

  /** Usable VRAM minus everything committed before the cache; negative when nothing is left. */
  function KvBudget(model: Model, gpu: Gpu, req: Request, over: Overheads): int
    requires ValidModel(model) && ValidGpu(gpu) && req.parallelism.Valid()
  {
    gpu.usable - (WeightBytesPerGpu(model, req.parallelism.tensor) + over.TorchSide() + Safety(gpu.usable)
                  + RecurrentState(model, req))
  }

  function OverheadsOf(model: Model, req: Request): Result<Overheads>
    requires req.parallelism.Valid()
  {
    EstimateOverheads(model, req.maxNumSeqs, TokenBudget(req), req.parallelism, req.activationDtype, req.enforceEager)
  }

  /** The exceptions a request can raise, in the order they are checked. */
  function Refusal(model: Model, gpu: Gpu, req: Request): Option<Error>
    requires ValidModel(model) && ValidGpu(gpu) && req.parallelism.Valid()
  {
    var over := OverheadsOf(model, req);
    if KvDtype(model, req).IsSubByte() then Some(ValueError)
    else if req.maxModelLen < 1 then Some(ValueError)
    else if req.parallelism.GpusRequired() > gpu.count then Some(InfeasibleConfiguration)
    else if over.Err? then Some(over.error)
    else if KvBudget(model, gpu, req, over.value) <= 0 then Some(InfeasibleConfiguration)
    else if req.samples < 1 then Some(ValueError)
    else None
  }

  /** The headroom search of a plan: fewer samples than the classification may use. */
  function PlanHeadroom(model: Model, draw: Stream, req: Request, kvBudget: int): Result<nat>
    requires ValidModel(model) && req.parallelism.Valid()
  {
    Headroom(model.cache, draw, kvBudget + RecurrentState(model, req), KvDtype(model, req), req.parallelism.tensor,
             0.95, DEFAULT_CEILING, Min(req.samples, 4000))
  }

  /** The terms of an accepted plan. */
  function Assemble(model: Model, gpu: Gpu, req: Request, over: Overheads, kvBudget: nat, headroom: nat, binding: Binding): Plan
    requires ValidModel(model) && ValidGpu(gpu) && req.parallelism.Valid() && req.maxNumSeqs >= 1
  {
    Plan(WeightBytesPerGpu(model, req.parallelism.tensor),
         over.prefillActivation + over.logits,
         over.cudaGraph + over.attentionWorkspace + RecurrentState(model, req),
         Safety(gpu.usable),
         kvBudget,
         PerToken(model.cache, KvDtype(model, req), req.parallelism.tensor),
         req.parallelism,
         KvDtype(model, req),
         binding,
         headroom,
         CriticalBatchSize(gpu, model.weightDtype))
  }

  /** The constraint named for a request, from its own figures. */
  function BindingOf(model: Model, gpu: Gpu, draw: Stream, req: Request, kvBudget: nat, headroom: nat): Binding
    requires ValidModel(model) && ValidGpu(gpu) && req.parallelism.Valid()
    requires req.maxNumSeqs >= 1 && req.samples >= 1
  {
    Classify(model, draw, kvBudget / PerToken(model.cache, KvDtype(model, req), req.parallelism.tensor), headroom,
             CriticalBatchSize(gpu, model.weightDtype), req.maxNumSeqs, req.maxModelLen,
             WeightBytesPerGpu(model, req.parallelism.tensor), gpu.usable, req.samples)
  }

  /** The part of `estimate_plan` after the KV budget is known to be positive. */
  function FinishPlan(model: Model, gpu: Gpu, draw: Stream, req: Request, over: Overheads, kvBudget: nat): Result<Plan>
    requires ValidModel(model) && ValidGpu(gpu) && req.parallelism.Valid()
    requires req.maxNumSeqs >= 1 && req.samples >= 1
  {
    var headroom := PlanHeadroom(model, draw, req, kvBudget);
    if headroom.Err? then Err(headroom.error)
    else
      var plan := Assemble(model, gpu, req, over, kvBudget, headroom.value,
                           BindingOf(model, gpu, draw, req, kvBudget, headroom.value));
      if plan.TotalAllocated() != gpu.usable then Err(ReconcileFailure) else Ok(plan)
  }

  function EstimatePlan(model: Model, gpu: Gpu, draw: Stream, req: Request): Result<Plan>
    requires ValidModel(model) && ValidGpu(gpu) && req.parallelism.Valid()
  {
    var refusal := Refusal(model, gpu, req);
    if refusal.Some? then Err(refusal.value)
    else
      var over := OverheadsOf(model, req).value;
      FinishPlan(model, gpu, draw, req, over, KvBudget(model, gpu, req, over))
  }

  // ---------------------------------------------------------------- the ledger

  datatype Line = TOTAL | USABLE | RESERVE | WEIGHTS | GRAPH_POOL | WORKSPACE | ACTIVATIONS | LOGITS
                | RECURRENT_STATE | FRAGMENTATION | KV_CACHE

  datatype Entry = Entry(line: Line, size: nat, isAvailable: bool)

  /** What the consumption lines account for; capacity lines do not count. */
  function Consumed(ledger: seq<Entry>): nat {
    if ledger == [] then 0
    else (if ledger[0].isAvailable then 0 else ledger[0].size) + Consumed(ledger[1..])
  }

  function SizeOf(ledger: seq<Entry>, line: Line): nat {
    if ledger == [] then 0
    else (if ledger[0].line == line then ledger[0].size else 0) + SizeOf(ledger[1..], line)
  }

  lemma {:induction false} LedgerConcat(a: seq<Entry>, b: seq<Entry>, line: Line)
    ensures Consumed(a + b) == Consumed(a) + Consumed(b)
    ensures SizeOf(a + b, line) == SizeOf(a, line) + SizeOf(b, line)
    decreases |a|
  {
    if a == [] {
      assert a + b == b;
    } else {
      assert (a + b)[1..] == a[1..] + b;
      LedgerConcat(a[1..], b, line);
    }
  }

  lemma LedgerOne(e: Entry, line: Line)
    ensures Consumed([e]) == if e.isAvailable then 0 else e.size
    ensures SizeOf([e], line) == if e.line == line then e.size else 0
  {
    assert [e][1..] == [];
  }

  /** The amount each line of the ledger must carry. */
  function Expected(gpu: Gpu, weights: nat, over: Overheads, safety: nat, recurrent: nat, kvBudget: nat, line: Line): nat
    requires ValidGpu(gpu)
  {
    match line
    case TOTAL => gpu.vram
    case USABLE => gpu.usable
    case RESERVE => gpu.vram - gpu.usable
    case WEIGHTS => weights
    case GRAPH_POOL => over.cudaGraph
    case WORKSPACE => over.attentionWorkspace
    case ACTIVATIONS => over.prefillActivation
    case LOGITS => over.logits
    case RECURRENT_STATE => recurrent
    case FRAGMENTATION => safety
    case KV_CACHE => kvBudget
  }

  function Optional(line: Line, size: nat): seq<Entry> {
    if size > 0 then [Entry(line, size, false)] else []
  }

  function CapacityLines(gpu: Gpu): seq<Entry>
    requires ValidGpu(gpu)
  {
    [Entry(TOTAL, gpu.vram, true), Entry(USABLE, gpu.usable, true), Entry(RESERVE, Max(0, gpu.vram - gpu.usable), true)]
  }

  function EngineLines(weights: nat, over: Overheads): seq<Entry> {
    [Entry(WEIGHTS, weights, false)] + Optional(GRAPH_POOL, over.cudaGraph)
    + [Entry(WORKSPACE, over.attentionWorkspace, false), Entry(ACTIVATIONS, over.prefillActivation, false),
       Entry(LOGITS, over.logits, false)]
  }

  function CacheLines(safety: nat, recurrent: nat, kvBudget: nat): seq<Entry> {
    Optional(RECURRENT_STATE, recurrent) + [Entry(FRAGMENTATION, safety, false), Entry(KV_CACHE, kvBudget, false)]
  }

  function LedgerOf(gpu: Gpu, weights: nat, over: Overheads, safety: nat, recurrent: nat, kvBudget: nat): seq<Entry>
    requires ValidGpu(gpu)
  {
    CapacityLines(gpu) + EngineLines(weights, over) + CacheLines(safety, recurrent, kvBudget)
  }

  /** The printed ledger, appended line by line; two of the lines appear only when non-zero. */
  method BuildLedger(gpu: Gpu, weights: nat, over: Overheads, safety: nat, recurrent: nat, kvBudget: nat)
    returns (ledger: seq<Entry>)
    requires ValidGpu(gpu)
    ensures ledger == LedgerOf(gpu, weights, over, safety, recurrent, kvBudget)
    ensures Consumed(ledger) == weights + over.TorchSide() + safety + recurrent + kvBudget
  {
    ledger := [Entry(TOTAL, gpu.vram, true), Entry(USABLE, gpu.usable, true),
               Entry(RESERVE, Max(0, gpu.vram - gpu.usable), true), Entry(WEIGHTS, weights, false)];
    if over.cudaGraph != 0 {
      ledger := ledger + [Entry(GRAPH_POOL, over.cudaGraph, false)];
    }
    ledger := ledger + [Entry(WORKSPACE, over.attentionWorkspace, false),
                        Entry(ACTIVATIONS, over.prefillActivation, false), Entry(LOGITS, over.logits, false)];
    if recurrent != 0 {
      ledger := ledger + [Entry(RECURRENT_STATE, recurrent, false)];
    }
    ledger := ledger + [Entry(FRAGMENTATION, safety, false), Entry(KV_CACHE, kvBudget, false)];
    assert ledger == LedgerOf(gpu, weights, over, safety, recurrent, kvBudget);
    LedgerBalances(gpu, weights, over, safety, recurrent, kvBudget, KV_CACHE);
  }

  lemma LedgerPair(e: Entry, f: Entry, line: Line)
    ensures Consumed([e, f]) == Consumed([e]) + Consumed([f])
    ensures SizeOf([e, f], line) == SizeOf([e], line) + SizeOf([f], line)
  {
    assert [e, f] == [e] + [f];
    LedgerConcat([e], [f], line);
  }

  lemma LedgerTriple(e: Entry, f: Entry, g: Entry, line: Line)
    ensures Consumed([e, f, g]) == Consumed([e]) + Consumed([f]) + Consumed([g])
    ensures SizeOf([e, f, g], line) == SizeOf([e], line) + SizeOf([f], line) + SizeOf([g], line)
  {
    assert [e, f, g] == [e, f] + [g];
    LedgerConcat([e, f], [g], line);
    LedgerPair(e, f, line);
  }

  /** Every term is listed once under its own name, and the consumption lines add up to usable VRAM's parts. */
  lemma LedgerBalances(gpu: Gpu, weights: nat, over: Overheads, safety: nat, recurrent: nat, kvBudget: nat, line: Line)
    requires ValidGpu(gpu)
    ensures var ledger := LedgerOf(gpu, weights, over, safety, recurrent, kvBudget);
            && Consumed(ledger) == weights + over.TorchSide() + safety + recurrent + kvBudget
            && SizeOf(ledger, line) == Expected(gpu, weights, over, safety, recurrent, kvBudget, line)
  {
    CapacityBalances(gpu, line);
    EngineBalances(weights, over, line);
    CacheBalances(safety, recurrent, kvBudget, line);
    LedgerConcat(CapacityLines(gpu), EngineLines(weights, over), line);
    LedgerConcat(CapacityLines(gpu) + EngineLines(weights, over), CacheLines(safety, recurrent, kvBudget), line);
  }

  /** What one named line contributes. */
  function Only(line: Line, wanted: Line, size: nat): nat { if line == wanted then size else 0 }

  lemma CapacityBalances(gpu: Gpu, line: Line)
    requires ValidGpu(gpu)
    ensures Consumed(CapacityLines(gpu)) == 0
    ensures SizeOf(CapacityLines(gpu), line)
            == Only(TOTAL, line, gpu.vram) + Only(USABLE, line, gpu.usable) + Only(RESERVE, line, gpu.vram - gpu.usable)
  {
    var s := CapacityLines(gpu);
    LedgerTriple(s[0], s[1], s[2], line);
    LedgerOne(s[0], line);
    LedgerOne(s[1], line);
    LedgerOne(s[2], line);
  }

  lemma OptionalBalances(wanted: Line, size: nat, line: Line)
    ensures Consumed(Optional(wanted, size)) == size
    ensures SizeOf(Optional(wanted, size), line) == Only(wanted, line, size)
  {
    LedgerOne(Entry(wanted, size, false), line);
  }

  lemma EngineBalances(weights: nat, over: Overheads, line: Line)
    ensures Consumed(EngineLines(weights, over)) == weights + over.TorchSide()
    ensures SizeOf(EngineLines(weights, over), line)
            == Only(WEIGHTS, line, weights) + Only(GRAPH_POOL, line, over.cudaGraph)
               + Only(WORKSPACE, line, over.attentionWorkspace) + Only(ACTIVATIONS, line, over.prefillActivation)
               + Only(LOGITS, line, over.logits)
  {
    var w, k := Entry(WEIGHTS, weights, false), Entry(WORKSPACE, over.attentionWorkspace, false);
    var a, l := Entry(ACTIVATIONS, over.prefillActivation, false), Entry(LOGITS, over.logits, false);
    var g := Optional(GRAPH_POOL, over.cudaGraph);
    LedgerConcat([w], g, line);
    LedgerConcat([w] + g, [k, a, l], line);
    LedgerTriple(k, a, l, line);
    OptionalBalances(GRAPH_POOL, over.cudaGraph, line);
    LedgerOne(w, line);
    LedgerOne(k, line);
    LedgerOne(a, line);
    LedgerOne(l, line);
  }

  lemma CacheBalances(safety: nat, recurrent: nat, kvBudget: nat, line: Line)
    ensures Consumed(CacheLines(safety, recurrent, kvBudget)) == recurrent + safety + kvBudget
    ensures SizeOf(CacheLines(safety, recurrent, kvBudget), line)
            == Only(RECURRENT_STATE, line, recurrent) + Only(FRAGMENTATION, line, safety) + Only(KV_CACHE, line, kvBudget)
  {
    var f, c := Entry(FRAGMENTATION, safety, false), Entry(KV_CACHE, kvBudget, false);
    LedgerConcat(Optional(RECURRENT_STATE, recurrent), [f, c], line);
    LedgerPair(f, c, line);
    OptionalBalances(RECURRENT_STATE, recurrent, line);
    LedgerOne(f, line);
    LedgerOne(c, line);
  }

  /** Switching the cache type re-derives only the token price; the byte budget stays put. */
  function WithKvDtype(plan: Plan, cache: CacheSpec, dtype: DType): Plan
    requires Valid(cache) && plan.parallelism.Valid()
  {
    plan.(kvBytesPerToken := PerToken(cache, dtype, plan.parallelism.tensor), kvDtype := dtype)
  }
}
