/**
 The plan's headroom, token capacity, ledger and binding constraint come from separate code paths;
 these lemmas say when they tell one story (estimator/memory.py, core/plan.py).
 */
module PlanVerdicts {
  import opened Results
  import opened Arithmetic
  import opened RealArithmetic
  import opened DTypes
  import opened CacheSpecs
  import opened Profiles
  import opened OrderStatistics
  import opened WorkingSets
  import opened CacheCapacity
  import opened MemoryPlan
  import H = Headroom

  ghost predicate WellFormed(model: Model, gpu: Gpu, req: Request) {
    ValidModel(model) && ValidGpu(gpu) && req.parallelism.Valid()
  }

  /** Everything `estimate_plan` checks before it samples the workload. */
  ghost predicate Feasible(model: Model, gpu: Gpu, req: Request)
    requires WellFormed(model, gpu, req)
  {
    && !KvDtype(model, req).IsSubByte()
    && req.maxModelLen >= 1 && req.maxNumSeqs >= 1 && TokenBudget(req) >= 1 && req.samples >= 1
    && req.parallelism.GpusRequired() <= gpu.count
    && KvBudget(model, gpu, req, OverheadsOf(model, req).value) > 0
  }

  lemma RefusedExactlyInfeasible(model: Model, gpu: Gpu, req: Request)
    requires WellFormed(model, gpu, req)
    ensures Refusal(model, gpu, req).None? <==> Feasible(model, gpu, req)
  {}

  /** Feasible requests exist: a one-layer model on an empty device of 16 GiB. */
  lemma SomeRequestIsFeasible() returns (model: Model, gpu: Gpu, req: Request)
    ensures WellFormed(model, gpu, req) && Feasible(model, gpu, req)
  {
    model := Model(Attention(MHA, 1, 64, 1, None), 1000, 64, 100, None, 128, 1, 500, 500, BF16);
    gpu := Gpu(16384 * MIB, 16384 * MIB, 1, 1.0, map[BF16 := 1.0], Link(0.0, 0.0));
    req := Request(1, 1, None, Parallelism(1, 1, 1), None, BF16, true, 1);
    assert BF16 in gpu.denseFlops;
    SmallOverheads(model, req);
    assert FixedBytes(model.cache, BF16, 1) == 0;
  }

  lemma SmallOverheads(model: Model, req: Request)
    requires model.hidden == 64 && model.vocab == 100 && model.intermediate.None?
    requires req == Request(1, 1, None, Parallelism(1, 1, 1), None, BF16, true, 1)
    ensures OverheadsOf(model, req).Ok? && OverheadsOf(model, req).value.TorchSide() <= 1024 * MIB
  {
    assert HiddenPerGpu(model, 1) == 64 && EffectiveIntermediate(model) == 256;
  }

  /** The predicate whose largest solution the plan reports as headroom. */
  function PlanFits(model: Model, draw: Stream, req: Request, kvBudget: int): nat -> bool
    requires ValidModel(model) && req.parallelism.Valid() && req.samples >= 1
  {
    FitsFor(draw, Min(req.samples, 4000), 0.95, FixedBytes(model.cache, KvDtype(model, req), req.parallelism.tensor),
            PerToken(model.cache, KvDtype(model, req), req.parallelism.tensor),
            kvBudget + RecurrentState(model, req))
  }

  /** The published figures of a plan, each tied to the path that computes it. */
  ghost predicate Publishes(model: Model, gpu: Gpu, draw: Stream, req: Request, plan: Plan)
    requires WellFormed(model, gpu, req) && Feasible(model, gpu, req)
  {
    && 0 < plan.kvBudget <= gpu.usable
    && RecurrentState(model, req) >= 0
    && plan.kvBytesPerToken == PerToken(model.cache, KvDtype(model, req), req.parallelism.tensor)
    && plan.weights < gpu.usable
    && plan.critical == CriticalBatchSize(gpu, model.weightDtype)
    && plan.headroom == H.Search(PlanFits(model, draw, req, plan.kvBudget), DEFAULT_CEILING)
    && plan.binding == Classify(model, draw, plan.KvBudgetTokens(), plan.headroom, plan.critical, req.maxNumSeqs,
                                req.maxModelLen, plan.weights, gpu.usable, req.samples)
  }

  /** The terms of a feasible request add up, so its plan passes the reconcile check. */
  lemma TermsReconcile(model: Model, gpu: Gpu, req: Request, headroom: nat, binding: Binding)
    requires WellFormed(model, gpu, req) && Feasible(model, gpu, req)
    ensures var over := OverheadsOf(model, req).value;
            var kvBudget := KvBudget(model, gpu, req, over);
            && RecurrentState(model, req) >= 0 && 0 < kvBudget <= gpu.usable
            && WeightBytesPerGpu(model, req.parallelism.tensor) < gpu.usable
            && Assemble(model, gpu, req, over, kvBudget, headroom, binding).TotalAllocated() == gpu.usable
  {
    RecurrentStateNonNegative(model, req);
    hide RecurrentState, OverheadsOf, PerToken, WeightBytesPerGpu, CriticalBatchSize, Safety;
  }

  lemma HeadroomOfPlan(model: Model, draw: Stream, req: Request, kvBudget: int)
    requires ValidModel(model) && req.parallelism.Valid() && req.samples >= 1
    requires kvBudget > 0 && RecurrentState(model, req) >= 0
    ensures PlanHeadroom(model, draw, req, kvBudget) == Ok(H.Search(PlanFits(model, draw, req, kvBudget), DEFAULT_CEILING))
  {
    hide RecurrentState, FixedBytes, PerToken, H.Search;
  }

  /** A plan exists exactly for feasible requests; the workload never matters and reconciling never fails. */
  lemma PlanExistsExactly(model: Model, gpu: Gpu, draw: Stream, req: Request)
    requires WellFormed(model, gpu, req)
    ensures var result := EstimatePlan(model, gpu, draw, req);
            && (result.Ok? <==> Feasible(model, gpu, req))
            && result != Err(ReconcileFailure)
            && (result.Ok? ==> Publishes(model, gpu, draw, req, result.value)
                               && result.value.TotalAllocated() == gpu.usable)
  {
    RefusedExactlyInfeasible(model, gpu, req);
    if Feasible(model, gpu, req) { FeasiblePublishes(model, gpu, draw, req); }
  }

  lemma FeasiblePublishes(model: Model, gpu: Gpu, draw: Stream, req: Request)
    requires WellFormed(model, gpu, req) && Feasible(model, gpu, req)
    ensures var over := OverheadsOf(model, req).value;
            var result := FinishPlan(model, gpu, draw, req, over, KvBudget(model, gpu, req, over));
            result.Ok? && Publishes(model, gpu, draw, req, result.value) && result.value.TotalAllocated() == gpu.usable
  {
    var over := OverheadsOf(model, req).value;
    hide RecurrentState, PlanHeadroom, PlanFits, OverheadsOf, PerToken, WeightBytesPerGpu, CriticalBatchSize, Safety,
      Classify, KvBudget, H.Search;
    var kvBudget := KvBudget(model, gpu, req, over);
    TermsReconcile(model, gpu, req, 0, USER_LIMIT);
    HeadroomOfPlan(model, draw, req, kvBudget);
    var headroom := PlanHeadroom(model, draw, req, kvBudget).value;
    TermsReconcile(model, gpu, req, headroom, BindingOf(model, gpu, draw, req, kvBudget, headroom));
  }

  /** Every feasible request has a plan, whatever the workload. */
  lemma SomePlan(model: Model, gpu: Gpu, draw: Stream, req: Request) returns (plan: Plan)
    requires WellFormed(model, gpu, req) && Feasible(model, gpu, req)
    ensures Publishes(model, gpu, draw, req, plan)
  {
    PlanExistsExactly(model, gpu, draw, req);
    plan := EstimatePlan(model, gpu, draw, req).value;
  }

  /** The ledger printed beside a plan accounts for usable VRAM to the byte. */
  lemma LedgerReconciles(model: Model, gpu: Gpu, req: Request)
    requires WellFormed(model, gpu, req) && Feasible(model, gpu, req)
    ensures var over := OverheadsOf(model, req).value;
            var weights := WeightBytesPerGpu(model, req.parallelism.tensor);
            && RecurrentState(model, req) >= 0
            && Consumed(LedgerOf(gpu, weights, over, Safety(gpu.usable), RecurrentState(model, req),
                                 KvBudget(model, gpu, req, over))) == gpu.usable
  {
    RecurrentStateNonNegative(model, req);
    var over := OverheadsOf(model, req).value;
    LedgerBalances(gpu, WeightBytesPerGpu(model, req.parallelism.tensor), over, Safety(gpu.usable),
                   RecurrentState(model, req), KvBudget(model, gpu, req, over), KV_CACHE);
  }

  /**
   The reservation already taken for `max_num_seqs` recurrent states cancels, and flooring the token
   capacity loses nothing: the requested concurrency fits exactly when its tokens fit the token budget.
   */
  lemma RequestFitsExactly(model: Model, gpu: Gpu, draw: Stream, req: Request, plan: Plan)
    requires WellFormed(model, gpu, req) && Feasible(model, gpu, req) && Publishes(model, gpu, draw, req, plan)
    ensures PlanFits(model, draw, req, plan.kvBudget)(req.maxNumSeqs)
            <==> TokensAt(draw, req.maxNumSeqs, Min(req.samples, 4000), 0.95) <= plan.KvBudgetTokens()
  {
    ReservationCancels(draw, Min(req.samples, 4000), req.maxNumSeqs, plan.kvBytesPerToken, plan.kvBudget,
                       FixedBytes(model.cache, KvDtype(model, req), req.parallelism.tensor));
  }

  lemma ReservationCancels(draw: Stream, samples: nat, n: nat, perToken: nat, kvBudget: int, perSequence: nat)
    requires samples >= 1 && perToken >= 1
    ensures Fits(draw, samples, 0.95, perSequence, perToken, kvBudget + perSequence * n, n)
            <==> TokensAt(draw, n, samples, 0.95) <= kvBudget / perToken
  {
    FloorDivGalois(TokensAt(draw, n, samples, 0.95), kvBudget, perToken);
    assert n * perSequence == perSequence * n;
  }

  /** Headroom reaches the request exactly when the request's working set fits the token budget. */
  ghost predicate VerdictsAgree(draw: Stream, req: Request, plan: Plan)
    requires req.samples >= 1 && req.maxNumSeqs >= 1 && plan.kvBytesPerToken >= 1
  {
    plan.headroom >= req.maxNumSeqs
    <==> TokensAt(draw, req.maxNumSeqs, req.samples, 0.95) <= plan.KvBudgetTokens()
  }

  /** The workload makes the plan's own feasibility predicate downward closed. */
  ghost predicate MonotoneWorkload(model: Model, draw: Stream, req: Request, plan: Plan)
    requires ValidModel(model) && req.parallelism.Valid() && req.samples >= 1
  {
    NonNegative(draw) && H.DownClosed(PlanFits(model, draw, req, plan.kvBudget), DEFAULT_CEILING)
  }

  lemma VerdictsAgreeWithinLimits(model: Model, gpu: Gpu, draw: Stream, req: Request, plan: Plan)
    requires WellFormed(model, gpu, req) && Feasible(model, gpu, req) && Publishes(model, gpu, draw, req, plan)
    requires MonotoneWorkload(model, draw, req, plan)
    requires req.samples <= 4000 && req.maxNumSeqs <= DEFAULT_CEILING
    ensures VerdictsAgree(draw, req, plan)
  {
    RequestFitsExactly(model, gpu, draw, req, plan);
    SearchReachesExactly(PlanFits(model, draw, req, plan.kvBudget), req.maxNumSeqs);
  }

  /** For a downward-closed predicate the default search reaches `n` exactly when `n` fits. */
  lemma SearchReachesExactly(fits: nat -> bool, n: nat)
    requires H.DownClosed(fits, DEFAULT_CEILING) && 1 <= n <= DEFAULT_CEILING
    ensures H.Search(fits, DEFAULT_CEILING) >= n <==> fits(n)
  {
    DefaultCeilingIsPowerOfTwo();
    H.SearchIsLargestExactly(fits, DEFAULT_CEILING);
    H.SearchIsLocallyMaximal(fits, DEFAULT_CEILING);
  }

  // ---------------------------------------------------------------- where they disagree

  /** An empty workload fits at any concurrency, yet headroom stops at the search ceiling. */
  lemma DisagreesPastCeiling(model: Model, gpu: Gpu, req: Request, plan: Plan)
    requires WellFormed(model, gpu, req) && Feasible(model, gpu, req) && req.maxNumSeqs > DEFAULT_CEILING
    requires Publishes(model, gpu, ZeroStream(), req, plan)
    ensures MonotoneWorkload(model, ZeroStream(), req, plan) && !VerdictsAgree(ZeroStream(), req, plan)
  {
    hide TokensAt, Classify, KvBudget, OverheadsOf, PerToken, CriticalBatchSize, H.Search;
    var draw := ZeroStream();
    var fits := PlanFits(model, draw, req, plan.kvBudget);
    forall a: nat, b: nat | 1 <= a <= b <= DEFAULT_CEILING && fits(b) ensures fits(a) {
      ZeroTokens(a, Min(req.samples, 4000), 0.95);
      ZeroTokens(b, Min(req.samples, 4000), 0.95);
      var perSequence := FixedBytes(model.cache, KvDtype(model, req), req.parallelism.tensor);
      MulMonotone(a, b, perSequence, perSequence);
    }
    ZeroTokens(req.maxNumSeqs, req.samples, 0.95);
    H.SearchIsLocallyMaximal(fits, DEFAULT_CEILING);
  }

  /** Nothing for the first 3800 windows of `n` requests, then `size` tokens each. */
  function LateStream(n: nat, size: nat): Stream {
    k => if k < 3800 * n then 0.0 else size as real
  }

  lemma EarlyWindowsEmpty(n: nat, size: nat, c: nat)
    requires 1 <= c <= n
    ensures TokensAt(LateStream(n, size), c, 4000, 0.95) == 0
  {
    var draw := LateStream(n, size);
    var t := Totals(draw, c, 4000);
    forall i | 0 <= i < 3800 ensures t[i] == 0.0 {
      Distribute(i, 1, c);
      MulMonotone(i + 1, 3800, c, n);
      ZeroWindow(draw, i * c, c);
    }
    assert Rank(4000, 0.95) == 3800;
    CountLtAround(t, 3800, 4000, 1.0);
    TokensAtMost(draw, c, 4000, 0.95, 0);
    TokensNonNegative(draw, c, 4000, 0.95);
  }

  /** A window that reaches past the quiet stretch carries at least one full request. */
  lemma LateWindowIsLarge(n: nat, size: nat, start: nat, c: nat)
    requires c >= 1 && start + c > 3800 * n
    ensures Window(LateStream(n, size), start, c) >= size as real
  {
    var draw := LateStream(n, size);
    assert draw(start + c - 1) == size as real;
    WindowExtends(draw, start, 0, c - 1);
  }

  /** If every window from `quiet` on is large, fewer than rank-many samples are small. */
  lemma LateTailDominates(n: nat, size: nat, c: nat, samples: nat, quiet: nat)
    requires c >= 1 && samples >= 1 && size >= 1 && quiet < Rank(samples, 0.95) && (quiet + 1) * c > 3800 * n
    ensures TokensAt(LateStream(n, size), c, samples, 0.95) >= size
  {
    var draw := LateStream(n, size);
    var t := Totals(draw, c, samples);
    forall i | quiet <= i < samples ensures t[i] >= size as real {
      Distribute(i, 1, c);
      MulMonotone(quiet + 1, i + 1, c, c);
      LateWindowIsLarge(n, size, i * c, c);
    }
    FewBelow(t, quiet, size as real);
    TokensAtMost(draw, c, samples, 0.95, size - 1);
  }

  lemma FewBelow(t: seq<real>, quiet: nat, bound: real)
    requires quiet <= |t| && forall i :: quiet <= i < |t| ==> t[i] >= bound
    ensures CountLt(t, bound) <= quiet
  {
    CountLtAround(t, quiet, |t|, bound);
  }

  lemma RankPast3800(samples: nat)
    requires samples > 4000
    ensures Rank(samples, 0.95) > 3800
  {}

  /** Past 4000 samples the verdicts are taken from different samples, and a late burst separates them. */
  lemma DisagreesPast4000Samples(model: Model, gpu: Gpu, req: Request, size: nat, plan: Plan)
    requires WellFormed(model, gpu, req) && Feasible(model, gpu, req)
    requires req.samples > 4000 && req.maxNumSeqs <= DEFAULT_CEILING
    requires size == gpu.usable + RecurrentState(model, req) + 1
    requires Publishes(model, gpu, LateStream(req.maxNumSeqs, size), req, plan)
    ensures MonotoneWorkload(model, LateStream(req.maxNumSeqs, size), req, plan)
    ensures !VerdictsAgree(LateStream(req.maxNumSeqs, size), req, plan)
  {
    hide PlanFits, TokensAt, Classify, KvBudget, OverheadsOf, PerToken, RecurrentState, CriticalBatchSize, H.Search;
    var n: nat := req.maxNumSeqs;
    LateFits(model, gpu, req, plan.kvBudget, size);
    SearchReachesExactly(PlanFits(model, LateStream(n, size), req, plan.kvBudget), n);
    LateBurstOverflows(n, size, req.samples, plan.kvBudget, plan.kvBytesPerToken);
  }

  lemma LateBurstOverflows(n: nat, size: nat, samples: nat, kvBudget: nat, perToken: nat)
    requires n >= 1 && samples > 4000 && kvBudget < size && perToken >= 1
    ensures TokensAt(LateStream(n, size), n, samples, 0.95) > kvBudget / perToken
  {
    RankPast3800(samples);
    Distribute(3800, 1, n);
    LateTailDominates(n, size, n, samples, 3800);
    FloorDivAntitone(kvBudget, 1, perToken);
  }

  /** Under the late burst exactly the concurrencies up to the request fit. */
  lemma LateFits(model: Model, gpu: Gpu, req: Request, kvBudget: nat, size: nat)
    requires WellFormed(model, gpu, req) && Feasible(model, gpu, req)
    requires req.samples > 4000 && size == gpu.usable + RecurrentState(model, req) + 1
    requires kvBudget <= gpu.usable
    ensures forall c: nat :: c >= 1 ==>
              (PlanFits(model, LateStream(req.maxNumSeqs, size), req, kvBudget)(c) <==> c <= req.maxNumSeqs)
  {
    RecurrentStateNonNegative(model, req);
    var n: nat := req.maxNumSeqs;
    var f := FixedBytes(model.cache, KvDtype(model, req), req.parallelism.tensor);
    var p := PerToken(model.cache, KvDtype(model, req), req.parallelism.tensor);
    forall c: nat | c >= 1 ensures PlanFits(model, LateStream(n, size), req, kvBudget)(c) <==> c <= n {
      LateFitsAt(n, size, c, f, p, kvBudget + f * n);
    }
  }

  lemma LateFitsAt(n: nat, size: nat, c: nat, perSequence: nat, perToken: nat, budget: nat)
    requires c >= 1 && perToken >= 1 && perSequence * n <= budget < size
    ensures Fits(LateStream(n, size), 4000, 0.95, perSequence, perToken, budget, c) <==> c <= n
  {
    if c <= n {
      EarlyWindowsEmpty(n, size, c);
      MulMonotone(c, n, perSequence, perSequence);
    } else {
      LateRequestOverflows(n, size, c);
      ScaleTokens(size, TokensAt(LateStream(n, size), c, 4000, 0.95), perToken);
      MulMonotone(size, size, 1, perToken);
    }
  }

  lemma LateRequestOverflows(n: nat, size: nat, c: nat)
    requires c > n && size >= 1
    ensures TokensAt(LateStream(n, size), c, 4000, 0.95) >= size
  {
    assert Rank(4000, 0.95) == 3800;
    LateTailDominates(n, size, c, 4000, 3799);
  }

  /**
   For a feasible configuration the two verdicts agree on every monotone workload exactly when both
   sample the same 4000 totals and the request is within the search ceiling. The default of 8000
   samples is outside.
   */
  lemma VerdictsAgreeExactly(model: Model, gpu: Gpu, req: Request)
    requires WellFormed(model, gpu, req) && Feasible(model, gpu, req)
    ensures (forall draw: Stream, plan: Plan ::
               Publishes(model, gpu, draw, req, plan) && MonotoneWorkload(model, draw, req, plan)
               ==> VerdictsAgree(draw, req, plan))
            <==> req.samples <= 4000 && req.maxNumSeqs <= DEFAULT_CEILING
  {
    if req.samples <= 4000 && req.maxNumSeqs <= DEFAULT_CEILING {
      forall draw: Stream, plan: Plan
        | Publishes(model, gpu, draw, req, plan) && MonotoneWorkload(model, draw, req, plan)
        ensures VerdictsAgree(draw, req, plan)
      {
        VerdictsAgreeWithinLimits(model, gpu, draw, req, plan);
      }
    } else if req.maxNumSeqs > DEFAULT_CEILING {
      var plan := SomePlan(model, gpu, ZeroStream(), req);
      DisagreesPastCeiling(model, gpu, req, plan);
    } else {
      RecurrentStateNonNegative(model, req);
      var size := gpu.usable + RecurrentState(model, req) + 1;
      var plan := SomePlan(model, gpu, LateStream(req.maxNumSeqs, size), req);
      DisagreesPast4000Samples(model, gpu, req, size, plan);
    }
  }

  // ---------------------------------------------------------------- the binding constraint

  lemma ClassifyMeans(model: Model, draw: Stream, kvTokens: nat, wall: nat, critical: Option<real>, seqs: nat,
                      modelLen: int, weights: nat, usable: nat, samples: nat)
    requires samples >= 1 && weights < usable
    ensures var binding := Classify(model, draw, kvTokens, wall, critical, seqs, modelLen, weights, usable, samples);
            && !binding.WEIGHTS_DO_NOT_FIT? && !binding.SLA_TTFT? && !binding.SLA_TPOT?
            && (binding.USER_LIMIT? <==> !ScalesWithContext(model.cache))
            && (binding.COMPUTE_BOUND? || binding.MAX_MODEL_LEN? ==> wall > seqs)
            && (binding.COMPUTE_BOUND? ==> critical.Some? && wall as real >= critical.value)
            && (binding.MAX_MODEL_LEN? ==> !AtLeastCritical(seqs, critical))
  {
    if AtLeastCritical(seqs, critical) && wall > seqs {
      assert wall as real > seqs as real;
    }
  }

  /** The one constraint no published plan carries: weights that leave nothing of usable memory. */
  lemma WeightsBindExactly(model: Model, draw: Stream, kvTokens: nat, wall: nat, critical: Option<real>, seqs: nat,
                           modelLen: int, weights: nat, usable: nat, samples: nat)
    requires samples >= 1
    ensures Classify(model, draw, kvTokens, wall, critical, seqs, modelLen, weights, usable, samples) == WEIGHTS_DO_NOT_FIT
            <==> weights >= usable
  {}

  /** What a named constraint guarantees about the plan's own figures, whatever the workload. */
  lemma BindingMeansWhatItSays(model: Model, gpu: Gpu, draw: Stream, req: Request, plan: Plan)
    requires WellFormed(model, gpu, req) && Feasible(model, gpu, req) && Publishes(model, gpu, draw, req, plan)
    ensures !plan.binding.WEIGHTS_DO_NOT_FIT? && !plan.binding.SLA_TTFT? && !plan.binding.SLA_TPOT?
    ensures plan.binding.USER_LIMIT? <==> !ScalesWithContext(model.cache)
    ensures plan.binding.COMPUTE_BOUND? || plan.binding.MAX_MODEL_LEN? ==> plan.headroom > req.maxNumSeqs
    ensures plan.binding.COMPUTE_BOUND? ==> plan.CacheLimited() == Some(false)
    ensures plan.binding.MAX_MODEL_LEN? ==> !AtLeastCritical(req.maxNumSeqs, plan.critical)
  {
    ClassifyMeans(model, draw, plan.KvBudgetTokens(), plan.headroom, plan.critical, req.maxNumSeqs, req.maxModelLen,
                  plan.weights, gpu.usable, req.samples);
  }

  /** The cache could hold every requested sequence at full length, and the model was trained for more. */
  ghost predicate LengthIsFree(model: Model, req: Request, plan: Plan) {
    req.maxModelLen < model.maxPosition && req.maxNumSeqs * req.maxModelLen * plan.kvBytesPerToken <= plan.kvBudget
  }

  /** The request's own p95 tokens fit the bytes of the budget, and concurrency can rise further. */
  ghost predicate CacheHasRoom(draw: Stream, req: Request, plan: Plan)
    requires req.samples >= 1 && req.maxNumSeqs >= 1
  {
    TokensAt(draw, req.maxNumSeqs, req.samples, 0.95) * plan.kvBytesPerToken <= plan.kvBudget
    && plan.headroom > req.maxNumSeqs
  }

  /** A concurrency past which decoding is bound by compute, if the device lists the weight type. */
  ghost predicate PastCompute(model: Model, gpu: Gpu, n: int) {
    model.weightDtype in gpu.denseFlops
    && n as real * (gpu.bandwidth * 0.8) >= gpu.denseFlops[model.weightDtype] * 0.5
  }

  lemma PastComputeIsCritical(model: Model, gpu: Gpu, n: int)
    requires ValidGpu(gpu)
    ensures AtLeastCritical(n, CriticalBatchSize(gpu, model.weightDtype)) <==> PastCompute(model, gpu, n)
  {
    if model.weightDtype in gpu.denseFlops {
      DivLe(gpu.denseFlops[model.weightDtype] * 0.5, gpu.bandwidth * 0.8, n as real);
    }
  }

  /**
   Every constraint exactly, on every feasible published plan and every workload, in bytes and rates and
   without the functions that compute it.
   */
  lemma BindingExactly(model: Model, gpu: Gpu, draw: Stream, req: Request, plan: Plan)
    requires WellFormed(model, gpu, req) && Feasible(model, gpu, req) && Publishes(model, gpu, draw, req, plan)
    ensures plan.binding == USER_LIMIT <==> !ScalesWithContext(model.cache)
    ensures plan.binding == MAX_MODEL_LEN <==>
              && ScalesWithContext(model.cache) && CacheHasRoom(draw, req, plan)
              && !PastCompute(model, gpu, req.maxNumSeqs) && LengthIsFree(model, req, plan)
    ensures plan.binding == COMPUTE_BOUND <==>
              && ScalesWithContext(model.cache) && CacheHasRoom(draw, req, plan)
              && (PastCompute(model, gpu, req.maxNumSeqs)
                  || (!LengthIsFree(model, req, plan) && PastCompute(model, gpu, plan.headroom)))
    ensures plan.binding == KV_WORKING_SET <==>
              && ScalesWithContext(model.cache)
              && (!CacheHasRoom(draw, req, plan)
                  || (!PastCompute(model, gpu, plan.headroom) && !LengthIsFree(model, req, plan)))
  {
    hide TokensAt, CriticalBatchSize, AtLeastCritical, PastCompute, KvBudget, OverheadsOf, PerToken, PlanFits, H.Search,
      ScalesWithContext, RecurrentState;
    FloorDivGalois(TokensAt(draw, req.maxNumSeqs, req.samples, 0.95), plan.kvBudget, plan.kvBytesPerToken);
    FloorDivGalois(req.maxNumSeqs * req.maxModelLen, plan.kvBudget, plan.kvBytesPerToken);
    PastComputeIsCritical(model, gpu, req.maxNumSeqs);
    PastComputeIsCritical(model, gpu, plan.headroom);
    if PastCompute(model, gpu, req.maxNumSeqs) && plan.headroom > req.maxNumSeqs {
      PastComputeGrows(model, gpu, req.maxNumSeqs, plan.headroom);
    }
  }

  lemma PastComputeGrows(model: Model, gpu: Gpu, n: int, m: int)
    requires ValidGpu(gpu) && n <= m && PastCompute(model, gpu, n)
    ensures PastCompute(model, gpu, m)
  {
    MulLe(n as real, m as real, gpu.bandwidth * 0.8);
  }
}
