/**
 KV budgets as engine utilisation fractions (adapters/vllm.py `invert_memory_fraction`,
 estimator/memory.py `safe_utilization_ceiling` and `predict_kv_for_utilization`).
 */
module Utilization {
  import opened Results
  import opened Arithmetic
  import opened RealArithmetic
  import opened DTypes
  import opened CacheSpecs
  import opened Profiles
  import opened WorkingSets
  import opened MemoryPlan

  const MAX_GPU_MEMORY_UTILIZATION := 0.98

  /** `round(x, 4)`, which is also how the flag is printed. */
  function Round4(x: real): (r: real)
    ensures x - 0.00005 <= r <= x + 0.00005
  {
    Round(x * 10000.0) as real / 10000.0
  }

  function Needed(plan: Plan): nat {
    plan.kvBudget + plan.weights + plan.activationPeak + plan.fixedOverhead
  }

  datatype Inversion = Inversion(utilization: real, clamped: bool)

  /** The fraction of device memory the plan asks for. */
  function Raw(plan: Plan, total: int): real
    requires total > 0
  {
    Needed(plan) as real / total as real
  }

  /** The bytes an engine budgets at a utilisation fraction. */
  function EngineBudget(utilization: real, total: int): int { Round(Scaled(utilization, total)) }

  function Scaled(utilization: real, total: int): real { utilization * total as real }

  function Invert(plan: Plan, total: int, maxUtilization: real): Result<Inversion> {
    if total <= 0 then Err(ValueError)
    else
      var raw := Raw(plan, total);
      var ceiling := MinReal(MAX_GPU_MEMORY_UTILIZATION, maxUtilization);
      Ok(Inversion(MinReal(ceiling, MaxReal(0.05, Round4(raw))), raw > ceiling))
  }

  function SafeCeiling(total: int, nonTorch: int, safetyFraction: real): Result<real> {
    if total <= 0 then Err(ValueError)
    else if !(0 <= nonTorch < total) then Err(ValueError)
    else if !(0.0 <= safetyFraction < 1.0) then Err(ValueError)
    else Ok(MaxReal(0.05, (total - nonTorch) as real / total as real - safetyFraction))
  }

  function PredictKv(plan: Plan, over: Overheads, utilization: real, total: int): Result<nat> {
    if total <= 0 then Err(ValueError)
    else if !(0.0 < utilization <= 1.0) then Err(ValueError)
    else Ok(Max(0, EngineBudget(utilization, total) - plan.weights - over.TorchSide()))
  }

  /** When each answer is refused, and when an inverted fraction is reported as clamped. */
  lemma AnswersExactly(plan: Plan, over: Overheads, total: int, x: real, nonTorch: int)
    ensures Invert(plan, total, x).Ok? <==> total > 0
    ensures total > 0 ==> (Invert(plan, total, x).value.clamped <==>
                             (plan.kvBudget + plan.weights + plan.activationPeak + plan.fixedOverhead) as real
                             > (if x < 0.98 then x else 0.98) * total as real)
    ensures SafeCeiling(total, nonTorch, x).Ok? <==> total > 0 && 0 <= nonTorch < total && 0.0 <= x < 1.0
    ensures PredictKv(plan, over, x, total).Ok? <==> total > 0 && 0.0 < x <= 1.0
    ensures Invert(plan, total, x).Err? ==> Invert(plan, total, x).error == ValueError
    ensures SafeCeiling(total, nonTorch, x).Err? ==> SafeCeiling(total, nonTorch, x).error == ValueError
    ensures PredictKv(plan, over, x, total).Err? ==> PredictKv(plan, over, x, total).error == ValueError
  {
    if total > 0 { ClampedExactly(plan, total, x); }
    hide Round4, Raw, EngineBudget;
  }

  lemma ClampedExactly(plan: Plan, total: int, x: real)
    requires total > 0
    ensures Invert(plan, total, x).value.clamped <==>
              (plan.kvBudget + plan.weights + plan.activationPeak + plan.fixedOverhead) as real
              > (if x < 0.98 then x else 0.98) * total as real
  {
    hide Round4;
    DivLe(Needed(plan) as real, total as real, if x < 0.98 then x else 0.98);
  }

  /** The plan's fixed terms are the engine's own overheads plus the recurrent reservation. */
  ghost predicate PlansOverheads(plan: Plan, over: Overheads, recurrent: nat) {
    plan.activationPeak + plan.fixedOverhead == over.TorchSide() + recurrent
  }

  /** Whatever the model, a reconciling plan needs exactly the usable memory less its safety margin. */
  lemma RequiredUtilization(plan: Plan, gpu: Gpu, total: int)
    requires total > 0 && plan.TotalAllocated() == gpu.usable
    ensures Raw(plan, total) == (gpu.usable - plan.safety) as real / total as real
  {}

  /** The inverted fraction before the ceiling and the floor take effect. */
  ghost predicate Unclamped(plan: Plan, total: int, maxUtilization: real)
    requires total > 0
  {
    var gmu := Round4(Raw(plan, total));
    0.05 <= gmu <= MinReal(MAX_GPU_MEMORY_UTILIZATION, maxUtilization)
  }

  lemma FractionAbove(plan: Plan, total: int, gmu: real)
    requires total > 0 && gmu <= Raw(plan, total) + 0.00005
    ensures Scaled(gmu, total) <= Needed(plan) as real + 0.00005 * total as real
  {
    DivCancels(Needed(plan) as real, total as real);
    ScaleAbove(Raw(plan, total), 0.00005, gmu, total as real);
  }

  lemma FractionBelow(plan: Plan, total: int, gmu: real)
    requires total > 0 && Raw(plan, total) <= gmu + 0.00005
    ensures Needed(plan) as real <= Scaled(gmu, total) + 0.00005 * total as real
  {
    DivCancels(Needed(plan) as real, total as real);
    ScaleAbove(gmu, 0.00005, Raw(plan, total), total as real);
  }

  /** Printing four digits moves the engine's budget by at most total/20000 and half a byte. */
  lemma PrintedBudget(plan: Plan, total: int)
    requires total > 0
    ensures EngineBudget(Round4(Raw(plan, total)), total) as real <= Needed(plan) as real + Slack(total)
    ensures Needed(plan) as real <= EngineBudget(Round4(Raw(plan, total)), total) as real + Slack(total)
  {
    hide Round4, Raw, Scaled;
    FractionAbove(plan, total, Round4(Raw(plan, total)));
    FractionBelow(plan, total, Round4(Raw(plan, total)));
  }

  /** What four printed digits and one rounding can cost. */
  function Slack(total: int): real { 0.00005 * total as real + 0.5 }

  /** Predicting the cache at the inverted fraction gives the planned cache back, up to the printed digits. */
  lemma InversionRoundTrips(plan: Plan, over: Overheads, recurrent: nat, total: int, maxUtilization: real)
    requires total > 0 && Unclamped(plan, total, maxUtilization) && PlansOverheads(plan, over, recurrent)
    ensures var inv := Invert(plan, total, maxUtilization);
            && inv.Ok? && 0.0 < inv.value.utilization <= 1.0
            && var kv := PredictKv(plan, over, inv.value.utilization, total);
            && kv.Ok?
            && kv.value as real <= (plan.kvBudget + recurrent) as real + Slack(total)
            && (plan.kvBudget + recurrent) as real <= kv.value as real + Slack(total)
  {
    PrintedBudget(plan, total);
    hide Round4, Raw, EngineBudget;
    assert Invert(plan, total, maxUtilization).value.utilization == Round4(Raw(plan, total));
    assert Needed(plan) == plan.kvBudget + recurrent + plan.weights + over.TorchSide();
  }

  /**
   The flag is printed to four digits, so the device respects the ceiling exactly when the plan asks
   for less than it or the ceiling itself does not round up.
   */
  lemma PrintedFlagRespectsCeiling(plan: Plan, total: int, maxUtilization: real)
    requires total > 0
    ensures var ceiling := MinReal(MAX_GPU_MEMORY_UTILIZATION, maxUtilization);
            var gmu := Invert(plan, total, maxUtilization).value.utilization;
            && gmu <= ceiling
            && (Round4(gmu) <= ceiling
                <==> MaxReal(0.05, Round4(Raw(plan, total))) < ceiling || Round4(ceiling) <= ceiling)
  {
    var raw := Raw(plan, total);
    Round4Idempotent(raw);
    assert Round4(0.05) == 0.05;
    hide Raw, Round4;
  }

  lemma Round4Idempotent(x: real)
    ensures Round4(Round4(x)) == Round4(x)
  {
    var n := Round(x * 10000.0);
    assert Round4(x) * 10000.0 == n as real;
    RoundBelow(n as real, n);
  }

  /** A device with a driver reserve, and a reconciling plan whose flag is printed above the safe ceiling. */
  lemma PrintedFlagCanExceedCeiling() returns (plan: Plan, gpu: Gpu)
    ensures ValidGpu(gpu) && plan.TotalAllocated() == gpu.usable && plan.safety == Safety(gpu.usable)
    ensures var c := SafeCeiling(gpu.vram, gpu.vram - gpu.usable, FRAGMENTATION_FRACTION);
            && c.Ok?
            && var inv := Invert(plan, gpu.vram, c.value);
            && inv.Ok? && inv.value.clamped && inv.value.utilization == c.value
            && Round4(inv.value.utilization) > c.value
  {
    gpu := Gpu(100_000, 93_196, 1, 1.0, map[BF16 := 1.0], Link(0.0, 0.0));
    assert BF16 in gpu.denseFlops;
    plan := Plan(1, 0, 0, 2796, 90_399, 1, Parallelism(1, 1, 1), BF16, KV_WORKING_SET, 0, None);
    assert 93_196.0 * FRAGMENTATION_FRACTION == 2795.88;
    assert Round(2795.88) == 2796;
    assert Raw(plan, 100_000) == 0.904;
    assert Round4(0.904) == 0.904;
    assert Round4(0.90196) == 0.902;
  }

  // ---------------------------------------------------------------- safety under the ceiling

  /** The driver or vGPU reserve is everything PyTorch cannot allocate. */
  function Reserve(gpu: Gpu): int { gpu.vram - gpu.usable }

  /** The ceiling is the allocatable fraction less the margin, but never below the smallest flag. */
  lemma CeilingFraction(gpu: Gpu)
    requires ValidGpu(gpu)
    ensures SafeCeiling(gpu.vram, Reserve(gpu), FRAGMENTATION_FRACTION) == Ok(MaxReal(0.05, SafeFraction(gpu)))
    ensures SafeFraction(gpu) <= 0.97
  {
    DivLe(gpu.usable as real, gpu.vram as real, 1.0);
  }

  /** At or below the ceiling, weights, overheads and predicted cache stay within what PyTorch can allocate. */
  ghost predicate SafeUnderCeiling(plan: Plan, over: Overheads, gpu: Gpu)
    requires ValidGpu(gpu)
  {
    var c := SafeCeiling(gpu.vram, Reserve(gpu), FRAGMENTATION_FRACTION);
    c.Ok? && forall utilization: real :: 0.0 < utilization <= c.value ==>
      var kv := PredictKv(plan, over, utilization, gpu.vram);
      kv.Ok? && plan.weights + over.TorchSide() + kv.value <= gpu.usable
  }

  /**
   For any plan whose committed terms fit, every flag up to the safe ceiling is safe exactly when the
   smallest one is: five percent of the device rounds to no more than its usable memory.
   */
  lemma CeilingIsSafeExactly(plan: Plan, over: Overheads, gpu: Gpu)
    requires ValidGpu(gpu) && plan.weights + over.TorchSide() <= gpu.usable
    ensures SafeUnderCeiling(plan, over, gpu) <==> EngineBudget(0.05, gpu.vram) <= gpu.usable
  {
    CeilingFraction(gpu);
    hide EngineBudget, SafeFraction;
    var c := MaxReal(0.05, SafeFraction(gpu));
    if EngineBudget(0.05, gpu.vram) <= gpu.usable {
      forall utilization: real | 0.0 < utilization <= c ensures EngineBudget(utilization, gpu.vram) <= gpu.usable {
        if utilization <= 0.05 {
          BudgetMonotone(utilization, 0.05, gpu.vram);
        } else {
          BudgetUnderCeiling(gpu, utilization);
        }
      }
    } else {
      var kv := PredictKv(plan, over, 0.05, gpu.vram);
      assert kv.Ok? && plan.weights + over.TorchSide() + kv.value > gpu.usable;
    }
  }

  /** A device that can allocate a twentieth of its memory is safe. */
  lemma CeilingIsSafe(plan: Plan, over: Overheads, gpu: Gpu)
    requires ValidGpu(gpu) && plan.weights + over.TorchSide() <= gpu.usable && 20 * gpu.usable >= gpu.vram
    ensures SafeUnderCeiling(plan, over, gpu)
  {
    CeilingIsSafeExactly(plan, over, gpu);
    assert Scaled(0.05, gpu.vram) <= gpu.usable as real;
    RoundBelow(Scaled(0.05, gpu.vram), gpu.usable);
  }

  function SafeFraction(gpu: Gpu): real
    requires gpu.vram > 0
  {
    gpu.usable as real / gpu.vram as real - FRAGMENTATION_FRACTION
  }

  lemma SafeFractionScaled(gpu: Gpu)
    requires ValidGpu(gpu)
    ensures Scaled(SafeFraction(gpu), gpu.vram) == gpu.usable as real - FRAGMENTATION_FRACTION * gpu.vram as real
  {
    var q, t := gpu.usable as real / gpu.vram as real, gpu.vram as real;
    DivCancels(gpu.usable as real, t);
    Expand(q, -FRAGMENTATION_FRACTION, t);
  }

  lemma BudgetUnderCeiling(gpu: Gpu, utilization: real)
    requires ValidGpu(gpu) && utilization <= SafeFraction(gpu)
    ensures EngineBudget(utilization, gpu.vram) <= gpu.usable
  {
    SafeFractionScaled(gpu);
    BudgetMonotone(utilization, SafeFraction(gpu), gpu.vram);
    hide SafeFraction, Scaled;
    RoundBelow(Scaled(SafeFraction(gpu), gpu.vram), gpu.usable);
  }

  lemma BudgetAtCeiling(gpu: Gpu)
    requires ValidGpu(gpu)
    ensures EngineBudget(SafeFraction(gpu), gpu.vram) as real
            >= gpu.usable as real - FRAGMENTATION_FRACTION * gpu.vram as real - 0.5
  {
    SafeFractionScaled(gpu);
    hide SafeFraction, Scaled;
  }

  lemma BudgetMonotone(utilization: real, utilization': real, total: int)
    requires total > 0 && utilization <= utilization'
    ensures EngineBudget(utilization, total) <= EngineBudget(utilization', total)
  {
    assert Scaled(utilization, total) <= Scaled(utilization', total) by {
      MulLe(utilization, utilization', total as real);
    }
    hide Scaled;
    RoundMonotone(Scaled(utilization, total), Scaled(utilization', total));
  }

  /**
   Compiled under the safe ceiling, a plan receives at least its cache less three percent of the
   driver reserve, and rounding; the margin is charged on usable memory by the plan but on total
   memory by the ceiling.
   */
  lemma CeilingShortfall(plan: Plan, over: Overheads, recurrent: nat, gpu: Gpu)
    requires ValidGpu(gpu)
    requires plan.TotalAllocated() == gpu.usable && plan.safety == Safety(gpu.usable)
    requires PlansOverheads(plan, over, recurrent)
    ensures var c := SafeCeiling(gpu.vram, Reserve(gpu), FRAGMENTATION_FRACTION);
            && c.Ok?
            && var inv := Invert(plan, gpu.vram, c.value);
            && inv.Ok?
            && var kv := PredictKv(plan, over, inv.value.utilization, gpu.vram);
            && kv.Ok?
            && kv.value as real >= (plan.kvBudget + recurrent) as real
               - FRAGMENTATION_FRACTION * Reserve(gpu) as real - Slack(gpu.vram) - 0.5
  {
    CeilingFraction(gpu);
    var printed := Round4(Raw(plan, gpu.vram));
    PrintedBudget(plan, gpu.vram);
    BudgetAtCeiling(gpu);
    var fraction := SafeFraction(gpu);
    hide Round4, Raw, EngineBudget, SafeFraction;
    var gmu := Invert(plan, gpu.vram, MaxReal(0.05, fraction)).value.utilization;
    if printed <= gmu { BudgetMonotone(printed, gmu, gpu.vram); } else { BudgetMonotone(fraction, gmu, gpu.vram); }
    assert Needed(plan) == plan.kvBudget + recurrent + plan.weights + over.TorchSide();
  }

  /** Every plan the estimator returns meets the assumptions above, with its own overheads. */
  lemma PlansQualify(model: Model, gpu: Gpu, draw: Stream, req: Request)
    requires ValidModel(model) && ValidGpu(gpu) && req.parallelism.Valid()
    requires EstimatePlan(model, gpu, draw, req).Ok?
    ensures var plan := EstimatePlan(model, gpu, draw, req).value;
            && OverheadsOf(model, req).Ok? && RecurrentState(model, req) >= 0
            && plan.TotalAllocated() == gpu.usable && plan.safety == Safety(gpu.usable)
            && PlansOverheads(plan, OverheadsOf(model, req).value, RecurrentState(model, req))
            && plan.weights + OverheadsOf(model, req).value.TorchSide() <= gpu.usable
  {
    hide Classify, PlanHeadroom, Safety, WeightBytesPerGpu, PerToken, GraphBytes, PrefillBytes, LogitsBytes;
    RecurrentStateNonNegative(model, req);
  }
}
