/** Recovering efficiency coefficients from measurements (estimator/calibration.py). */
module Calibration {
  import opened Results
  import opened Arithmetic
  import opened RealArithmetic
  import opened OrderStatistics
  import opened DTypes
  import opened CacheSpecs
  import opened Profiles
  import opened Roofline

  const MIN_PLAUSIBLE := 0.02
  const MAX_PLAUSIBLE := 1.0

  predicate Plausible(value: real) { MIN_PLAUSIBLE <= value <= MAX_PLAUSIBLE }

  /** Work over peak rate and the time left for it; none when overheads leave no time. */
  function Efficiency(work: real, peak: real, available: real): Option<real>
    requires peak > 0.0
  {
    if available <= 0.0 then None else Some(Rate(work, peak, available))
  }

  function Rate(work: real, peak: real, seconds: real): real
    requires peak > 0.0 && seconds > 0.0
  {
    MulPositive(peak, seconds);
    work / (peak * seconds)
  }

  /** Bandwidth utilisation implied by one inter-token latency. */
  function FitMbu(model: Model, gpu: Gpu, tpot: real, concurrency: nat, context: nat, kvPerToken: nat, tp: nat,
                  fixedOverhead: real): Option<real>
    requires ValidGpu(gpu) && tp >= 1
  {
    if tpot <= 0.0 then None
    else
      Efficiency(DecodeBytes(model, concurrency, context, kvPerToken, tp) as real, gpu.bandwidth,
                 tpot - fixedOverhead - CommunicationTime(gpu, model, concurrency, tp, BF16))
  }

  /** Compute utilisation implied by one time-to-first-token. */
  function FitMfu(model: Model, gpu: Gpu, ttft: real, tokens: int, tp: nat, fixedOverhead: real, dtype: DType): Option<real>
    requires ValidGpu(gpu) && tp >= 1
  {
    if ttft <= 0.0 || tokens < 1 then None
    else
      Efficiency(PrefillFlops(model, tokens, tp), PeakFlops(gpu, dtype),
                 ttft - fixedOverhead - CommunicationTime(gpu, model, tokens, tp, dtype))
  }

  // ---------------------------------------------------------------- the fit inverts the model

  /** The true efficiency times the share of the step its work took, and the truth exactly when it dominated. */
  ghost predicate Recovers(fit: Option<real>, efficiency: real, t: real, other: real) {
    var longest := MaxReal(t, other);
    && longest > 0.0
    && fit == Some(Share(efficiency, t, longest))
    && fit.value <= efficiency
    && (fit.value == efficiency <==> t >= other)
  }

  function Share(efficiency: real, t: real, longest: real): real
    requires longest > 0.0
  {
    efficiency * t / longest
  }

  lemma EfficiencyRecovers(work: real, peak: real, efficiency: real, t: real, other: real, available: real)
    requires peak > 0.0 && efficiency > 0.0 && work > 0.0 && peak * efficiency > 0.0
    requires t == work / (peak * efficiency) && available == MaxReal(t, other)
    ensures Recovers(Efficiency(work, peak, available), efficiency, t, other)
  {
    hide Share, Rate;
    DivPositive(work, peak * efficiency);
    FitIsShare(work, peak, efficiency, t, available);
    ShareIsExactWhenDominant(efficiency, t, available);
  }

  lemma FitIsShare(work: real, peak: real, efficiency: real, t: real, longest: real)
    requires peak > 0.0 && efficiency > 0.0 && longest > 0.0 && work >= 0.0
    requires peak * efficiency > 0.0 && t == work / (peak * efficiency)
    ensures Rate(work, peak, longest) == Share(efficiency, t, longest)
  {
    MulPositive(peak, longest);
    DivCancels(work, peak * efficiency);
    DivCancels(efficiency * t, longest);
    var q := efficiency * t / longest;
    assert q * (peak * longest) == (q * longest) * peak;
    assert (efficiency * t) * peak == t * (peak * efficiency);
    DivIs(work, peak * longest, q);
  }

  lemma ShareIsExactWhenDominant(efficiency: real, t: real, longest: real)
    requires efficiency > 0.0 && 0.0 <= t <= longest && longest > 0.0
    ensures Share(efficiency, t, longest) <= efficiency
    ensures Share(efficiency, t, longest) == efficiency <==> t == longest
  {
    MulLe(t, longest, efficiency);
    DivLe(efficiency * t, longest, efficiency);
    DivCancels(efficiency * t, longest);
    if t < longest { MulLt(t, longest, efficiency); }
  }

  /** The all-reduce term `fit_mbu_from_decode` subtracts is the one the model charged. */
  ghost predicate SameCommunication(model: Model, gpu: Gpu, batch: nat, tp: nat, dtype: DType)
    requires ValidGpu(gpu) && tp >= 1
  {
    CommunicationTime(gpu, model, batch, tp, BF16) == CommunicationTime(gpu, model, batch, tp, dtype)
  }

  /** The fit always assumes two-byte payloads, so the terms match exactly at one rank, no link, or 16-bit weights. */
  lemma SameCommunicationExactly(model: Model, gpu: Gpu, batch: nat, tp: nat, dtype: DType)
    requires ValidModel(model) && ValidGpu(gpu) && tp >= 1 && batch >= 1
    ensures SameCommunication(model, gpu, batch, tp, dtype)
            <==> tp == 1 || gpu.link.bytesPerSecond <= 0.0 || dtype.Bits() == 16
  {
    hide RingCalls, ReduceLatency, TokenWidth;
    if tp > 1 && gpu.link.bytesPerSecond > 0.0 {
      var c, speed := RingCalls(model, tp), gpu.link.bytesPerSecond;
      RingCallsPositive(model, tp);
      PayloadsDiffer(model, batch, dtype);
      TransfersDiffer(c, speed, (batch * TokenWidth(model, BF16)) as real, (batch * TokenWidth(model, dtype)) as real);
    }
  }

  lemma TransfersDiffer(c: real, speed: real, p: real, p': real)
    requires c > 0.0 && speed > 0.0
    ensures c * p / speed == c * p' / speed <==> p == p'
  {
    if p < p' { MulLt(p, p', c); } else if p' < p { MulLt(p', p, c); }
    DivCancels(c * p, speed);
    DivCancels(c * p', speed);
  }

  lemma RingCallsPositive(model: Model, tp: nat)
    requires ValidModel(model) && tp > 1
    ensures RingCalls(model, tp) > 0.0
  {
    DivPositive((2 * (tp - 1)) as real, tp as real);
    MulPositive((2 * model.nLayers) as real, (2 * (tp - 1)) as real / tp as real);
  }

  lemma PayloadsDiffer(model: Model, batch: nat, dtype: DType)
    requires model.hidden >= 1 && batch >= 1
    ensures batch * TokenWidth(model, BF16) == batch * TokenWidth(model, dtype) <==> dtype.Bits() == 16
  {
    ProductsDiffer(model.hidden, 2, dtype.Bits() / 8);
    ProductsDiffer(batch, TokenWidth(model, BF16), TokenWidth(model, dtype));
  }

  lemma ProductsDiffer(n: nat, w: nat, w': nat)
    requires n >= 1
    ensures n * w == n * w' <==> w == w'
  {
    if w < w' { assert n * w < n * w'; } else if w' < w { assert n * w' < n * w; }
  }

  /** Time left for the work that differs from the time it took gives a different efficiency, or none. */
  lemma WrongTimeMisfits(work: real, peak: real, efficiency: real, t: real, other: real, available: real)
    requires peak > 0.0 && efficiency > 0.0 && work > 0.0 && peak * efficiency > 0.0
    requires t == work / (peak * efficiency) && available != MaxReal(t, other)
    ensures !Recovers(Efficiency(work, peak, available), efficiency, t, other)
  {
    hide Share, Rate;
    DivPositive(work, peak * efficiency);
    var longest := MaxReal(t, other);
    FitIsShare(work, peak, efficiency, t, longest);
    if available > 0.0 { RatesDiffer(work, peak, available, longest); }
  }

  lemma RatesDiffer(work: real, peak: real, a: real, b: real)
    requires work > 0.0 && peak > 0.0 && a > 0.0 && b > 0.0 && a != b
    ensures Rate(work, peak, a) != Rate(work, peak, b)
  {
    MulPositive(peak, a);
    MulPositive(peak, b);
    DivCancels(work, peak * a);
    DivCancels(work, peak * b);
    DivPositive(work, peak * a);
    var q := work / (peak * a);
    if a < b {
      MulLt(a, b, peak);
      MulLt(peak * a, peak * b, q);
    } else {
      MulLt(b, a, peak);
      MulLt(peak * b, peak * a, q);
    }
  }

  /**
   Fitting MBU to a modelled decode step returns the true MBU times the share of time spent reading
   (never more than the truth, and the truth exactly when reading is not the shorter of the two),
   and does so exactly at one rank, without a link, or for 16-bit weights.
   */
  lemma DecodeFitInvertsModel(model: Model, gpu: Gpu, batch: nat, context: nat, kvPerToken: nat, tp: nat,
                              coef: Coefficients, dtype: DType)
    requires ValidModel(model) && ValidGpu(gpu) && tp >= 1 && ValidCoefficients(coef) && batch >= 1
    ensures var s := DecodeStep(model, gpu, batch, context, kvPerToken, tp, coef, dtype);
            && s.Ok?
            && (Recovers(FitMbu(model, gpu, s.value.Total(), batch, context, kvPerToken, tp, coef.fixedOverhead),
                         coef.mbu, s.value.tMemory, s.value.tCompute)
                <==> tp == 1 || gpu.link.bytesPerSecond <= 0.0 || dtype.Bits() == 16)
  {
    hide CommunicationTime, DecodeBytes, DecodeFlops, ComputeSeconds, Recovers, Efficiency;
    var s := DecodeStep(model, gpu, batch, context, kvPerToken, tp, coef, dtype).value;
    ReadTakesTime(model, gpu, batch, context, kvPerToken, tp, coef.mbu);
    CommunicationNonNegative(gpu, model, batch, tp, dtype);
    MulPositive(gpu.bandwidth, coef.mbu);
    SameCommunicationExactly(model, gpu, batch, tp, dtype);
    var bytes := DecodeBytes(model, batch, context, kvPerToken, tp) as real;
    var available := s.Total() - coef.fixedOverhead - CommunicationTime(gpu, model, batch, tp, BF16);
    if SameCommunication(model, gpu, batch, tp, dtype) {
      EfficiencyRecovers(bytes, gpu.bandwidth, coef.mbu, s.tMemory, s.tCompute, available);
    } else {
      WrongTimeMisfits(bytes, gpu.bandwidth, coef.mbu, s.tMemory, s.tCompute, available);
    }
  }

  lemma ReadTakesTime(model: Model, gpu: Gpu, batch: nat, context: nat, kvPerToken: nat, tp: nat, mbu: real)
    requires ValidModel(model) && ValidGpu(gpu) && tp >= 1 && mbu > 0.0
    ensures DecodeBytes(model, batch, context, kvPerToken, tp) > 0
    ensures ReadSeconds(gpu, DecodeBytes(model, batch, context, kvPerToken, tp), mbu) > 0.0
  {
    WeightsArePositive(model, tp);
    ReadSecondsSign(gpu, DecodeBytes(model, batch, context, kvPerToken, tp), mbu);
  }

  lemma CommunicationNonNegative(gpu: Gpu, model: Model, tokens: nat, tp: nat, dtype: DType)
    requires ValidGpu(gpu) && tp >= 1
    ensures CommunicationTime(gpu, model, tokens, tp, dtype) >= 0.0
  {
    CommunicationIsAffine(gpu, model, tokens, tp, dtype);
    ReduceIsNonNegative(gpu, model, tp, dtype);
    MulNonNegative(tokens as real, ReduceRate(gpu, model, tp, dtype));
  }

  /** Dually for MFU and prefill, at any rank count and type: both sides charge the same all-reduce. */
  lemma PrefillFitInvertsModel(model: Model, gpu: Gpu, tokens: int, tp: nat, coef: Coefficients, dtype: DType)
    requires ValidModel(model) && ValidGpu(gpu) && tp >= 1 && ValidCoefficients(coef) && tokens >= 1
    ensures var s := PrefillStep(model, gpu, tokens, tp, coef, dtype);
            && s.Ok?
            && Recovers(FitMfu(model, gpu, s.value.Total(), tokens, tp, coef.fixedOverhead, dtype),
                        coef.mfu, s.value.tCompute, s.value.tMemory)
  {
    hide CommunicationTime, PrefillFlops, PeakFlops, ReadSeconds, Recovers, Efficiency;
    var s := PrefillStep(model, gpu, tokens, tp, coef, dtype).value;
    PrefillFlopsPositive(model, tokens, tp);
    ComputeSecondsSign(gpu, PrefillFlops(model, tokens, tp), dtype, coef.mfu);
    CommunicationNonNegative(gpu, model, tokens, tp, dtype);
    MulPositive(PeakFlops(gpu, dtype), coef.mfu);
    EfficiencyRecovers(PrefillFlops(model, tokens, tp), PeakFlops(gpu, dtype), coef.mfu, s.tCompute, s.tMemory,
                       s.Total() - coef.fixedOverhead - CommunicationTime(gpu, model, tokens, tp, dtype));
  }

  lemma PrefillFlopsPositive(model: Model, tokens: nat, tp: nat)
    requires ValidModel(model) && tp >= 1 && tokens >= 1
    ensures PrefillFlops(model, tokens, tp) > 0.0
  {
    var n := tokens as real;
    MulPositive(2.0 * model.paramsActive as real, n);
    MulPositive(4.0 * model.nLayers as real, model.hidden as real);
    MulPositive(4.0 * model.nLayers as real * model.hidden as real, n);
    MulPositive(4.0 * model.nLayers as real * model.hidden as real * n, n);
    DivPositive(2.0 * model.paramsActive as real * n
                + 4.0 * model.nLayers as real * model.hidden as real * n * n, tp as real);
  }

  // ---------------------------------------------------------------- calibrating from stored runs

  datatype Point = Point(
    concurrency: nat,
    requestsOk: int,
    promptTokens: nat,
    ttftP50Ms: Option<real>,
    tpotP50Ms: Option<real>,
    avgContext: Option<nat>)

  datatype Run = Run(tp: nat, kvPerToken: Option<nat>, points: seq<Point>)

  /** One attempt to fit: not tried, accepted with a value, or counted as rejected. */
  datatype Attempt = Skipped | Accepted(value: real) | Rejected

  function Judge(fit: Option<real>): Attempt {
    if fit.None? then Rejected else if Plausible(fit.value) then Accepted(fit.value) else Rejected
  }

  /** What an attempt makes of work that took `t` at the true efficiency, when `left` is attributed to it. */
  ghost predicate Judged(attempt: Attempt, efficiency: real, t: real, left: real) {
    && (attempt.Accepted? <==> left > 0.0 && 0.02 * left <= Achieved(efficiency, t) <= left)
    && (attempt.Accepted? ==> attempt.value == Share(efficiency, t, left) && (attempt.value < efficiency <==> left > t))
  }

  /** The time the work would have taken at full efficiency. */
  function Achieved(efficiency: real, t: real): real { efficiency * t }

  lemma AchievedWithin(efficiency: real, t: real)
    requires 0.0 < efficiency <= 1.0 && t >= 0.0
    ensures 0.0 <= Achieved(efficiency, t) <= t
  {
    MulNonNegative(efficiency, t);
    MulNonNegative(1.0 - efficiency, t);
    Expand(1.0, -efficiency, t);
    assert t - efficiency * t == (1.0 - efficiency) * t;
  }

  lemma EfficiencyIsJudged(work: real, peak: real, efficiency: real, t: real, left: real)
    requires peak > 0.0 && efficiency > 0.0 && work > 0.0 && peak * efficiency > 0.0
    requires t == work / (peak * efficiency)
    ensures Judged(Judge(Efficiency(work, peak, left)), efficiency, t, left)
  {
    hide Rate;
    DivPositive(work, peak * efficiency);
    if left > 0.0 {
      FitIsShare(work, peak, efficiency, t, left);
      DivLe(efficiency * t, left, MIN_PLAUSIBLE);
      DivLe(efficiency * t, left, MAX_PLAUSIBLE);
      DivLe(efficiency * t, left, efficiency);
      if t < left { MulLt(t, left, efficiency); } else { MulLe(left, t, efficiency); }
    }
  }

  /**
   Rejection looks at the fitted value alone. The fit attributes to reading whatever it does not subtract:
   the longer of reading and computing, and any all-reduce time it misjudges. A step is accepted exactly
   when the resulting share of the true MBU is plausible, and is absorbed below the truth exactly when
   the time attributed exceeds the time spent reading.
   */
  lemma ComputeBoundAbsorbedExactly(model: Model, gpu: Gpu, batch: nat, context: nat, kvPerToken: nat, tp: nat,
                                    coef: Coefficients, dtype: DType)
    requires ValidModel(model) && ValidGpu(gpu) && tp >= 1 && ValidCoefficients(coef) && batch >= 1
    ensures var s := DecodeStep(model, gpu, batch, context, kvPerToken, tp, coef, dtype);
            && s.Ok?
            && var left := MaxReal(s.value.tMemory, s.value.tCompute) + CommunicationTime(gpu, model, batch, tp, dtype)
                           - CommunicationTime(gpu, model, batch, tp, BF16);
            Judged(Judge(FitMbu(model, gpu, s.value.Total(), batch, context, kvPerToken, tp, coef.fixedOverhead)),
                   coef.mbu, s.value.tMemory, left)
  {
    hide CommunicationTime, DecodeBytes, DecodeFlops, ComputeSeconds, Judged, Judge, Efficiency;
    var s := DecodeStep(model, gpu, batch, context, kvPerToken, tp, coef, dtype).value;
    ReadTakesTime(model, gpu, batch, context, kvPerToken, tp, coef.mbu);
    CommunicationNonNegative(gpu, model, batch, tp, dtype);
    MulPositive(gpu.bandwidth, coef.mbu);
    EfficiencyIsJudged(DecodeBytes(model, batch, context, kvPerToken, tp) as real, gpu.bandwidth, coef.mbu, s.tMemory,
                       s.Total() - coef.fixedOverhead - CommunicationTime(gpu, model, batch, tp, BF16));
  }

  /** Where the all-reduce is judged rightly, a compute-bound step is either implausibly low or absorbed below the truth. */
  lemma ComputeBoundAbsorbedBelow(model: Model, gpu: Gpu, batch: nat, context: nat, kvPerToken: nat, tp: nat,
                                  coef: Coefficients, dtype: DType)
    requires ValidModel(model) && ValidGpu(gpu) && tp >= 1 && ValidCoefficients(coef) && batch >= 1
    requires tp == 1 || gpu.link.bytesPerSecond <= 0.0 || dtype.Bits() == 16
    ensures var s := DecodeStep(model, gpu, batch, context, kvPerToken, tp, coef, dtype);
            && s.Ok?
            && var attempt := Judge(FitMbu(model, gpu, s.value.Total(), batch, context, kvPerToken, tp, coef.fixedOverhead));
            && (attempt.Accepted? <==>
                  Achieved(coef.mbu, s.value.tMemory) >= MIN_PLAUSIBLE * MaxReal(s.value.tMemory, s.value.tCompute))
            && (attempt.Accepted? ==> (attempt.value < coef.mbu <==> s.value.tCompute > s.value.tMemory))
  {
    hide DecodeStep, FitMbu, CommunicationTime, Judge;
    ComputeBoundAbsorbedExactly(model, gpu, batch, context, kvPerToken, tp, coef, dtype);
    SameCommunicationExactly(model, gpu, batch, tp, dtype);
    DecodeStepReads(model, gpu, batch, context, kvPerToken, tp, coef, dtype);
    var s := DecodeStep(model, gpu, batch, context, kvPerToken, tp, coef, dtype).value;
    JudgedFairly(Judge(FitMbu(model, gpu, s.Total(), batch, context, kvPerToken, tp, coef.fixedOverhead)),
                 coef.mbu, s.tMemory, s.tCompute);
  }

  lemma JudgedFairly(attempt: Attempt, efficiency: real, t: real, other: real)
    requires Judged(attempt, efficiency, t, MaxReal(t, other)) && t > 0.0 && 0.0 < efficiency <= 1.0
    ensures attempt.Accepted? <==> Achieved(efficiency, t) >= MIN_PLAUSIBLE * MaxReal(t, other)
    ensures attempt.Accepted? ==> (attempt.value < efficiency <==> other > t)
  {
    hide Achieved, Share;
    AchievedWithin(efficiency, t);
  }

  lemma DecodeStepReads(model: Model, gpu: Gpu, batch: nat, context: nat, kvPerToken: nat, tp: nat,
                        coef: Coefficients, dtype: DType)
    requires ValidModel(model) && ValidGpu(gpu) && tp >= 1 && ValidCoefficients(coef) && batch >= 1
    ensures var s := DecodeStep(model, gpu, batch, context, kvPerToken, tp, coef, dtype); s.Ok? && s.value.tMemory > 0.0
    ensures DecodeStep(model, gpu, batch, context, kvPerToken, tp, coef, dtype).value.Total() > 0.0
  {
    ReadTakesTime(model, gpu, batch, context, kvPerToken, tp, coef.mbu);
    CommunicationNonNegative(gpu, model, batch, tp, dtype);
    hide DecodeBytes, ReadSeconds, CommunicationTime, ComputeSeconds;
  }

  /** A step spending twice as long computing as reading is accepted, at half of the true MBU. */
  lemma SomeComputeBoundPointIsAbsorbed() returns (model: Model, gpu: Gpu, coef: Coefficients)
    ensures ValidModel(model) && ValidGpu(gpu) && ValidCoefficients(coef) && coef.mbu == 1.0
    ensures var s := DecodeStep(model, gpu, 2, 0, 1, 1, coef, BF16);
            && s.Ok? && s.value.tCompute > s.value.tMemory
            && Judge(FitMbu(model, gpu, s.value.Total(), 2, 0, 1, 1, coef.fixedOverhead)) == Accepted(0.5)
  {
    model := Model(Attention(MHA, 1, 64, 1, None), 2, 64, 100, None, 128, 1, 1, 1, BF16);
    gpu := Gpu(100, 100, 1, 1.0, map[BF16 := 1.0], Link(0.0, 0.0));
    coef := Coefficients(1.0, 1.0, 0.0, 0);
    assert BF16 in gpu.denseFlops;
    var s := DecodeStep(model, gpu, 2, 0, 1, 1, coef, BF16).value;
    assert s.tMemory == 2.0 && s.tCompute == 4.0;
  }

  /**
   Eight-bit weights on two ranks: computing takes 2.5 seconds and reading 2, but the fit subtracts an
   all-reduce twice the real one and accepts two thirds where the true MBU is one half.
   */
  lemma SomeComputeBoundPointIsOverstated() returns (model: Model, gpu: Gpu, coef: Coefficients)
    ensures ValidModel(model) && ValidGpu(gpu) && ValidCoefficients(coef) && coef.mbu == 0.5
    ensures var s := DecodeStep(model, gpu, 1, 0, 1, 2, coef, FP8_E4M3);
            && s.Ok? && s.value.tCompute > s.value.tMemory
            && Judge(FitMbu(model, gpu, s.value.Total(), 1, 0, 1, 2, coef.fixedOverhead)) == Accepted(2.0 / 3.0)
  {
    model := Model(Attention(MHA, 1, 64, 1, None), 2, 64, 100, None, 128, 1, 1, 1, FP8_E4M3);
    gpu := Gpu(100, 100, 2, 1.0, map[FP8_E4M3 := 1.0], Link(128.0, 0.0));
    coef := Coefficients(0.4, 0.5, 0.0, 0);
    assert FP8_E4M3 in gpu.denseFlops;
    var s := DecodeStep(model, gpu, 1, 0, 1, 2, coef, FP8_E4M3).value;
    assert WeightBytesPerGpu(model, 2) == 1;
    assert s.tMemory == 2.0 && s.tCompute == 2.5;
    assert RingCalls(model, 2) == 2.0;
    assert CommunicationTime(gpu, model, 1, 2, FP8_E4M3) == 1.0;
    assert CommunicationTime(gpu, model, 1, 2, BF16) == 2.0;
    ComputeBoundAbsorbedExactly(model, gpu, 1, 0, 1, 2, coef, FP8_E4M3);
  }

  /** Python truthiness: an absent or zero figure counts as missing. */
  predicate Given(x: Option<real>) { x.Some? && x.value != 0.0 }

  function ContextOf(p: Point): nat
    requires p.requestsOk >= 1
  {
    if p.avgContext.Some? && p.avgContext.value != 0 then p.avgContext.value
    else p.promptTokens / Max(1, p.requestsOk)
  }

  /** The context measured, when positive, else the prompt tokens of the average successful request, rounded down. */
  lemma ContextExactly(p: Point)
    requires p.requestsOk >= 1
    ensures p.avgContext.Some? && p.avgContext.value > 0 ==> Some(ContextOf(p)) == p.avgContext
    ensures p.avgContext == None || p.avgContext == Some(0) ==>
              ContextOf(p) * p.requestsOk <= p.promptTokens < (ContextOf(p) + 1) * p.requestsOk
  {
    FloorDivGalois(p.promptTokens / p.requestsOk, p.promptTokens, p.requestsOk);
    FloorDivGalois(p.promptTokens / p.requestsOk + 1, p.promptTokens, p.requestsOk);
  }

  /** The prompt fitted for prefill: that average again, but at least one token. */
  function PromptOf(p: Point): (tokens: nat)
    requires p.requestsOk >= 1
    ensures tokens >= 1
  {
    Max(1, p.promptTokens / Max(1, p.requestsOk))
  }

  lemma PromptExactly(p: Point)
    requires p.requestsOk >= 1
    ensures p.promptTokens >= p.requestsOk ==>
              PromptOf(p) * p.requestsOk <= p.promptTokens < (PromptOf(p) + 1) * p.requestsOk
    ensures p.promptTokens < p.requestsOk ==> PromptOf(p) == 1
  {
    FloorDivGalois(1, p.promptTokens, p.requestsOk);
    FloorDivGalois(p.promptTokens / p.requestsOk, p.promptTokens, p.requestsOk);
    FloorDivGalois(p.promptTokens / p.requestsOk + 1, p.promptTokens, p.requestsOk);
  }

  function DecodeAttempt(model: Model, gpu: Gpu, run: Run, p: Point, prior: Coefficients): Attempt
    requires ValidGpu(gpu) && run.tp >= 1
  {
    if p.requestsOk < 1 then Skipped
    else if Given(p.tpotP50Ms) && run.kvPerToken.Some? && run.kvPerToken.value != 0 then
      Judge(FitMbu(model, gpu, p.tpotP50Ms.value / 1000.0, p.concurrency, ContextOf(p), run.kvPerToken.value,
                   run.tp, prior.fixedOverhead))
    else Skipped
  }

  function PrefillAttempt(model: Model, gpu: Gpu, run: Run, p: Point, prior: Coefficients, maxConcurrency: int): Attempt
    requires ValidGpu(gpu) && run.tp >= 1
  {
    if p.requestsOk < 1 then Skipped
    else if Given(p.ttftP50Ms) && p.concurrency <= maxConcurrency then
      Judge(FitMfu(model, gpu, p.ttftP50Ms.value / 1000.0, PromptOf(p), run.tp,
                   prior.fixedOverhead, model.weightDtype))
    else Skipped
  }

  /**
   When an attempt is made: some request succeeded and the latency is given and not zero; for decode the
   token price is too, and for prefill the concurrency is within the limit.
   */
  lemma AttemptsExactly(model: Model, gpu: Gpu, run: Run, p: Point, prior: Coefficients, limit: int)
    requires ValidGpu(gpu) && run.tp >= 1
    ensures DecodeAttempt(model, gpu, run, p, prior) != Skipped <==>
              p.requestsOk >= 1 && p.tpotP50Ms.Some? && p.tpotP50Ms != Some(0.0)
              && run.kvPerToken.Some? && run.kvPerToken != Some(0)
    ensures PrefillAttempt(model, gpu, run, p, prior, limit) != Skipped <==>
              p.requestsOk >= 1 && p.ttftP50Ms.Some? && p.ttftP50Ms != Some(0.0) && p.concurrency <= limit
  {
    hide FitMbu, FitMfu;
  }

  datatype Evidence = Evidence(mbu: seq<real>, mfu: seq<real>, rejected: nat, points: nat, idle: nat)

  /** Every accepted sample is plausible, and no attempt is lost: each point yields two outcomes or one. */
  ghost predicate Accounted(e: Evidence) {
    && (forall v :: v in e.mbu ==> Plausible(v))
    && (forall v :: v in e.mfu ==> Plausible(v))
    && e.idle <= 2 * e.points
    && |e.mbu| + |e.mfu| + e.rejected + e.idle == 2 * e.points
  }

  function Absorb(e: Evidence, decode: Attempt, prefill: Attempt, failed: bool): Evidence {
    if failed then Evidence(e.mbu, e.mfu, e.rejected + 1, e.points + 1, e.idle + 1)
    else
      Evidence(if decode.Accepted? then e.mbu + [decode.value] else e.mbu,
               if prefill.Accepted? then e.mfu + [prefill.value] else e.mfu,
               e.rejected + (if decode.Rejected? then 1 else 0) + (if prefill.Rejected? then 1 else 0),
               e.points + 1,
               e.idle + (if decode.Skipped? then 1 else 0) + (if prefill.Skipped? then 1 else 0))
  }

  function FoldPoints(model: Model, gpu: Gpu, run: Run, points: seq<Point>, prior: Coefficients, limit: int, e: Evidence): Evidence
    requires ValidGpu(gpu) && run.tp >= 1
  {
    if points == [] then e
    else
      var p := points[|points|-1];
      Absorb(FoldPoints(model, gpu, run, points[..|points|-1], prior, limit, e),
             DecodeAttempt(model, gpu, run, p, prior), PrefillAttempt(model, gpu, run, p, prior, limit), p.requestsOk < 1)
  }

  function FoldRuns(model: Model, gpu: Gpu, runs: seq<Run>, prior: Coefficients, limit: int): Evidence
    requires ValidGpu(gpu) && forall r :: r in runs ==> r.tp >= 1
  {
    if runs == [] then Evidence([], [], 0, 0, 0)
    else
      var r := runs[|runs|-1];
      FoldPoints(model, gpu, r, r.points, prior, limit, FoldRuns(model, gpu, runs[..|runs|-1], prior, limit))
  }

  lemma AbsorbAccounted(e: Evidence, decode: Attempt, prefill: Attempt, failed: bool)
    requires Accounted(e)
    requires decode.Accepted? ==> Plausible(decode.value)
    requires prefill.Accepted? ==> Plausible(prefill.value)
    ensures Accounted(Absorb(e, decode, prefill, failed))
  {}

  lemma {:induction false} PointsAccounted(model: Model, gpu: Gpu, run: Run, points: seq<Point>, prior: Coefficients, limit: int, e: Evidence)
    requires ValidGpu(gpu) && run.tp >= 1 && Accounted(e)
    ensures Accounted(FoldPoints(model, gpu, run, points, prior, limit, e))
    decreases |points|
  {
    hide FitMbu, FitMfu;
    if points != [] {
      var p := points[|points|-1];
      PointsAccounted(model, gpu, run, points[..|points|-1], prior, limit, e);
      AbsorbAccounted(FoldPoints(model, gpu, run, points[..|points|-1], prior, limit, e),
                      DecodeAttempt(model, gpu, run, p, prior), PrefillAttempt(model, gpu, run, p, prior, limit),
                      p.requestsOk < 1);
    }
  }

  lemma {:induction false} RunsAccounted(model: Model, gpu: Gpu, runs: seq<Run>, prior: Coefficients, limit: int)
    requires ValidGpu(gpu) && forall r :: r in runs ==> r.tp >= 1
    ensures Accounted(FoldRuns(model, gpu, runs, prior, limit))
    decreases |runs|
  {
    if runs != [] {
      RunsAccounted(model, gpu, runs[..|runs|-1], prior, limit);
      var r := runs[|runs|-1];
      PointsAccounted(model, gpu, r, r.points, prior, limit, FoldRuns(model, gpu, runs[..|runs|-1], prior, limit));
    }
  }

  function Fitted(e: Evidence, prior: Coefficients): Coefficients {
    Coefficients(if e.mfu != [] then Median(e.mfu) else prior.mfu,
                 if e.mbu != [] then Median(e.mbu) else prior.mbu,
                 prior.fixedOverhead,
                 |e.mbu| + |e.mfu|)
  }

  /** The nested loops over runs and points, appending samples and counting rejections. */
  method Calibrate(runs: seq<Run>, model: Model, gpu: Gpu, prior: Coefficients, maxConcurrency: int)
    returns (coefficients: Coefficients, mbu: seq<real>, mfu: seq<real>, rejected: nat)
    requires ValidGpu(gpu) && ValidCoefficients(prior) && forall r :: r in runs ==> r.tp >= 1
    ensures var e := FoldRuns(model, gpu, runs, prior, maxConcurrency);
            && mbu == e.mbu && mfu == e.mfu && rejected == e.rejected && coefficients == Fitted(e, prior)
    ensures ValidCoefficients(coefficients)
  {
    hide FitMbu, FitMfu, DecodeAttempt, PrefillAttempt, Median, ValidCoefficients;
    mbu, mfu, rejected := [], [], 0;
    for i := 0 to |runs|
      invariant var e := FoldRuns(model, gpu, runs[..i], prior, maxConcurrency);
                mbu == e.mbu && mfu == e.mfu && rejected == e.rejected
    {
      var run := runs[i];
      ghost var before := FoldRuns(model, gpu, runs[..i], prior, maxConcurrency);
      for j := 0 to |run.points|
        invariant var e := FoldPoints(model, gpu, run, run.points[..j], prior, maxConcurrency, before);
                  mbu == e.mbu && mfu == e.mfu && rejected == e.rejected
      {
        var point := run.points[j];
        assert run.points[..j+1][..j] == run.points[..j];
        if point.requestsOk < 1 {
          rejected := rejected + 1;
          continue;
        }
        var decode := DecodeAttempt(model, gpu, run, point, prior);
        match decode {
          case Skipped =>
          case Accepted(v) => mbu := mbu + [v];
          case Rejected => rejected := rejected + 1;
        }
        var prefill := PrefillAttempt(model, gpu, run, point, prior, maxConcurrency);
        match prefill {
          case Skipped =>
          case Accepted(v) => mfu := mfu + [v];
          case Rejected => rejected := rejected + 1;
        }
      }
      assert run.points[..|run.points|] == run.points;
      assert runs[..i+1][..i] == runs[..i];
    }
    assert runs[..|runs|] == runs;
    RunsAccounted(model, gpu, runs, prior, maxConcurrency);
    coefficients := Coefficients(if mfu != [] then Median(mfu) else prior.mfu,
                                 if mbu != [] then Median(mbu) else prior.mbu,
                                 prior.fixedOverhead, |mbu| + |mfu|);
    FittedIsValid(FoldRuns(model, gpu, runs, prior, maxConcurrency), prior);
  }

  /** Whatever the runs, the fitted coefficients satisfy the constructor, so calibration cannot fail. */
  lemma FittedIsValid(e: Evidence, prior: Coefficients)
    requires Accounted(e) && ValidCoefficients(prior)
    ensures ValidCoefficients(Fitted(e, prior))
  {
    if e.mfu != [] { MedianWithin(e.mfu, MIN_PLAUSIBLE, MAX_PLAUSIBLE); }
    if e.mbu != [] { MedianWithin(e.mbu, MIN_PLAUSIBLE, MAX_PLAUSIBLE); }
  }

  /** How many points a list of runs holds. */
  function PointsIn(runs: seq<Run>): nat {
    if runs == [] then 0 else PointsIn(runs[..|runs|-1]) + |runs[|runs|-1].points|
  }

  lemma {:induction false} PointsFolded(model: Model, gpu: Gpu, run: Run, points: seq<Point>, prior: Coefficients, limit: int, e: Evidence)
    requires ValidGpu(gpu) && run.tp >= 1
    ensures FoldPoints(model, gpu, run, points, prior, limit, e).points == e.points + |points|
    decreases |points|
  {
    hide DecodeAttempt, PrefillAttempt;
    if points != [] { PointsFolded(model, gpu, run, points[..|points|-1], prior, limit, e); }
  }

  lemma {:induction false} RunsFolded(model: Model, gpu: Gpu, runs: seq<Run>, prior: Coefficients, limit: int)
    requires ValidGpu(gpu) && forall r :: r in runs ==> r.tp >= 1
    ensures FoldRuns(model, gpu, runs, prior, limit).points == PointsIn(runs)
    decreases |runs|
  {
    hide FoldPoints;
    if runs != [] {
      var r := runs[|runs|-1];
      RunsFolded(model, gpu, runs[..|runs|-1], prior, limit);
      PointsFolded(model, gpu, r, r.points, prior, limit, FoldRuns(model, gpu, runs[..|runs|-1], prior, limit));
    }
  }

  /** Samples fitted, attempts rejected and attempts not made are two for every point; the overhead is the prior's. */
  lemma CalibrationAccounts(model: Model, gpu: Gpu, runs: seq<Run>, prior: Coefficients, limit: int)
    requires ValidGpu(gpu) && forall r :: r in runs ==> r.tp >= 1
    ensures var e := FoldRuns(model, gpu, runs, prior, limit);
            && Fitted(e, prior).samples + e.rejected + e.idle == 2 * PointsIn(runs)
            && Fitted(e, prior).fixedOverhead == prior.fixedOverhead
            && (e.mbu == [] ==> Fitted(e, prior).mbu == prior.mbu)
            && (e.mfu == [] ==> Fitted(e, prior).mfu == prior.mfu)
  {
    RunsAccounted(model, gpu, runs, prior, limit);
    RunsFolded(model, gpu, runs, prior, limit);
    hide FoldRuns, Median;
  }

  /** Outliers lose: a value shared by more than half of the accepted samples is the calibrated one. */
  lemma MajorityCalibrates(e: Evidence, prior: Coefficients, v: real)
    ensures e.mbu != [] && 2 * CountEq(e.mbu, v) > |e.mbu| ==> Fitted(e, prior).mbu == v
    ensures e.mfu != [] && 2 * CountEq(e.mfu, v) > |e.mfu| ==> Fitted(e, prior).mfu == v
  {
    if e.mbu != [] && 2 * CountEq(e.mbu, v) > |e.mbu| { MajorityIsMedian(e.mbu, v); }
    if e.mfu != [] && 2 * CountEq(e.mfu, v) > |e.mfu| { MajorityIsMedian(e.mfu, v); }
  }

  // ---------------------------------------------------------------- calibrating on the model's own runs

  /** Which of a point's two attempts is meant. */
  datatype Side = Decode | Prefill

  function AttemptOn(side: Side, model: Model, gpu: Gpu, run: Run, p: Point, prior: Coefficients, limit: int): Attempt
    requires ValidGpu(gpu) && run.tp >= 1
  {
    if side.Decode? then DecodeAttempt(model, gpu, run, p, prior) else PrefillAttempt(model, gpu, run, p, prior, limit)
  }

  function SamplesOn(side: Side, e: Evidence): seq<real> { if side.Decode? then e.mbu else e.mfu }

  function Truth(side: Side, coef: Coefficients): real { if side.Decode? then coef.mbu else coef.mfu }

  /** The point's latency is what the model gives for a decode step that reads at least as long as it computes. */
  ghost predicate ModelledDecode(model: Model, gpu: Gpu, run: Run, p: Point, coef: Coefficients, dtype: DType)
    requires ValidModel(model) && ValidGpu(gpu) && ValidCoefficients(coef) && run.tp >= 1
  {
    && p.requestsOk >= 1 && p.concurrency >= 1 && run.kvPerToken.Some? && run.kvPerToken.value != 0
    && (run.tp == 1 || gpu.link.bytesPerSecond <= 0.0 || dtype.Bits() == 16)
    && var s := DecodeStep(model, gpu, p.concurrency, ContextOf(p), run.kvPerToken.value, run.tp, coef, dtype);
    && s.Ok? && s.value.tMemory >= s.value.tCompute && p.tpotP50Ms == Some(1000.0 * s.value.Total())
  }

  /** The point's latency is what the model gives for a prefill step that computes at least as long as it reads. */
  ghost predicate ModelledPrefill(model: Model, gpu: Gpu, run: Run, p: Point, coef: Coefficients, limit: int)
    requires ValidModel(model) && ValidGpu(gpu) && ValidCoefficients(coef) && run.tp >= 1
  {
    && p.requestsOk >= 1 && p.concurrency <= limit
    && var s := PrefillStep(model, gpu, PromptOf(p), run.tp, coef, model.weightDtype);
    && s.Ok? && s.value.tCompute >= s.value.tMemory && p.ttftP50Ms == Some(1000.0 * s.value.Total())
  }

  lemma ModelledDecodeRecovers(model: Model, gpu: Gpu, run: Run, p: Point, coef: Coefficients, prior: Coefficients, dtype: DType)
    requires ValidModel(model) && ValidGpu(gpu) && ValidCoefficients(coef) && run.tp >= 1
    requires ModelledDecode(model, gpu, run, p, coef, dtype)
    requires coef.fixedOverhead == prior.fixedOverhead && coef.mbu >= MIN_PLAUSIBLE
    ensures DecodeAttempt(model, gpu, run, p, prior) == Accepted(coef.mbu)
  {
    hide DecodeStep, FitMbu, ContextOf;
    var context, kv := ContextOf(p), run.kvPerToken.value;
    DecodeFitInvertsModel(model, gpu, p.concurrency, context, kv, run.tp, coef, dtype);
    DecodeStepReads(model, gpu, p.concurrency, context, kv, run.tp, coef, dtype);
    var total := DecodeStep(model, gpu, p.concurrency, context, kv, run.tp, coef, dtype).value.Total();
    assert 1000.0 * total / 1000.0 == total;
  }

  lemma ModelledPrefillRecovers(model: Model, gpu: Gpu, run: Run, p: Point, coef: Coefficients, prior: Coefficients, limit: int)
    requires ValidModel(model) && ValidGpu(gpu) && ValidCoefficients(coef) && run.tp >= 1
    requires ModelledPrefill(model, gpu, run, p, coef, limit)
    requires coef.fixedOverhead == prior.fixedOverhead && coef.mfu >= MIN_PLAUSIBLE
    ensures PrefillAttempt(model, gpu, run, p, prior, limit) == Accepted(coef.mfu)
  {
    hide PrefillStep, FitMfu;
    var tokens := PromptOf(p);
    PrefillFitInvertsModel(model, gpu, tokens, run.tp, coef, model.weightDtype);
    PrefillStepComputes(model, gpu, tokens, run.tp, coef, model.weightDtype);
    var total := PrefillStep(model, gpu, tokens, run.tp, coef, model.weightDtype).value.Total();
    assert 1000.0 * total / 1000.0 == total;
  }

  lemma PrefillStepComputes(model: Model, gpu: Gpu, tokens: int, tp: nat, coef: Coefficients, dtype: DType)
    requires ValidModel(model) && ValidGpu(gpu) && tp >= 1 && ValidCoefficients(coef) && tokens >= 1
    ensures PrefillStep(model, gpu, tokens, tp, coef, dtype).Ok?
    ensures PrefillStep(model, gpu, tokens, tp, coef, dtype).value.Total() > 0.0
  {
    PrefillFlopsPositive(model, tokens, tp);
    ComputeSecondsSign(gpu, PrefillFlops(model, tokens, tp), dtype, coef.mfu);
    CommunicationNonNegative(gpu, model, tokens, tp, dtype);
    hide PrefillFlops, ReadSeconds, CommunicationTime, ComputeSeconds;
  }

  /** A condition on a point and the run it belongs to. */
  type Test = (Run, Point) -> bool

  function PointsPassing(run: Run, points: seq<Point>, test: Test): nat {
    if points == [] then 0
    else PointsPassing(run, points[..|points|-1], test) + if test(run, points[|points|-1]) then 1 else 0
  }

  function RunsPassing(runs: seq<Run>, test: Test): nat {
    if runs == [] then 0
    else RunsPassing(runs[..|runs|-1], test) + PointsPassing(runs[|runs|-1], runs[|runs|-1].points, test)
  }

  /** Points whose attempt on this side is made at all. */
  function Attempted(side: Side, model: Model, gpu: Gpu, prior: Coefficients, limit: int): Test
    requires ValidGpu(gpu)
  {
    (run: Run, p: Point) => run.tp >= 1 && !AttemptOn(side, model, gpu, run, p, prior, limit).Skipped?
  }

  /** Points whose latency on this side comes from the model with the given coefficients. */
  ghost function Modelled(side: Side, model: Model, gpu: Gpu, coef: Coefficients, dtype: DType, limit: int): Test
    requires ValidModel(model) && ValidGpu(gpu) && ValidCoefficients(coef)
  {
    (run: Run, p: Point) => run.tp >= 1 && if side.Decode? then ModelledDecode(model, gpu, run, p, coef, dtype)
                               else ModelledPrefill(model, gpu, run, p, coef, limit)
  }

  lemma {:induction false} CountEqSnoc(s: seq<real>, x: real, v: real)
    ensures CountEq(s + [x], v) == CountEq(s, v) + if x == v then 1 else 0
    decreases |s|
  {
    if s == [] {
      assert [x][1..] == [];
      assert [] + [x] == [x];
    } else {
      assert (s + [x])[1..] == s[1..] + [x];
      CountEqSnoc(s[1..], x, v);
    }
  }

  /** Good points add the value `v` to the samples, and nothing but attempts adds anything. */
  ghost predicate Tells(side: Side, model: Model, gpu: Gpu, prior: Coefficients, limit: int, good: Test, v: real)
    requires ValidGpu(gpu)
  {
    forall run: Run, p: Point :: good(run, p) ==>
      run.tp >= 1 && AttemptOn(side, model, gpu, run, p, prior, limit) == Accepted(v)
  }

  lemma AbsorbTally(side: Side, model: Model, gpu: Gpu, run: Run, p: Point, prior: Coefficients, limit: int,
                    good: Test, v: real, e: Evidence)
    requires ValidGpu(gpu) && run.tp >= 1 && Tells(side, model, gpu, prior, limit, good, v)
    ensures var e' := Absorb(e, DecodeAttempt(model, gpu, run, p, prior),
                             PrefillAttempt(model, gpu, run, p, prior, limit), p.requestsOk < 1);
            && CountEq(SamplesOn(side, e'), v) >= CountEq(SamplesOn(side, e), v) + (if good(run, p) then 1 else 0)
            && |SamplesOn(side, e')| <= |SamplesOn(side, e)|
                                        + (if Attempted(side, model, gpu, prior, limit)(run, p) then 1 else 0)
  {
    hide FitMbu, FitMfu, CountEq;
    var a := AttemptOn(side, model, gpu, run, p, prior, limit);
    if a.Accepted? { CountEqSnoc(SamplesOn(side, e), a.value, v); }
    if good(run, p) { assert a == Accepted(v); }
  }

  lemma {:induction false} PointsTally(side: Side, model: Model, gpu: Gpu, run: Run, points: seq<Point>, prior: Coefficients,
                                       limit: int, good: Test, v: real, e: Evidence)
    requires ValidGpu(gpu) && run.tp >= 1 && Tells(side, model, gpu, prior, limit, good, v)
    ensures var e' := FoldPoints(model, gpu, run, points, prior, limit, e);
            && CountEq(SamplesOn(side, e'), v) >= CountEq(SamplesOn(side, e), v) + PointsPassing(run, points, good)
            && |SamplesOn(side, e')| <= |SamplesOn(side, e)|
                                        + PointsPassing(run, points, Attempted(side, model, gpu, prior, limit))
    decreases |points|
  {
    hide Absorb, DecodeAttempt, PrefillAttempt, CountEq, Attempted, Tells, SamplesOn;
    if points != [] {
      var front, p := points[..|points|-1], points[|points|-1];
      PointsTally(side, model, gpu, run, front, prior, limit, good, v, e);
      AbsorbTally(side, model, gpu, run, p, prior, limit, good, v, FoldPoints(model, gpu, run, front, prior, limit, e));
    }
  }

  lemma {:induction false} RunsTally(side: Side, model: Model, gpu: Gpu, runs: seq<Run>, prior: Coefficients, limit: int,
                                     good: Test, v: real)
    requires ValidGpu(gpu) && (forall r :: r in runs ==> r.tp >= 1) && Tells(side, model, gpu, prior, limit, good, v)
    ensures var samples := SamplesOn(side, FoldRuns(model, gpu, runs, prior, limit));
            && CountEq(samples, v) >= RunsPassing(runs, good)
            && |samples| <= RunsPassing(runs, Attempted(side, model, gpu, prior, limit))
    decreases |runs|
  {
    hide FoldPoints, PointsPassing, CountEq, Attempted, Tells;
    if runs != [] {
      var front, r := runs[..|runs|-1], runs[|runs|-1];
      RunsTally(side, model, gpu, front, prior, limit, good, v);
      PointsTally(side, model, gpu, r, r.points, prior, limit, good, v, FoldRuns(model, gpu, front, prior, limit));
    } else {
      assert SamplesOn(side, FoldRuns(model, gpu, runs, prior, limit)) == [];
    }
  }

  lemma ModelledTells(side: Side, model: Model, gpu: Gpu, coef: Coefficients, prior: Coefficients, dtype: DType, limit: int)
    requires ValidModel(model) && ValidGpu(gpu) && ValidCoefficients(coef)
    requires coef.fixedOverhead == prior.fixedOverhead && Truth(side, coef) >= MIN_PLAUSIBLE
    ensures Tells(side, model, gpu, prior, limit, Modelled(side, model, gpu, coef, dtype, limit), Truth(side, coef))
  {
    hide DecodeAttempt, PrefillAttempt, ModelledDecode, ModelledPrefill;
    var good := Modelled(side, model, gpu, coef, dtype, limit);
    forall run: Run, p: Point | good(run, p)
      ensures run.tp >= 1 && AttemptOn(side, model, gpu, run, p, prior, limit) == Accepted(Truth(side, coef))
    {
      if side.Decode? {
        ModelledDecodeRecovers(model, gpu, run, p, coef, prior, dtype);
      } else {
        ModelledPrefillRecovers(model, gpu, run, p, coef, prior, limit);
      }
    }
  }

  /**
   Calibration recovers the model that produced its runs: if more than half of the attempts on one side
   come from modelled steps in the right regime, sharing a plausible coefficient and the prior's overhead,
   the calibrated coefficient is the true one, whatever the remaining points hold.
   */
  lemma CalibrationRecoversTruth(side: Side, model: Model, gpu: Gpu, runs: seq<Run>, coef: Coefficients,
                                 prior: Coefficients, dtype: DType, limit: int)
    requires ValidModel(model) && ValidGpu(gpu) && ValidCoefficients(coef) && forall r :: r in runs ==> r.tp >= 1
    requires coef.fixedOverhead == prior.fixedOverhead && Truth(side, coef) >= MIN_PLAUSIBLE
    requires 2 * RunsPassing(runs, Modelled(side, model, gpu, coef, dtype, limit))
             > RunsPassing(runs, Attempted(side, model, gpu, prior, limit))
    ensures Truth(side, Fitted(FoldRuns(model, gpu, runs, prior, limit), prior)) == Truth(side, coef)
  {
    hide FoldRuns, RunsPassing, Modelled, Attempted, Tells, Median;
    var v := Truth(side, coef);
    ModelledTells(side, model, gpu, coef, prior, dtype, limit);
    RunsTally(side, model, gpu, runs, prior, limit, Modelled(side, model, gpu, coef, dtype, limit), v);
    MajorityCalibrates(FoldRuns(model, gpu, runs, prior, limit), prior, v);
  }
}
