/** The two-coefficient performance model (estimator/roofline.py). */
module Roofline {
  import opened Results
  import opened Arithmetic
  import opened RealArithmetic
  import opened DTypes
  import opened Profiles

  datatype Coefficients = Coefficients(mfu: real, mbu: real, fixedOverhead: real, samples: int)

  /** What the dataclass constructor demands. */
  predicate ValidCoefficients(coef: Coefficients) {
    && 0.0 < coef.mfu <= 1.0 && 0.0 < coef.mbu <= 1.0
    && coef.fixedOverhead >= 0.0 && coef.samples >= 0
  }

  const ALL_DTYPES: seq<DType> := [FP32, FP16, BF16, FP8_E4M3, FP8_E5M2, INT8, FP4, NVFP4, INT4]

  function BestFlops(flops: map<DType, real>, dtypes: seq<DType>): real {
    if dtypes == [] then 0.0
    else
      var rest := BestFlops(flops, dtypes[1..]);
      if dtypes[0] in flops then MaxReal(flops[dtypes[0]], rest) else rest
  }

  lemma {:induction false} BestFlopsIsUpperBound(flops: map<DType, real>, dtypes: seq<DType>, d: DType)
    requires d in dtypes && d in flops
    ensures BestFlops(flops, dtypes) >= flops[d]
    decreases |dtypes|
  {
    if dtypes[0] != d { BestFlopsIsUpperBound(flops, dtypes[1..], d); }
  }

  lemma EveryDtypeListed(d: DType)
    ensures d in ALL_DTYPES
  {
    var index := match d
      case FP32 => 0 case FP16 => 1 case BF16 => 2 case FP8_E4M3 => 3 case FP8_E5M2 => 4
      case INT8 => 5 case FP4 => 6 case NVFP4 => 7 case INT4 => 8;
    assert ALL_DTYPES[index] == d;
  }

  lemma BestFlopsPositive(gpu: Gpu)
    requires ValidGpu(gpu)
    ensures BestFlops(gpu.denseFlops, ALL_DTYPES) > 0.0
    ensures forall d | d in gpu.denseFlops :: gpu.denseFlops[d] <= BestFlops(gpu.denseFlops, ALL_DTYPES)
  {
    forall d | d in gpu.denseFlops ensures gpu.denseFlops[d] <= BestFlops(gpu.denseFlops, ALL_DTYPES) {
      EveryDtypeListed(d);
      BestFlopsIsUpperBound(gpu.denseFlops, ALL_DTYPES, d);
    }
    var some :| some in gpu.denseFlops;
  }

  /** Peak throughput, falling back to the device's fastest listed type when this one is absent. */
  function PeakFlops(gpu: Gpu, dtype: DType): (p: real)
    requires ValidGpu(gpu)
    ensures p > 0.0
  {
    if dtype in gpu.denseFlops then gpu.denseFlops[dtype]
    else
      BestFlopsPositive(gpu);
      BestFlops(gpu.denseFlops, ALL_DTYPES)
  }

  function AchievableFlops(gpu: Gpu, dtype: DType, mfu: real): (a: real)
    requires ValidGpu(gpu) && mfu > 0.0
    ensures a > 0.0
  {
    MulPositive(PeakFlops(gpu, dtype), mfu);
    PeakFlops(gpu, dtype) * mfu
  }

  /** Bytes per second the decode loop really achieves. */
  function Bandwidth(gpu: Gpu, mbu: real): (b: real)
    requires ValidGpu(gpu) && mbu > 0.0
    ensures b > 0.0
  {
    MulPositive(gpu.bandwidth, mbu);
    gpu.bandwidth * mbu
  }

  /** Two all-reduces per layer, each moving 2(n-1)/n of its payload around the ring. */
  function RingCalls(model: Model, tp: nat): (c: real)
    requires tp >= 1
    ensures c >= 0.0
  {
    DivNonNegative((2 * (tp - 1)) as real, tp as real);
    MulNonNegative((2 * model.nLayers) as real, (2 * (tp - 1)) as real / tp as real);
    (2 * model.nLayers) as real * ((2 * (tp - 1)) as real / tp as real)
  }

  /** Bytes one token contributes to an all-reduce; sub-byte types contribute none. */
  function TokenWidth(model: Model, dtype: DType): nat { model.hidden * (dtype.Bits() / 8) }

  function ReduceLatency(gpu: Gpu, model: Model, tp: nat): real {
    if tp <= 1 || gpu.link.bytesPerSecond <= 0.0 then 0.0 else (2 * model.nLayers) as real * gpu.link.latency
  }

  /** All-reduce cost of one step: a ring transfer of the payload, and a fixed latency per call. */
  function CommunicationTime(gpu: Gpu, model: Model, tokens: nat, tp: nat, dtype: DType): real
    requires ValidGpu(gpu) && tp >= 1
  {
    if tp <= 1 then 0.0
    else if gpu.link.bytesPerSecond <= 0.0 then 0.0
    else
      RingCalls(model, tp) * (tokens * TokenWidth(model, dtype)) as real / gpu.link.bytesPerSecond
      + ReduceLatency(gpu, model, tp)
  }

  datatype Bound = MEMORY | COMPUTE | COMMUNICATION

  datatype Step = Step(tMemory: real, tCompute: real, tComm: real, tFixed: real, bytesMoved: int, flops: real) {
    function Bound(): Bound {
      if tComm > MaxReal(tMemory, tCompute) then COMMUNICATION
      else if tCompute > tMemory then COMPUTE else MEMORY
    }

    /** The longer of the two overlapped parts, then what cannot overlap with them. */
    function Total(): real { MaxReal(tMemory, tCompute) + tComm + tFixed }
  }

  function DecodeBytes(model: Model, batch: nat, context: nat, kvPerToken: nat, tp: nat): nat
    requires tp >= 1
  {
    WeightBytesPerGpu(model, tp) + batch * context * kvPerToken
  }

  /** Two operations per active parameter per token. */
  function FlopsPerToken(model: Model): real { 2.0 * model.paramsActive as real }

  function DecodeFlops(model: Model, batch: nat, tp: nat): real
    requires tp >= 1
  {
    FlopsPerToken(model) * batch as real / tp as real
  }

  function ReadSeconds(gpu: Gpu, bytes: nat, mbu: real): real
    requires ValidGpu(gpu) && mbu > 0.0
  {
    bytes as real / Bandwidth(gpu, mbu)
  }

  function ComputeSeconds(gpu: Gpu, flops: real, dtype: DType, mfu: real): real
    requires ValidGpu(gpu) && mfu > 0.0
  {
    flops / AchievableFlops(gpu, dtype, mfu)
  }

  function DecodeStep(model: Model, gpu: Gpu, batch: int, context: int, kvPerToken: nat, tp: nat,
                      coef: Coefficients, dtype: DType): Result<Step>
    requires ValidGpu(gpu) && tp >= 1 && ValidCoefficients(coef)
  {
    if batch < 1 || context < 0 then Err(ValueError)
    else
      var bytes := DecodeBytes(model, batch, context, kvPerToken, tp);
      var flops := DecodeFlops(model, batch, tp);
      Ok(Step(ReadSeconds(gpu, bytes, coef.mbu), ComputeSeconds(gpu, flops, dtype, coef.mfu),
              CommunicationTime(gpu, model, batch, tp, dtype), coef.fixedOverhead, bytes, flops))
  }

  function PrefillFlops(model: Model, tokens: nat, tp: nat): real
    requires tp >= 1
  {
    (2.0 * model.paramsActive as real * tokens as real
     + 4.0 * model.nLayers as real * model.hidden as real * tokens as real * tokens as real) / tp as real
  }

  function PrefillStep(model: Model, gpu: Gpu, tokens: int, tp: nat, coef: Coefficients, dtype: DType): Result<Step>
    requires ValidGpu(gpu) && tp >= 1 && ValidCoefficients(coef)
  {
    if tokens < 1 then Err(ValueError)
    else
      var flops := PrefillFlops(model, tokens, tp);
      var bytes := WeightBytesPerGpu(model, tp);
      Ok(Step(ReadSeconds(gpu, bytes, coef.mbu), ComputeSeconds(gpu, flops, dtype, coef.mfu),
              CommunicationTime(gpu, model, tokens, tp, dtype), coef.fixedOverhead, bytes, flops))
  }

  function CriticalBatch(gpu: Gpu, dtype: DType, coef: Coefficients): real
    requires ValidGpu(gpu) && ValidCoefficients(coef)
  {
    AchievableFlops(gpu, dtype, coef.mfu) / Bandwidth(gpu, coef.mbu)
  }

  /** Output tokens per second of a decode step; zero when the step takes no time. */
  function Throughput(batch: nat, step: Step): real {
    if step.Total() > 0.0 then batch as real / step.Total() else 0.0
  }

  // ---------------------------------------------------------------- the shape of a decode step

  /**
   The four rates behind a decode step: seconds to read the weights, to read one sequence's cache,
   to compute one token, and to reduce one token across ranks.
   */
  datatype Rates = Rates(weights: real, cache: real, compute: real, reduce: real, latency: real, fixedCost: real) {
    ghost predicate Valid() {
      weights >= 0.0 && cache >= 0.0 && compute > 0.0 && reduce >= 0.0 && latency >= 0.0 && fixedCost >= 0.0
    }

    function Memory(b: real): real { weights + b * cache }

    function Compute(b: real): real { b * compute }

    function Reduce(b: real): real { b * reduce + latency }

    function Time(b: real): real { MaxReal(Memory(b), Compute(b)) + Reduce(b) + fixedCost }
  }

  function ReduceRate(gpu: Gpu, model: Model, tp: nat, dtype: DType): real
    requires ValidGpu(gpu) && tp >= 1
  {
    if tp <= 1 || gpu.link.bytesPerSecond <= 0.0 then 0.0
    else RingCalls(model, tp) * TokenWidth(model, dtype) as real / gpu.link.bytesPerSecond
  }

  function RatesOf(model: Model, gpu: Gpu, context: nat, kvPerToken: nat, tp: nat, coef: Coefficients, dtype: DType): Rates
    requires ValidModel(model) && ValidGpu(gpu) && tp >= 1 && ValidCoefficients(coef)
  {
    Rates(ReadSeconds(gpu, WeightBytesPerGpu(model, tp), coef.mbu),
          ReadSeconds(gpu, context * kvPerToken, coef.mbu),
          ComputeSeconds(gpu, FlopsPerToken(model) / tp as real, dtype, coef.mfu),
          ReduceRate(gpu, model, tp, dtype),
          ReduceLatency(gpu, model, tp),
          coef.fixedOverhead)
  }

  lemma RatesAreValid(model: Model, gpu: Gpu, context: nat, kvPerToken: nat, tp: nat, coef: Coefficients, dtype: DType)
    requires ValidModel(model) && ValidGpu(gpu) && tp >= 1 && ValidCoefficients(coef)
    ensures RatesOf(model, gpu, context, kvPerToken, tp, coef, dtype).Valid()
    ensures RatesOf(model, gpu, context, kvPerToken, tp, coef, dtype).weights > 0.0
  {
    hide ReadSeconds, ComputeSeconds, ReduceRate, ReduceLatency, WeightBytesPerGpu;
    WeightsArePositive(model, tp);
    ReadSecondsSign(gpu, WeightBytesPerGpu(model, tp), coef.mbu);
    ReadSecondsSign(gpu, context * kvPerToken, coef.mbu);
    DivPositive(FlopsPerToken(model), tp as real);
    ComputeSecondsSign(gpu, FlopsPerToken(model) / tp as real, dtype, coef.mfu);
    ReduceIsNonNegative(gpu, model, tp, dtype);
  }

  lemma WeightsArePositive(model: Model, tp: nat)
    requires ValidModel(model) && tp >= 1
    ensures WeightBytesPerGpu(model, tp) >= 1
  {
    CeilDivGalois(model.weightBytes, tp, 0);
  }

  lemma ReadSecondsSign(gpu: Gpu, bytes: nat, mbu: real)
    requires ValidGpu(gpu) && mbu > 0.0
    ensures ReadSeconds(gpu, bytes, mbu) >= 0.0 && (bytes > 0 ==> ReadSeconds(gpu, bytes, mbu) > 0.0)
    ensures bytes == 0 ==> ReadSeconds(gpu, bytes, mbu) == 0.0
  {
    DivNonNegative(bytes as real, Bandwidth(gpu, mbu));
    if bytes > 0 { DivPositive(bytes as real, Bandwidth(gpu, mbu)); }
  }

  lemma ComputeSecondsSign(gpu: Gpu, flops: real, dtype: DType, mfu: real)
    requires ValidGpu(gpu) && mfu > 0.0 && flops > 0.0
    ensures ComputeSeconds(gpu, flops, dtype, mfu) > 0.0
  {
    DivPositive(flops, AchievableFlops(gpu, dtype, mfu));
  }

  lemma ReduceIsNonNegative(gpu: Gpu, model: Model, tp: nat, dtype: DType)
    requires ValidGpu(gpu) && tp >= 1
    ensures ReduceRate(gpu, model, tp, dtype) >= 0.0 && ReduceLatency(gpu, model, tp) >= 0.0
  {
    MulNonNegative((2 * model.nLayers) as real, gpu.link.latency);
    if tp > 1 && gpu.link.bytesPerSecond > 0.0 {
      MulNonNegative(RingCalls(model, tp), TokenWidth(model, dtype) as real);
      DivNonNegative(RingCalls(model, tp) * TokenWidth(model, dtype) as real, gpu.link.bytesPerSecond);
    }
  }

  lemma CommunicationIsAffine(gpu: Gpu, model: Model, tokens: nat, tp: nat, dtype: DType)
    requires ValidGpu(gpu) && tp >= 1
    ensures CommunicationTime(gpu, model, tokens, tp, dtype)
            == tokens as real * ReduceRate(gpu, model, tp, dtype) + ReduceLatency(gpu, model, tp)
  {
    hide RingCalls, TokenWidth;
    if tp > 1 && gpu.link.bytesPerSecond > 0.0 {
      PerTokenPayload(RingCalls(model, tp), tokens, TokenWidth(model, dtype), gpu.link.bytesPerSecond);
    }
  }

  lemma PerTokenPayload(c: real, tokens: nat, width: nat, speed: real)
    requires speed > 0.0
    ensures c * (tokens * width) as real / speed == tokens as real * (c * width as real / speed)
  {
    assert (tokens * width) as real == tokens as real * width as real;
    RegroupPayload(c, tokens as real, width as real);
    MulDiv(tokens as real, c * width as real, speed);
  }

  lemma RegroupPayload(c: real, b: real, w: real)
    ensures c * (b * w) == b * (c * w)
  {}

  /** A decode step is its rates applied to the batch. */
  lemma DecodeFollowsRates(model: Model, gpu: Gpu, batch: int, context: int, kvPerToken: nat, tp: nat,
                           coef: Coefficients, dtype: DType)
    requires ValidModel(model) && ValidGpu(gpu) && tp >= 1 && ValidCoefficients(coef) && batch >= 1 && context >= 0
    ensures var step := DecodeStep(model, gpu, batch, context, kvPerToken, tp, coef, dtype);
            var r := RatesOf(model, gpu, context, kvPerToken, tp, coef, dtype);
            && step.Ok?
            && step.value.tMemory == r.Memory(batch as real)
            && step.value.tCompute == r.Compute(batch as real)
            && step.value.Total() == r.Time(batch as real)
  {
    hide CommunicationTime, ReduceRate, ReduceLatency, ReadSeconds, ComputeSeconds, DecodeBytes, DecodeFlops,
      FlopsPerToken;
    ReadFollows(gpu, model, batch, context, kvPerToken, tp, coef.mbu);
    ComputeFollows(gpu, model, batch, tp, dtype, coef.mfu);
    CommunicationIsAffine(gpu, model, batch, tp, dtype);
  }

  lemma ReadFollows(gpu: Gpu, model: Model, batch: nat, context: nat, kvPerToken: nat, tp: nat, mbu: real)
    requires ValidGpu(gpu) && tp >= 1 && mbu > 0.0
    ensures ReadSeconds(gpu, DecodeBytes(model, batch, context, kvPerToken, tp), mbu)
            == ReadSeconds(gpu, WeightBytesPerGpu(model, tp), mbu)
               + batch as real * ReadSeconds(gpu, context * kvPerToken, mbu)
  {
    Reassociate(batch, context, kvPerToken);
    ReadTimeOf(WeightBytesPerGpu(model, tp), batch, context * kvPerToken, Bandwidth(gpu, mbu));
  }

  lemma ReadTimeOf(w: nat, batch: nat, kv: nat, bw: real)
    requires bw > 0.0
    ensures (w + batch * kv) as real / bw == w as real / bw + batch as real * (kv as real / bw)
  {
    assert (w + batch * kv) as real == w as real + batch as real * kv as real;
    DivDistributes(w as real, batch as real * kv as real, bw);
    MulDiv(batch as real, kv as real, bw);
  }

  lemma ComputeFollows(gpu: Gpu, model: Model, batch: nat, tp: nat, dtype: DType, mfu: real)
    requires ValidGpu(gpu) && tp >= 1 && mfu > 0.0
    ensures ComputeSeconds(gpu, DecodeFlops(model, batch, tp), dtype, mfu)
            == batch as real * ComputeSeconds(gpu, FlopsPerToken(model) / tp as real, dtype, mfu)
  {
    var p, b, t, ach := FlopsPerToken(model), batch as real, tp as real, AchievableFlops(gpu, dtype, mfu);
    hide FlopsPerToken, AchievableFlops;
    ComputeTimeOf(p, b, t, ach);
    assert DecodeFlops(model, batch, tp) == p * b / t;
    assert ComputeSeconds(gpu, p * b / t, dtype, mfu) == (p * b / t) / ach;
    assert ComputeSeconds(gpu, p / t, dtype, mfu) == (p / t) / ach;
  }

  lemma ComputeTimeOf(p: real, b: real, t: real, ach: real)
    requires t > 0.0 && ach > 0.0
    ensures (p * b / t) / ach == b * ((p / t) / ach)
  {
    assert p * b == b * p;
    MulDiv(b, p, t);
    MulDiv(b, p / t, ach);
  }

  lemma PartsMonotone(r: Rates, b: real, b': real)
    requires r.Valid() && 0.0 < b <= b'
    ensures r.Memory(b) <= r.Memory(b') && r.Reduce(b) <= r.Reduce(b')
    ensures r.Compute(b) <= r.Compute(b')
    ensures r.Compute(b) > 0.0 && r.Reduce(b) >= 0.0
  {
    MulLe(b, b', r.cache);
    MulLe(b, b', r.compute);
    MulLe(b, b', r.reduce);
    MulPositive(b, r.compute);
    MulNonNegative(b, r.reduce);
  }

  lemma TimeMonotone(r: Rates, b: real, b': real)
    requires r.Valid() && 0.0 < b <= b'
    ensures r.Time(b) <= r.Time(b')
    ensures r.Time(b) >= r.Compute(b) > 0.0
  {
    PartsMonotone(r, b, b');
    hide Rates.Memory, Rates.Compute, Rates.Reduce;
  }

  /** Time per sequence falls as the batch grows, in cross-multiplied form. */
  lemma TimePerSequenceFalls(r: Rates, b: real, b': real)
    requires r.Valid() && 0.0 < b <= b'
    ensures b * r.Time(b') <= b' * r.Time(b)
  {
    hide Rates.Memory, Rates.Compute, Rates.Reduce;
    OverlapPerSequenceFalls(r, b, b');
    ReducePerSequenceFalls(r, b, b');
    MulLe(b, b', r.fixedCost);
    SumScaled(b, b', MaxReal(r.Memory(b'), r.Compute(b')), MaxReal(r.Memory(b), r.Compute(b)),
              r.Reduce(b'), r.Reduce(b), r.fixedCost);
  }

  lemma ReducePerSequenceFalls(r: Rates, b: real, b': real)
    requires r.Valid() && 0.0 < b <= b'
    ensures b * r.Reduce(b') <= b' * r.Reduce(b)
  {
    MulLe(b, b', r.latency);
    Spread(b, b', r.latency, r.reduce);
  }

  lemma OverlapPerSequenceFalls(r: Rates, b: real, b': real)
    requires r.Valid() && 0.0 < b <= b'
    ensures b * MaxReal(r.Memory(b'), r.Compute(b')) <= b' * MaxReal(r.Memory(b), r.Compute(b))
  {
    hide Rates.Memory, Rates.Compute;
    PartsPerSequenceFall(r, b, b');
    MaxScaled(b, b', r.Memory(b), r.Memory(b'), r.Compute(b), r.Compute(b'));
  }

  lemma MaxScaled(b: real, b': real, m: real, m': real, c: real, c': real)
    requires b' >= 0.0 && b * m' <= b' * m && b * c' == b' * c
    ensures b * MaxReal(m', c') <= b' * MaxReal(m, c)
  {
    MulLe(m, MaxReal(m, c), b');
    MulLe(c, MaxReal(m, c), b');
  }

  lemma PartsPerSequenceFall(r: Rates, b: real, b': real)
    requires r.Valid() && 0.0 < b <= b'
    ensures b * r.Memory(b') <= b' * r.Memory(b)
    ensures b * r.Compute(b') == b' * r.Compute(b)
  {
    MulLe(b, b', r.weights);
    Spread(b, b', r.weights, r.cache);
    RegroupPayload(b, b', r.compute);
  }

  lemma SumScaled(b: real, b': real, x: real, x': real, y: real, y': real, z: real)
    requires b * x <= b' * x' && b * y <= b' * y' && b * z <= b' * z
    ensures b * (x + y + z) <= b' * (x' + y' + z)
  {}

  lemma Spread(b: real, b': real, w: real, k: real)
    requires b * w <= b' * w
    ensures b * (w + b' * k) <= b' * (w + b * k)
    ensures b * (b' * k + w) <= b' * (b * k + w)
  {}

  /** More sequences: a longer step, yet never fewer tokens per second, and never more than compute allows. */
  lemma DecodeShape(model: Model, gpu: Gpu, batch: int, batch': int, context: int, kvPerToken: nat, tp: nat,
                    coef: Coefficients, dtype: DType)
    requires ValidModel(model) && ValidGpu(gpu) && tp >= 1 && ValidCoefficients(coef)
    requires 1 <= batch <= batch' && context >= 0
    ensures var s := DecodeStep(model, gpu, batch, context, kvPerToken, tp, coef, dtype);
            var s' := DecodeStep(model, gpu, batch', context, kvPerToken, tp, coef, dtype);
            && s.Ok? && s'.Ok?
            && s.value.Total() <= s'.value.Total()
            && Throughput(batch, s.value) <= Throughput(batch', s'.value)
            && Throughput(batch', s'.value)
               <= AchievableFlops(gpu, dtype, coef.mfu) * tp as real / FlopsPerToken(model)
  {
    assert FlopsPerToken(model) > 0.0;
    hide DecodeStep, AchievableFlops, FlopsPerToken, ReadSeconds, ReduceRate, ReduceLatency;
    var r := RatesOf(model, gpu, context, kvPerToken, tp, coef, dtype);
    var b, b' := batch as real, batch' as real;
    RatesAreValid(model, gpu, context, kvPerToken, tp, coef, dtype);
    DecodeFollowsRates(model, gpu, batch, context, kvPerToken, tp, coef, dtype);
    DecodeFollowsRates(model, gpu, batch', context, kvPerToken, tp, coef, dtype);
    TimeMonotone(r, b, b');
    TimeMonotone(r, b', b');
    ThroughputMonotone(r, b, b');
    ComputeCeiling(r, b', FlopsPerToken(model), tp as real, AchievableFlops(gpu, dtype, coef.mfu));
  }

  lemma TimePositive(r: Rates, b: real)
    requires r.Valid() && b > 0.0
    ensures r.Time(b) > 0.0
  {
    TimeMonotone(r, b, b);
  }

  lemma ThroughputMonotone(r: Rates, b: real, b': real)
    requires r.Valid() && 0.0 < b <= b'
    ensures r.Time(b) > 0.0 && r.Time(b') > 0.0 && b / r.Time(b) <= b' / r.Time(b')
  {
    hide Rates.Time;
    TimePositive(r, b);
    TimePositive(r, b');
    TimePerSequenceFalls(r, b, b');
    CrossLe(b, r.Time(b), b', r.Time(b'));
  }

  lemma ComputeCeiling(r: Rates, b: real, p: real, t: real, ach: real)
    requires b > 0.0 && p > 0.0 && t > 0.0 && ach > 0.0 && r.compute == (p / t) / ach
    requires r.Time(b) >= r.Compute(b) > 0.0
    ensures b / r.Time(b) <= ach * t / p
  {
    var c := r.compute;
    DivCancels(p / t, ach);
    DivCancels(p, t);
    assert c * (ach * t) == p;
    MulPositive(ach, t);
    MulLe(b * c, r.Time(b), ach * t);
    assert b * c * (ach * t) == b * p;
    CrossLe(b, r.Time(b), ach * t, p);
  }

  // ---------------------------------------------------------------- the critical batch size

  lemma CriticalBatchRates(w: real, p: real, t: real, ach: real, bw: real, b: real)
    requires p > 0.0 && t > 0.0 && ach > 0.0 && bw > 0.0 && w * t >= p
    ensures b * ((p / t) / ach) > w / bw ==> b > ach / bw
    ensures w * t == p && b > ach / bw ==> b * ((p / t) / ach) > w / bw
  {
    var c := (p / t) / ach;
    DivCancels(p / t, ach);
    DivCancels(p, t);
    DivPositive(p, t);
    assert c * ach == p / t;
    DivLe(p, t, w);
    assert p / t <= w;
    DivCancels(w, bw);
    DivCancels(ach, bw);
    DivPositive(p / t, ach);
    if b <= ach / bw {
      MulLe(b, ach / bw, c);
      assert (ach / bw) * c * bw == p / t;
      MulLe(b * c, (ach / bw) * c, bw);
      DivLe(w, bw, b * c);
    }
    if w * t == p && b > ach / bw {
      MulLt(ach / bw, b, c);
      assert (ach / bw) * c * bw == p / t;
      DivIs(p, t, w);
      MulLt((ach / bw) * c, b * c, bw);
      DivLe(w, bw, b * c);
      if w / bw >= b * c { MulLe(b * c, w / bw, bw); }
    }
  }

  /**
   With two-byte weights, a step that computes longer than it reads lies past the critical batch
   size; with no context and one rank that is also sufficient.
   */
  lemma ComputeBoundPastCritical(model: Model, gpu: Gpu, batch: int, context: int, kvPerToken: nat, tp: nat,
                                 coef: Coefficients, dtype: DType)
    requires ValidModel(model) && ValidGpu(gpu) && tp >= 1 && ValidCoefficients(coef)
    requires batch >= 1 && context >= 0 && model.weightBytes == 2 * model.paramsActive
    ensures var s := DecodeStep(model, gpu, batch, context, kvPerToken, tp, coef, dtype);
            && s.Ok?
            && (s.value.tCompute > s.value.tMemory ==> batch as real > CriticalBatch(gpu, dtype, coef))
            && (context == 0 && tp == 1 ==>
                  (s.value.tCompute > s.value.tMemory <==> batch as real > CriticalBatch(gpu, dtype, coef)))
  {
    hide DecodeStep, ReadSeconds, ComputeSeconds, ReduceRate, ReduceLatency, CriticalBatch, FlopsPerToken, WeightBytesPerGpu;
    var r := RatesOf(model, gpu, context, kvPerToken, tp, coef, dtype);
    var b := batch as real;
    RatesAreValid(model, gpu, context, kvPerToken, tp, coef, dtype);
    DecodeFollowsRates(model, gpu, batch, context, kvPerToken, tp, coef, dtype);
    MulNonNegative(b, r.cache);
    ReadSecondsSign(gpu, context * kvPerToken, coef.mbu);
    CriticalBatchOfModel(model, gpu, b, tp, coef, dtype);
  }

  lemma CriticalBatchOfModel(model: Model, gpu: Gpu, b: real, tp: nat, coef: Coefficients, dtype: DType)
    requires ValidModel(model) && ValidGpu(gpu) && tp >= 1 && ValidCoefficients(coef)
    requires model.weightBytes == 2 * model.paramsActive
    ensures var weights := ReadSeconds(gpu, WeightBytesPerGpu(model, tp), coef.mbu);
            var compute := ComputeSeconds(gpu, FlopsPerToken(model) / tp as real, dtype, coef.mfu);
            && (b * compute > weights ==> b > CriticalBatch(gpu, dtype, coef))
            && (tp == 1 && b > CriticalBatch(gpu, dtype, coef) ==> b * compute > weights)
  {
    ShardsCoverWeights(model, tp);
    assert FlopsPerToken(model) > 0.0;
    hide AchievableFlops, Bandwidth, WeightBytesPerGpu, FlopsPerToken;
    CriticalBatchRates(WeightBytesPerGpu(model, tp) as real, FlopsPerToken(model), tp as real,
                       AchievableFlops(gpu, dtype, coef.mfu), Bandwidth(gpu, coef.mbu), b);
  }

  /** Two-byte weights weigh as much as a token's operations; sharding rounds up. */
  lemma ShardsCoverWeights(model: Model, tp: nat)
    requires tp >= 1 && model.weightBytes == 2 * model.paramsActive
    ensures WeightBytesPerGpu(model, tp) as real * tp as real >= FlopsPerToken(model)
    ensures tp == 1 ==> WeightBytesPerGpu(model, tp) as real * tp as real == FlopsPerToken(model)
  {
    var w := WeightBytesPerGpu(model, tp);
    assert (w * tp) as real == w as real * tp as real;
  }

  /** If reading one sequence's cache takes as long as computing its token, no batch is compute-bound. */
  lemma NeverComputeBound(model: Model, gpu: Gpu, batch: int, context: int, kvPerToken: nat, tp: nat,
                          coef: Coefficients, dtype: DType)
    requires ValidModel(model) && ValidGpu(gpu) && tp >= 1 && ValidCoefficients(coef) && batch >= 1 && context >= 0
    requires var r := RatesOf(model, gpu, context, kvPerToken, tp, coef, dtype); r.cache >= r.compute
    ensures var s := DecodeStep(model, gpu, batch, context, kvPerToken, tp, coef, dtype);
            s.Ok? && s.value.tCompute < s.value.tMemory && !s.value.Bound().COMPUTE?
  {
    hide DecodeStep, RatesOf;
    var r := RatesOf(model, gpu, context, kvPerToken, tp, coef, dtype);
    RatesAreValid(model, gpu, context, kvPerToken, tp, coef, dtype);
    DecodeFollowsRates(model, gpu, batch, context, kvPerToken, tp, coef, dtype);
    MulLe(r.compute, r.cache, batch as real);
  }

  /** The first whole batch past the crossing of the two lines. */
  function CrossingBatch(r: Rates): int
    requires r.compute > r.cache
  {
    (r.weights / (r.compute - r.cache)).Floor + 1
  }

  lemma CrossingComputes(r: Rates)
    requires r.Valid() && r.compute > r.cache
    ensures CrossingBatch(r) >= 1
    ensures r.Compute(CrossingBatch(r) as real) > r.Memory(CrossingBatch(r) as real)
  {
    var d := r.compute - r.cache;
    DivNonNegative(r.weights, d);
    DivCancels(r.weights, d);
    PastTheCrossing(r.weights, r.cache, r.compute, r.weights / d, CrossingBatch(r) as real);
  }

  lemma PastTheCrossing(w: real, cache: real, compute: real, q: real, b: real)
    requires compute > cache && q * (compute - cache) == w && q < b
    ensures b * compute > w + b * cache
  {
    MulLt(q, b, compute - cache);
    SplitDifference(compute, cache, b);
    assert b * (compute - cache) > w;
  }

  lemma SplitDifference(a: real, c: real, b: real)
    ensures b * (a - c) == b * a - b * c
  {}

  /**
   Decode stays memory-bound at every batch exactly when a sequence's cache takes at least as long to
   read as its token takes to compute; otherwise some batch is compute-bound.
   */
  lemma NeverComputeBoundExactly(model: Model, gpu: Gpu, context: int, kvPerToken: nat, tp: nat,
                                 coef: Coefficients, dtype: DType)
    requires ValidModel(model) && ValidGpu(gpu) && tp >= 1 && ValidCoefficients(coef) && context >= 0
    ensures var r := RatesOf(model, gpu, context, kvPerToken, tp, coef, dtype);
            (forall batch: int :: batch >= 1 ==>
               var s := DecodeStep(model, gpu, batch, context, kvPerToken, tp, coef, dtype);
               s.Ok? && s.value.tCompute <= s.value.tMemory)
            <==> r.cache >= r.compute
  {
    hide DecodeStep, RatesOf;
    var r := RatesOf(model, gpu, context, kvPerToken, tp, coef, dtype);
    RatesAreValid(model, gpu, context, kvPerToken, tp, coef, dtype);
    if r.cache >= r.compute {
      forall batch: int | batch >= 1
        ensures var s := DecodeStep(model, gpu, batch, context, kvPerToken, tp, coef, dtype);
                s.Ok? && s.value.tCompute <= s.value.tMemory
      {
        NeverComputeBound(model, gpu, batch, context, kvPerToken, tp, coef, dtype);
      }
    } else {
      CrossingComputes(r);
      DecodeFollowsRates(model, gpu, CrossingBatch(r), context, kvPerToken, tp, coef, dtype);
    }
  }

  // ---------------------------------------------------------------- what each figure of a step is

  lemma PrefillTimesRanks(model: Model, n: nat, tp: nat)
    requires tp >= 1
    ensures PrefillFlops(model, n, tp) * tp as real
            == 2.0 * model.paramsActive as real * n as real
               + 4.0 * model.nLayers as real * model.hidden as real * n as real * n as real
  {
    DivCancels(2.0 * model.paramsActive as real * n as real
               + 4.0 * model.nLayers as real * model.hidden as real * n as real * n as real, tp as real);
  }

  /** Two prompts joined cost both and the attention between them: every new token against every old one, both ways. */
  lemma PrefillJoins(model: Model, m: nat, n: nat, tp: nat)
    requires tp >= 1
    ensures PrefillFlops(model, m + n, tp) * tp as real
            == PrefillFlops(model, m, tp) * tp as real + PrefillFlops(model, n, tp) * tp as real
               + 8.0 * model.nLayers as real * model.hidden as real * m as real * n as real
  {
    PrefillTimesRanks(model, m, tp);
    PrefillTimesRanks(model, n, tp);
    PrefillTimesRanks(model, m + n, tp);
    hide PrefillFlops;
    JoinSquares(2.0 * model.paramsActive as real, 4.0 * model.nLayers as real * model.hidden as real, m as real, n as real);
    assert (m + n) as real == m as real + n as real;
    assert 8.0 * model.nLayers as real * model.hidden as real == 2.0 * (4.0 * model.nLayers as real * model.hidden as real);
  }

  lemma JoinSquares(a: real, k: real, x: real, y: real)
    ensures a * (x + y) + k * (x + y) * (x + y) == (a * x + k * x * x) + (a * y + k * y * y) + 2.0 * k * x * y
  {}

  /** Without attention layers a prompt costs what decoding its tokens would. */
  lemma PrefillIsDecodeWithoutAttention(model: Model, n: nat, tp: nat)
    requires tp >= 1 && model.nLayers == 0
    ensures PrefillFlops(model, n, tp) == DecodeFlops(model, n, tp)
  {
    assert 4.0 * model.nLayers as real * model.hidden as real * n as real * n as real == 0.0;
  }

  /** A lone token attends to itself in every layer. */
  lemma PrefillOfOne(model: Model, tp: nat)
    requires tp >= 1
    ensures PrefillFlops(model, 1, tp) * tp as real
            == DecodeFlops(model, 1, tp) * tp as real + (4 * model.nLayers * model.hidden) as real
  {
    PrefillTimesRanks(model, 1, tp);
    DivCancels(FlopsPerToken(model) * 1.0, tp as real);
    assert (4 * model.nLayers * model.hidden) as real == 4.0 * model.nLayers as real * model.hidden as real;
  }

  /** Compute time a token grows with the prompt: a longer prompt takes more than proportionally longer. */
  lemma PrefillIsSuperlinear(model: Model, gpu: Gpu, m: nat, n: nat, tp: nat, coef: Coefficients, dtype: DType)
    requires ValidModel(model) && ValidGpu(gpu) && tp >= 1 && ValidCoefficients(coef) && 1 <= m < n
    ensures var short, long := PrefillStep(model, gpu, m, tp, coef, dtype), PrefillStep(model, gpu, n, tp, coef, dtype);
            && short.Ok? && long.Ok?
            && n as real * short.value.tCompute < m as real * long.value.tCompute
  {
    hide PrefillFlops, AchievableFlops, ReadSeconds, CommunicationTime;
    PrefillFlopsSuperlinear(model, m, n, tp);
    ScaledQuotients(n as real, PrefillFlops(model, m, tp), m as real, PrefillFlops(model, n, tp),
                    AchievableFlops(gpu, dtype, coef.mfu));
  }

  lemma ScaledQuotients(y: real, f: real, x: real, g: real, d: real)
    requires d > 0.0 && y * f < x * g
    ensures y * (f / d) < x * (g / d)
  {
    MulDiv(y, f, d);
    MulDiv(x, g, d);
    DivLt(y * f, x * g, d);
  }

  lemma PrefillFlopsSuperlinear(model: Model, m: nat, n: nat, tp: nat)
    requires ValidModel(model) && tp >= 1 && 1 <= m < n
    ensures n as real * PrefillFlops(model, m, tp) < m as real * PrefillFlops(model, n, tp)
  {
    PrefillTimesRanks(model, m, tp);
    PrefillTimesRanks(model, n, tp);
    AttentionPositive(model);
    hide PrefillFlops;
    SquareDominates(2.0 * model.paramsActive as real, 4.0 * model.nLayers as real * model.hidden as real,
                    m as real, n as real, tp as real, PrefillFlops(model, m, tp), PrefillFlops(model, n, tp));
  }

  lemma AttentionPositive(model: Model)
    requires ValidModel(model)
    ensures 4.0 * model.nLayers as real * model.hidden as real > 0.0
  {
    MulPositive(4.0 * model.nLayers as real, model.hidden as real);
  }

  lemma SquareDominates(a: real, k: real, x: real, y: real, t: real, f: real, g: real)
    requires k > 0.0 && 0.0 < x < y && t > 0.0
    requires f * t == a * x + k * x * x && g * t == a * y + k * y * y
    ensures y * f < x * g
  {
    SquaresCross(a, k, x, y);
    assert (x * g - y * f) * t == k * x * y * (y - x) by { SpreadDifference(x, g, y, f, t); }
    MulPositive(k, x);
    MulPositive(k * x, y);
    MulPositive(k * x * y, y - x);
    PositiveFactor(x * g - y * f, t);
  }

  lemma PositiveFactor(a: real, t: real)
    requires t > 0.0 && a * t > 0.0
    ensures a > 0.0
  {}

  lemma SpreadDifference(x: real, g: real, y: real, f: real, t: real)
    ensures (x * g - y * f) * t == x * (g * t) - y * (f * t)
  {}

  lemma SquaresCross(a: real, k: real, x: real, y: real)
    ensures x * (a * y + k * y * y) - y * (a * x + k * x * x) == k * x * y * (y - x)
  {}

  /** The listed peak of the type, or the highest listed when the type is not. */
  ghost predicate IsPeak(gpu: Gpu, dtype: DType, peak: real) {
    if dtype in gpu.denseFlops then peak == gpu.denseFlops[dtype]
    else (exists d :: d in gpu.denseFlops && gpu.denseFlops[d] == peak)
         && forall d :: d in gpu.denseFlops ==> gpu.denseFlops[d] <= peak
  }

  lemma {:induction false} BestFlopsIsListed(flops: map<DType, real>, dtypes: seq<DType>)
    ensures BestFlops(flops, dtypes) == 0.0 || exists d :: d in flops && flops[d] == BestFlops(flops, dtypes)
    decreases |dtypes|
  {
    if dtypes != [] { BestFlopsIsListed(flops, dtypes[1..]); }
  }

  lemma PeakExactly(gpu: Gpu, dtype: DType)
    requires ValidGpu(gpu)
    ensures IsPeak(gpu, dtype, PeakFlops(gpu, dtype))
  {
    BestFlopsPositive(gpu);
    BestFlopsIsListed(gpu.denseFlops, ALL_DTYPES);
  }

  /** Weights on a rank, rounded up. */
  ghost predicate RankWeights(model: Model, tp: nat, w: int) { (w - 1) * tp < model.weightBytes <= w * tp }

  lemma RankWeightsAre(model: Model, tp: nat)
    requires tp >= 1
    ensures RankWeights(model, tp, WeightBytesPerGpu(model, tp))
  {
    Distribute(WeightBytesPerGpu(model, tp), -1, tp);
  }

  /** The seconds of a step follow from its bytes and operations at the achieved rates. */
  ghost predicate Rated(gpu: Gpu, step: Step, coef: Coefficients, peak: real) {
    && step.tMemory * (gpu.bandwidth * coef.mbu) == step.bytesMoved as real
    && step.tCompute * (peak * coef.mfu) == step.flops
    && step.tFixed == coef.fixedOverhead
  }

  /**
   A decode step in raw figures: it reads the rank's weights once and every sequence's context, and computes
   two operations for each active parameter and sequence, split over the ranks.
   */
  lemma DecodeExactly(model: Model, gpu: Gpu, batch: int, context: int, kvPerToken: nat, tp: nat,
                      coef: Coefficients, dtype: DType) returns (w: nat, peak: real)
    requires ValidGpu(gpu) && tp >= 1 && ValidCoefficients(coef)
    ensures RankWeights(model, tp, w) && IsPeak(gpu, dtype, peak)
    ensures var step := DecodeStep(model, gpu, batch, context, kvPerToken, tp, coef, dtype);
            && (step.Ok? <==> batch >= 1 && context >= 0) && (step.Err? ==> step.error == ValueError)
            && (step.Ok? ==>
                  && Rated(gpu, step.value, coef, peak)
                  && step.value.bytesMoved == w + batch * context * kvPerToken
                  && TwicePerParameter(model, step.value.flops, batch, tp)
                  && step.value.tComm == CommunicationTime(gpu, model, batch, tp, dtype))
  {
    RankWeightsAre(model, tp);
    PeakExactly(gpu, dtype);
    w, peak := WeightBytesPerGpu(model, tp), PeakFlops(gpu, dtype);
    hide PeakFlops, ReadSeconds, ComputeSeconds, RankWeights, IsPeak, CommunicationTime, DecodeFlops, DecodeBytes, Rated,
      TwicePerParameter, WeightBytesPerGpu;
    if batch >= 1 && context >= 0 {
      DecodeBytesAre(model, batch, context, kvPerToken, tp);
      DecodeFlopsTimesRanks(model, batch, tp);
      StepIsRated(gpu, DecodeBytes(model, batch, context, kvPerToken, tp), DecodeFlops(model, batch, tp),
                  CommunicationTime(gpu, model, batch, tp, dtype), coef, dtype);
    }
  }

  ghost predicate TwicePerParameter(model: Model, flops: real, batch: int, tp: nat) {
    flops * tp as real == 2.0 * model.paramsActive as real * batch as real
  }

  lemma DecodeBytesAre(model: Model, batch: nat, context: nat, kvPerToken: nat, tp: nat)
    requires tp >= 1
    ensures DecodeBytes(model, batch, context, kvPerToken, tp)
            == WeightBytesPerGpu(model, tp) + batch * context * kvPerToken
  {}

  lemma StepIsRated(gpu: Gpu, bytes: nat, flops: real, comm: real, coef: Coefficients, dtype: DType)
    requires ValidGpu(gpu) && ValidCoefficients(coef)
    ensures Rated(gpu, Step(ReadSeconds(gpu, bytes, coef.mbu), ComputeSeconds(gpu, flops, dtype, coef.mfu), comm,
                            coef.fixedOverhead, bytes, flops), coef, PeakFlops(gpu, dtype))
  {
    ReadCancels(gpu, bytes, coef.mbu);
    ComputeCancels(gpu, flops, dtype, coef.mfu);
    hide ReadSeconds, ComputeSeconds, PeakFlops;
  }

  lemma DecodeFlopsTimesRanks(model: Model, batch: nat, tp: nat)
    requires tp >= 1
    ensures TwicePerParameter(model, DecodeFlops(model, batch, tp), batch, tp)
  {
    DivCancels(2.0 * model.paramsActive as real * batch as real, tp as real);
  }

  lemma ReadCancels(gpu: Gpu, bytes: nat, mbu: real)
    requires ValidGpu(gpu) && mbu > 0.0
    ensures ReadSeconds(gpu, bytes, mbu) * (gpu.bandwidth * mbu) == bytes as real
  {
    MulPositive(gpu.bandwidth, mbu);
    DivCancels(bytes as real, gpu.bandwidth * mbu);
  }

  lemma ComputeCancels(gpu: Gpu, flops: real, dtype: DType, mfu: real)
    requires ValidGpu(gpu) && mfu > 0.0
    ensures ComputeSeconds(gpu, flops, dtype, mfu) * (PeakFlops(gpu, dtype) * mfu) == flops
  {
    MulPositive(PeakFlops(gpu, dtype), mfu);
    DivCancels(flops, PeakFlops(gpu, dtype) * mfu);
  }

  /** A prefill step in raw figures: weights read once, and the operations of the whole prompt. */
  lemma PrefillExactly(model: Model, gpu: Gpu, tokens: int, tp: nat, coef: Coefficients, dtype: DType)
    returns (w: nat, peak: real)
    requires ValidGpu(gpu) && tp >= 1 && ValidCoefficients(coef)
    ensures RankWeights(model, tp, w) && IsPeak(gpu, dtype, peak)
    ensures var step := PrefillStep(model, gpu, tokens, tp, coef, dtype);
            && (step.Ok? <==> tokens >= 1) && (step.Err? ==> step.error == ValueError)
            && (step.Ok? ==>
                  && Rated(gpu, step.value, coef, peak)
                  && step.value.bytesMoved == w
                  && step.value.flops == PrefillFlops(model, tokens, tp)
                  && step.value.tComm == CommunicationTime(gpu, model, tokens, tp, dtype))
  {
    RankWeightsAre(model, tp);
    PeakExactly(gpu, dtype);
    w, peak := WeightBytesPerGpu(model, tp), PeakFlops(gpu, dtype);
    if tokens >= 1 {
      hide PeakFlops, ReadSeconds, ComputeSeconds, RankWeights, IsPeak, CommunicationTime, PrefillFlops, Rated;
      StepIsRated(gpu, w, PrefillFlops(model, tokens, tp), CommunicationTime(gpu, model, tokens, tp, dtype), coef, dtype);
    }
  }

  /**
   All-reduce time: two calls a layer, each sending 2(n-1)/n of the tokens' hidden states in whole bytes
   around the ring, and paying the link's latency; nothing on one rank or without a link.
   */
  lemma CommunicationExactly(gpu: Gpu, model: Model, tokens: nat, tp: nat, dtype: DType)
    requires ValidGpu(gpu) && tp >= 1
    ensures var t := CommunicationTime(gpu, model, tokens, tp, dtype);
            if tp == 1 || gpu.link.bytesPerSecond <= 0.0 then t == 0.0
            else (t - (2 * model.nLayers) as real * gpu.link.latency) * gpu.link.bytesPerSecond * tp as real
                 == (4 * model.nLayers * (tp - 1)) as real * (tokens * (model.hidden * (dtype.Bits() / 8))) as real
  {
    if tp > 1 && gpu.link.bytesPerSecond > 0.0 {
      RingTimesRanks(model, tp);
      hide RingCalls;
      RingTransfer(RingCalls(model, tp), (tokens * TokenWidth(model, dtype)) as real, gpu.link.bytesPerSecond, tp as real,
                   (4 * model.nLayers * (tp - 1)) as real);
    }
  }

  lemma RingTransfer(calls: real, payload: real, speed: real, t: real, sends: real)
    requires speed > 0.0 && calls * t == sends
    ensures calls * payload / speed * speed * t == sends * payload
  {
    DivCancels(calls * payload, speed);
  }

  lemma RingTimesRanks(model: Model, tp: nat)
    requires tp >= 1
    ensures RingCalls(model, tp) * tp as real == (4 * model.nLayers * (tp - 1)) as real
  {
    DivCancels((2 * (tp - 1)) as real, tp as real);
    var share := (2 * (tp - 1)) as real / tp as real;
    assert (2 * model.nLayers) as real * share * tp as real == (2 * model.nLayers) as real * (share * tp as real);
    assert (2 * model.nLayers) as real * (2 * (tp - 1)) as real == ((2 * model.nLayers) * (2 * (tp - 1))) as real;
    assert (2 * model.nLayers) * (2 * (tp - 1)) == 4 * model.nLayers * (tp - 1);
  }

  /** Throughput over the step is the batch; a step that takes no time has none. */
  lemma ThroughputExactly(batch: nat, step: Step)
    ensures step.Total() > 0.0 ==> Throughput(batch, step) * step.Total() == batch as real
    ensures step.Total() <= 0.0 ==> Throughput(batch, step) == 0.0
  {
    if step.Total() > 0.0 { DivCancels(batch as real, step.Total()); }
  }

  /** The bound names a longest term: communication only when longest of all, compute only when longer than memory. */
  lemma BoundExactly(step: Step)
    ensures step.Bound() == COMMUNICATION <==> step.tComm > step.tMemory && step.tComm > step.tCompute
    ensures step.Bound() == COMPUTE <==> step.tCompute > step.tMemory && step.tCompute >= step.tComm
    ensures step.Total() >= step.tMemory + step.tComm + step.tFixed && step.Total() >= step.tCompute + step.tComm + step.tFixed
    ensures step.Total() == step.tMemory + step.tComm + step.tFixed || step.Total() == step.tCompute + step.tComm + step.tFixed
  {}

  /** A decode step of a real model always takes time, so throughput is never read off a zero. */
  lemma DecodeTakesTime(model: Model, gpu: Gpu, batch: int, context: int, kvPerToken: nat, tp: nat,
                        coef: Coefficients, dtype: DType)
    requires ValidModel(model) && ValidGpu(gpu) && tp >= 1 && ValidCoefficients(coef) && batch >= 1 && context >= 0
    ensures var step := DecodeStep(model, gpu, batch, context, kvPerToken, tp, coef, dtype);
            step.Ok? && step.value.Total() > 0.0
  {
    hide DecodeStep, RatesOf;
    RatesAreValid(model, gpu, context, kvPerToken, tp, coef, dtype);
    DecodeFollowsRates(model, gpu, batch, context, kvPerToken, tp, coef, dtype);
    TimePositive(RatesOf(model, gpu, context, kvPerToken, tp, coef, dtype), batch as real);
  }
}
