/** Models, GPUs and parallelism degrees (core/model.py, core/gpu.py, core/plan.py). */
module Profiles {
  import opened Results
  import opened Arithmetic
  import opened DTypes
  import opened CacheSpecs

  /** An inter-GPU link: bandwidth, and a fixed latency per collective call. */
  datatype Link = Link(bytesPerSecond: real, latency: real)

  datatype Gpu = Gpu(
    vram: nat,
    usable: nat,
    count: nat,
    bandwidth: real,
    denseFlops: map<DType, real>,
    link: Link)

  predicate ValidGpu(gpu: Gpu) {
    && 0 < gpu.usable <= gpu.vram && gpu.count >= 1 && gpu.bandwidth > 0.0
    && gpu.denseFlops != map[] && (forall d | d in gpu.denseFlops :: gpu.denseFlops[d] > 0.0)
    && gpu.link.bytesPerSecond >= 0.0 && gpu.link.latency >= 0.0
  }

  datatype Model = Model(
    cache: CacheSpec,
    weightBytes: nat,
    hidden: nat,
    vocab: nat,
    intermediate: Option<int>,
    maxPosition: nat,
    nLayers: nat,
    paramsTotal: nat,
    paramsActive: nat,
    weightDtype: DType)

  predicate ValidModel(model: Model) {
    && Valid(model.cache) && CacheLayers(model.cache) <= model.nLayers
    && model.weightBytes >= 1 && model.hidden >= 1 && model.vocab >= 1 && model.maxPosition >= 1
    && model.nLayers >= 1 && 1 <= model.paramsActive <= model.paramsTotal
  }

  /** MLP inner width per token, four times the hidden size when unknown. */
  function EffectiveIntermediate(model: Model): (w: nat)
    ensures ValidModel(model) ==> w >= 1
  {
    if model.intermediate.Some? && model.intermediate.value > 0 then model.intermediate.value
    else 4 * model.hidden
  }

  function WeightBytesPerGpu(model: Model, tp: nat): nat
    requires tp >= 1
  {
    CeilDiv(model.weightBytes, tp)
  }

  datatype Parallelism = Parallelism(tensor: nat, pipeline: nat, data: nat) {
    predicate Valid() { tensor >= 1 && pipeline >= 1 && data >= 1 }

    function GpusRequired(): nat { tensor * pipeline * data }
  }
}
