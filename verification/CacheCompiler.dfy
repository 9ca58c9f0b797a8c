/**
 Compiling a model configuration to a cache spec (models/hf.py `build_cache_spec`), against the
 meaning of the configuration as a list of individual layers.
 */
module CacheCompiler {
  import opened Results
  import opened Arithmetic
  import opened DTypes
  import opened CacheSpecs

  /** The configuration fields the compiler reads; alternative spellings are already resolved. */
  datatype Config = Config(
    numLayers: int,
    hiddenSize: int,
    numHeads: int,
    headDim: Option<int>,
    numKvHeads: Option<int>,
    kvLoraRank: Option<int>,
    ropeHeadDim: Option<int>,
    hybridPattern: Option<string>,
    layerTypes: Option<seq<string>>,
    slidingWindow: Option<int>,
    useSlidingWindow: Option<bool>,
    mambaHeads: Option<int>,
    mambaHeadDim: Option<int>,
    mambaExpand: int,
    stateSize: Option<int>,
    convKernel: Option<int>,
    nGroups: int)

  function HeadDim(cfg: Config): Result<int> {
    if cfg.headDim.Some? && cfg.headDim.value > 0 then Ok(cfg.headDim.value)
    else if cfg.numHeads < 1 then Err(UnknownArchitecture)
    else if cfg.hiddenSize % cfg.numHeads != 0 then Err(UnknownArchitecture)
    else Ok(cfg.hiddenSize / cfg.numHeads)
  }

  function KvHeads(cfg: Config): int {
    if cfg.numKvHeads.Some? && cfg.numKvHeads.value > 0 then cfg.numKvHeads.value else cfg.numHeads
  }

  function AttentionKindOf(cfg: Config): AttentionKind {
    if KvHeads(cfg) >= cfg.numHeads then MHA else GQA
  }

  /** A dataclass constructor: the node itself, or the ValueError its checks raise. */
  function Construct(spec: CacheSpec): Result<CacheSpec> {
    if ValidNode(spec) then Ok(spec) else Err(ValueError)
  }

  function FullAttention(cfg: Config, dim: int, layers: int): CacheSpec {
    Attention(AttentionKindOf(cfg), KvHeads(cfg), dim, layers, None)
  }

  function SlidingAttention(cfg: Config, dim: int, layers: int, window: int): CacheSpec {
    Attention(SLIDING_WINDOW, KvHeads(cfg), dim, layers, Some(window))
  }

  function MambaState(cfg: Config, layers: int): Result<CacheSpec> {
    var dInner := if cfg.mambaHeads.Some? && cfg.mambaHeadDim.Some?
                  then cfg.mambaHeads.value * cfg.mambaHeadDim.value
                  else cfg.mambaExpand * cfg.hiddenSize;
    if cfg.stateSize.None? || cfg.convKernel.None? then Err(UnknownArchitecture)
    else Construct(Recurrent(dInner, cfg.nGroups, cfg.stateSize.value, cfg.convKernel.value, layers))
  }

  /** A layer by itself, or no cache at all. */
  datatype Layer = NoCache | Cached(spec: CacheSpec)

  function HybridLayer(cfg: Config, dim: int, symbol: char): Result<Layer> {
    if symbol == '*' then
      var r := Construct(FullAttention(cfg, dim, 1));
      if r.Ok? then Ok(Cached(r.value)) else Err(r.error)
    else if symbol == 'M' then
      var r := MambaState(cfg, 1);
      if r.Ok? then Ok(Cached(r.value)) else Err(r.error)
    else Ok(NoCache)
  }

  function TypedLayer(cfg: Config, dim: int, name: string): Result<Layer> {
    if name == "full_attention" then
      var r := Construct(FullAttention(cfg, dim, 1));
      if r.Ok? then Ok(Cached(r.value)) else Err(r.error)
    else if name == "sliding_attention" then
      if cfg.slidingWindow.None? then Err(UnknownArchitecture)
      else
        var r := Construct(SlidingAttention(cfg, dim, 1, cfg.slidingWindow.value));
        if r.Ok? then Ok(Cached(r.value)) else Err(r.error)
    else Err(UnknownArchitecture)
  }

  /** Occurrences, as `collections.Counter` reports them. */
  function Count<T(==)>(s: seq<T>, x: T): (n: nat)
    ensures n == multiset(s)[x]
  {
    if s == [] then 0
    else
      assert s == [s[0]] + s[1..];
      (if s[0] == x then 1 else 0) + Count(s[1..], x)
  }

  predicate HasUnknown(types: seq<string>) {
    exists i :: 0 <= i < |types| && types[i] != "full_attention" && types[i] != "sliding_attention"
  }

  function HybridSpec(cfg: Config, dim: int, nAttention: nat, nMamba: nat): Result<CacheSpec> {
    if nAttention == 0 && nMamba == 0 then Err(UnknownArchitecture)
    else
      var attention := Construct(FullAttention(cfg, dim, nAttention));
      if nAttention > 0 && attention.Err? then attention
      else
        var mamba := MambaState(cfg, nMamba);
        if nMamba > 0 && mamba.Err? then mamba
        else
          Ok(Layered((if nAttention > 0 then [attention.value] else [])
                     + (if nMamba > 0 then [mamba.value] else [])))
  }

  function TypedSpec(cfg: Config, dim: int, nFull: nat, nSliding: nat): Result<CacheSpec>
    requires nFull + nSliding > 0
  {
    if nSliding > 0 && cfg.slidingWindow.None? then Err(UnknownArchitecture)
    else
      var full := Construct(FullAttention(cfg, dim, nFull));
      if nFull > 0 && full.Err? then full
      else
        var sliding := if nSliding > 0
                       then Construct(SlidingAttention(cfg, dim, nSliding, cfg.slidingWindow.value))
                       else full;
        if nSliding > 0 && sliding.Err? then sliding
        else
          Ok(Layered((if nFull > 0 then [full.value] else [])
                     + (if nSliding > 0 then [sliding.value] else [])))
  }

  lemma {:induction false} KnownTypesCount(types: seq<string>)
    requires !HasUnknown(types)
    ensures Count(types, "full_attention") + Count(types, "sliding_attention") == |types|
    decreases |types|
  {
    if types != [] {
      forall i | 0 <= i < |types[1..]|
        ensures types[1..][i] == "full_attention" || types[1..][i] == "sliding_attention"
      {
        assert types[1..][i] == types[i + 1];
      }
      KnownTypesCount(types[1..]);
      assert types[0] == "full_attention" || types[0] == "sliding_attention";
    }
  }

  /** The five detection paths, in priority order. */
  function SpecOf(cfg: Config): Result<CacheSpec> {
    var dim := HeadDim(cfg);
    if dim.Err? then Err(dim.error)
    else if cfg.kvLoraRank.Some? then
      if cfg.ropeHeadDim.None? then Err(UnknownArchitecture)
      else Construct(MLA(cfg.kvLoraRank.value, cfg.ropeHeadDim.value, cfg.numLayers))
    else if cfg.hybridPattern.Some? && cfg.hybridPattern.value != "" then
      var p := cfg.hybridPattern.value;
      HybridSpec(cfg, dim.value, Count(p, '*'), Count(p, 'M'))
    else if cfg.layerTypes.Some? && cfg.layerTypes.value != [] then
      var t := cfg.layerTypes.value;
      if HasUnknown(t) then Err(UnknownArchitecture)
      else
        KnownTypesCount(t);
        TypedSpec(cfg, dim.value, Count(t, "full_attention"), Count(t, "sliding_attention"))
    else if cfg.slidingWindow.Some? && cfg.slidingWindow.value > 0 && cfg.useSlidingWindow != Some(false) then
      Construct(SlidingAttention(cfg, dim.value, cfg.numLayers, cfg.slidingWindow.value))
    else Construct(FullAttention(cfg, dim.value, cfg.numLayers))
  }

  /** The builder itself, appending one part per layer kind. */
  method BuildCacheSpec(cfg: Config) returns (r: Result<CacheSpec>)
    ensures r == SpecOf(cfg)
  {
    var dim := HeadDim(cfg);
    if dim.Err? { return Err(dim.error); }
    if cfg.kvLoraRank.Some? {
      if cfg.ropeHeadDim.None? { return Err(UnknownArchitecture); }
      return Construct(MLA(cfg.kvLoraRank.value, cfg.ropeHeadDim.value, cfg.numLayers));
    }
    var parts: seq<CacheSpec> := [];
    if cfg.hybridPattern.Some? && cfg.hybridPattern.value != "" {
      var nAttention, nMamba := Count(cfg.hybridPattern.value, '*'), Count(cfg.hybridPattern.value, 'M');
      if nAttention == 0 && nMamba == 0 { return Err(UnknownArchitecture); }
      if nAttention > 0 {
        var part := Construct(FullAttention(cfg, dim.value, nAttention));
        if part.Err? { return part; }
        parts := parts + [part.value];
      }
      if nMamba > 0 {
        var part := MambaState(cfg, nMamba);
        if part.Err? { return part; }
        parts := parts + [part.value];
      }
      ghost var spec := SpecOf(cfg);
      assert spec.Ok? && parts == spec.value.parts;
      return Ok(Layered(parts));
    }
    if cfg.layerTypes.Some? && cfg.layerTypes.value != [] {
      var types := cfg.layerTypes.value;
      var nFull, nSliding := Count(types, "full_attention"), Count(types, "sliding_attention");
      if HasUnknown(types) { return Err(UnknownArchitecture); }
      KnownTypesCount(types);
      if nSliding > 0 && cfg.slidingWindow.None? { return Err(UnknownArchitecture); }
      if nFull > 0 {
        var part := Construct(FullAttention(cfg, dim.value, nFull));
        if part.Err? { return part; }
        parts := parts + [part.value];
      }
      if nSliding > 0 {
        var part := Construct(SlidingAttention(cfg, dim.value, nSliding, cfg.slidingWindow.value));
        if part.Err? { return part; }
        parts := parts + [part.value];
      }
      ghost var spec := SpecOf(cfg);
      assert spec.Ok? && parts == spec.value.parts;
      return Ok(Layered(parts));
    }
    if cfg.slidingWindow.Some? && cfg.slidingWindow.value > 0 && cfg.useSlidingWindow != Some(false) {
      return Construct(SlidingAttention(cfg, dim.value, cfg.numLayers, cfg.slidingWindow.value));
    }
    return Construct(FullAttention(cfg, dim.value, cfg.numLayers));
  }

  // ---------------------------------------------------------------- meaning: layer by layer

  /** The cost of one layer; an MLP or unbuildable layer contributes nothing. */
  function LayerBytes(layer: Result<Layer>, len: nat, dtype: DType, tp: nat): nat
    requires tp >= 1
  {
    if layer.Ok? && layer.value.Cached? && Valid(layer.value.spec)
    then SequenceBytes(layer.value.spec, len, dtype, tp) else 0
  }

  function HybridBytes(cfg: Config, dim: int, pattern: string, len: nat, dtype: DType, tp: nat): nat
    requires tp >= 1
  {
    if pattern == "" then 0
    else LayerBytes(HybridLayer(cfg, dim, pattern[0]), len, dtype, tp)
         + HybridBytes(cfg, dim, pattern[1..], len, dtype, tp)
  }

  function TypedBytes(cfg: Config, dim: int, types: seq<string>, len: nat, dtype: DType, tp: nat): nat
    requires tp >= 1
  {
    if types == [] then 0
    else LayerBytes(TypedLayer(cfg, dim, types[0]), len, dtype, tp)
         + TypedBytes(cfg, dim, types[1..], len, dtype, tp)
  }

  lemma {:induction false} HybridBytesCount(cfg: Config, dim: int, pattern: string, len: nat, dtype: DType, tp: nat)
    requires tp >= 1
    ensures HybridBytes(cfg, dim, pattern, len, dtype, tp)
            == Count(pattern, '*') * LayerBytes(HybridLayer(cfg, dim, '*'), len, dtype, tp)
               + Count(pattern, 'M') * LayerBytes(HybridLayer(cfg, dim, 'M'), len, dtype, tp)
    decreases |pattern|
  {
    if pattern != "" {
      HybridBytesCount(cfg, dim, pattern[1..], len, dtype, tp);
      Distribute(Count(pattern[1..], '*'), 1, LayerBytes(HybridLayer(cfg, dim, '*'), len, dtype, tp));
      Distribute(Count(pattern[1..], 'M'), 1, LayerBytes(HybridLayer(cfg, dim, 'M'), len, dtype, tp));
    }
  }

  lemma {:induction false} TypedBytesCount(cfg: Config, dim: int, types: seq<string>, len: nat, dtype: DType, tp: nat)
    requires tp >= 1
    ensures TypedBytes(cfg, dim, types, len, dtype, tp)
            == Count(types, "full_attention") * LayerBytes(TypedLayer(cfg, dim, "full_attention"), len, dtype, tp)
               + Count(types, "sliding_attention") * LayerBytes(TypedLayer(cfg, dim, "sliding_attention"), len, dtype, tp)
    decreases |types|
  {
    if types != [] {
      var full := LayerBytes(TypedLayer(cfg, dim, "full_attention"), len, dtype, tp);
      var sliding := LayerBytes(TypedLayer(cfg, dim, "sliding_attention"), len, dtype, tp);
      TypedBytesCount(cfg, dim, types[1..], len, dtype, tp);
      Distribute(Count(types[1..], "full_attention"), 1, full);
      Distribute(Count(types[1..], "sliding_attention"), 1, sliding);
    }
  }

  // ---------------------------------------------------------------- grouping is exact

  /** An attention layer stores K and V, so its element count is even and groups exactly at any width. */
  lemma AttentionGroups(spec: CacheSpec, n: nat, dtype: DType, tp: nat)
    requires ValidNode(spec) && spec.Attention? && spec.kvLayers == n && tp >= 1
    ensures ValidNode(spec.(kvLayers := 1))
    ensures TokenBytes(spec, dtype, tp) == n * TokenBytes(spec.(kvLayers := 1), dtype, tp)
  {
    var elements := 2 * KvHeadsPerGpu(spec.kvHeads, tp) * spec.headDim;
    EvenElements(KvHeadsPerGpu(spec.kvHeads, tp), spec.headDim);
    GroupingExact(elements, n, dtype);
    assert TokenBytes(spec, dtype, tp) == BytesFor(elements * n, dtype);
    assert TokenBytes(spec.(kvLayers := 1), dtype, tp) == BytesFor(elements, dtype);
  }

  lemma EvenElements(heads: nat, dim: nat)
    ensures (2 * heads * dim) % 2 == 0
  {
    Reassociate(2, heads, dim);
  }

  lemma AttentionGroupsBytes(spec: CacheSpec, n: nat, len: nat, dtype: DType, tp: nat)
    requires ValidNode(spec) && spec.Attention? && spec.kvLayers == n && tp >= 1
    ensures ValidNode(spec.(kvLayers := 1)) && Valid(spec) && Valid(spec.(kvLayers := 1))
    ensures SequenceBytes(spec, len, dtype, tp) == n * SequenceBytes(spec.(kvLayers := 1), len, dtype, tp)
  {
    AttentionGroups(spec, n, dtype, tp);
    var retained := if spec.window.Some? then Min(len, spec.window.value) else len;
    var one := TokenBytes(spec.(kvLayers := 1), dtype, tp);
    Reassociate(retained, n, one);
    Reassociate(n, retained, one);
  }

  /** Recurrent state groups exactly unless a four-bit type rounds an odd layer up more than once. */
  lemma RecurrentGroups(spec: CacheSpec, n: nat, e: nat, dtype: DType, tp: nat)
    requires ValidNode(spec) && spec.Recurrent? && spec.recurrentLayers == n && tp >= 1
    requires e == StateElements(spec.dInner, spec.nGroups, spec.stateSize, spec.convKernel, tp)
    ensures Valid(spec) && Valid(spec.(recurrentLayers := 1))
    ensures FixedBytes(spec, dtype, tp) == n * FixedBytes(spec.(recurrentLayers := 1), dtype, tp)
            <==> !dtype.IsSubByte() || e % 2 == 0 || n == 1
  {
    RecurrentBytes(spec, n, e, dtype, tp);
    RecurrentBytes(spec.(recurrentLayers := 1), 1, e, dtype, tp);
    GroupingExact(e, n, dtype);
  }

  lemma RecurrentBytes(spec: CacheSpec, n: nat, e: nat, dtype: DType, tp: nat)
    requires ValidNode(spec) && spec.Recurrent? && spec.recurrentLayers == n && tp >= 1
    requires e == StateElements(spec.dInner, spec.nGroups, spec.stateSize, spec.convKernel, tp)
    ensures Valid(spec) && FixedBytes(spec, dtype, tp) == BytesFor(e * n, dtype)
    ensures n == 1 ==> FixedBytes(spec, dtype, tp) == BytesFor(e, dtype)
  {}

  lemma PairBytes(a: CacheSpec, b: CacheSpec, len: nat, dtype: DType, tp: nat)
    requires Valid(a) && Valid(b) && tp >= 1
    ensures Valid(Layered([a])) && Valid(Layered([a, b]))
    ensures SequenceBytes(Layered([a]), len, dtype, tp) == SequenceBytes(a, len, dtype, tp)
    ensures SequenceBytes(Layered([a, b]), len, dtype, tp)
            == SequenceBytes(a, len, dtype, tp) + SequenceBytes(b, len, dtype, tp)
  {
    var ab := [a, b];
    assert ab[1..] == [b] && [b][1..] == [] && [a][1..] == [];
    assert AllValid([]) && AllValid([b]) && AllValid([a]) && AllValid(ab);
    assert SequenceBytesAll([], len, dtype, tp) == 0;
    assert SequenceBytesAll([b], len, dtype, tp) == SequenceBytes(b, len, dtype, tp);
    assert SequenceBytesAll([a], len, dtype, tp) == SequenceBytes(a, len, dtype, tp);
    assert SequenceBytesAll(ab, len, dtype, tp)
        == SequenceBytes(a, len, dtype, tp) + SequenceBytesAll([b], len, dtype, tp);
  }

  /** The state elements of one Mamba layer under this configuration, when it has any. */
  function MambaElements(cfg: Config, tp: nat): nat
    requires tp >= 1
  {
    var one := MambaState(cfg, 1);
    if one.Ok? && one.value.Recurrent? && ValidNode(one.value)
    then StateElements(one.value.dInner, one.value.nGroups, one.value.stateSize, one.value.convKernel, tp) else 0
  }

  /** The attention half of a built hybrid, as layers. */
  lemma AttentionHalf(cfg: Config, dim: int, n: nat, len: nat, dtype: DType, tp: nat)
    requires tp >= 1 && n >= 1 && ValidNode(FullAttention(cfg, dim, n))
    ensures Valid(FullAttention(cfg, dim, n))
    ensures SequenceBytes(FullAttention(cfg, dim, n), len, dtype, tp)
            == n * LayerBytes(HybridLayer(cfg, dim, '*'), len, dtype, tp)
    ensures HybridLayer(cfg, dim, '*') == TypedLayer(cfg, dim, "full_attention")
  {
    AttentionGroupsBytes(FullAttention(cfg, dim, n), n, len, dtype, tp);
    assert FullAttention(cfg, dim, n).(kvLayers := 1) == FullAttention(cfg, dim, 1);
  }

  /** The Mamba half, exact under the grouping condition. */
  lemma MambaHalf(cfg: Config, dim: int, n: nat, len: nat, dtype: DType, tp: nat)
    requires tp >= 1 && n >= 1 && MambaState(cfg, n).Ok?
    ensures Valid(MambaState(cfg, n).value)
    ensures SequenceBytes(MambaState(cfg, n).value, len, dtype, tp)
            == n * LayerBytes(HybridLayer(cfg, dim, 'M'), len, dtype, tp)
            <==> !dtype.IsSubByte() || MambaElements(cfg, tp) % 2 == 0 || n <= 1
  {
    var mamba := MambaState(cfg, n).value;
    assert Ok(mamba.(recurrentLayers := 1)) == MambaState(cfg, 1);
    RecurrentGroups(mamba, n, MambaElements(cfg, tp), dtype, tp);
    assert HybridLayer(cfg, dim, 'M') == Ok(Cached(mamba.(recurrentLayers := 1)));
  }

  lemma SlidingHalf(cfg: Config, dim: int, n: nat, window: int, len: nat, dtype: DType, tp: nat)
    requires tp >= 1 && n >= 1 && ValidNode(SlidingAttention(cfg, dim, n, window))
    requires cfg.slidingWindow == Some(window)
    ensures Valid(SlidingAttention(cfg, dim, n, window))
    ensures SequenceBytes(SlidingAttention(cfg, dim, n, window), len, dtype, tp)
            == n * LayerBytes(TypedLayer(cfg, dim, "sliding_attention"), len, dtype, tp)
  {
    AttentionGroupsBytes(SlidingAttention(cfg, dim, n, window), n, len, dtype, tp);
    assert SlidingAttention(cfg, dim, n, window).(kvLayers := 1) == SlidingAttention(cfg, dim, 1, window);
  }

  /**
   Grouping an attention/Mamba pattern keeps its meaning: the built spec costs the sum of its layers,
   exactly when the type is whole-byte, a Mamba layer's state is even, or at most one layer is Mamba.
   */
  lemma HybridPatternPreservesBytes(cfg: Config, len: nat, dtype: DType, tp: nat)
    requires tp >= 1 && cfg.kvLoraRank.None?
    requires cfg.hybridPattern.Some? && cfg.hybridPattern.value != "" && SpecOf(cfg).Ok?
    ensures HeadDim(cfg).Ok? && Valid(SpecOf(cfg).value)
    ensures SequenceBytes(SpecOf(cfg).value, len, dtype, tp)
            == HybridBytes(cfg, HeadDim(cfg).value, cfg.hybridPattern.value, len, dtype, tp)
            <==> !dtype.IsSubByte() || MambaElements(cfg, tp) % 2 == 0 || Count(cfg.hybridPattern.value, 'M') <= 1
  {
    var dim, pattern := HeadDim(cfg).value, cfg.hybridPattern.value;
    var nA, nM := Count(pattern, '*'), Count(pattern, 'M');
    HybridBytesCount(cfg, dim, pattern, len, dtype, tp);
    HybridSpecBytes(cfg, dim, nA, nM, len, dtype, tp);
  }

  lemma HybridSpecBytes(cfg: Config, dim: int, nA: nat, nM: nat, len: nat, dtype: DType, tp: nat)
    requires tp >= 1 && HybridSpec(cfg, dim, nA, nM).Ok?
    ensures Valid(HybridSpec(cfg, dim, nA, nM).value)
    ensures SequenceBytes(HybridSpec(cfg, dim, nA, nM).value, len, dtype, tp)
            == nA * LayerBytes(HybridLayer(cfg, dim, '*'), len, dtype, tp)
               + nM * LayerBytes(HybridLayer(cfg, dim, 'M'), len, dtype, tp)
            <==> !dtype.IsSubByte() || MambaElements(cfg, tp) % 2 == 0 || nM <= 1
  {
    var attention, mamba := FullAttention(cfg, dim, nA), MambaState(cfg, nM);
    if nA > 0 {
      AttentionHalf(cfg, dim, nA, len, dtype, tp);
      if nM > 0 {
        MambaHalf(cfg, dim, nM, len, dtype, tp);
        assert HybridSpec(cfg, dim, nA, nM).value == Layered([attention, mamba.value]);
        PairBytes(attention, mamba.value, len, dtype, tp);
      } else {
        assert HybridSpec(cfg, dim, nA, nM).value == Layered([attention]);
        PairBytes(attention, attention, len, dtype, tp);
      }
    } else {
      MambaHalf(cfg, dim, nM, len, dtype, tp);
      assert HybridSpec(cfg, dim, nA, nM).value == Layered([mamba.value]);
      PairBytes(mamba.value, mamba.value, len, dtype, tp);
    }
  }

  /** Interleaved full and sliding layers group exactly for every type, four bits included. */
  lemma LayerTypesPreserveBytes(cfg: Config, len: nat, dtype: DType, tp: nat)
    requires tp >= 1 && cfg.kvLoraRank.None?
    requires cfg.hybridPattern.None? || cfg.hybridPattern.value == ""
    requires cfg.layerTypes.Some? && cfg.layerTypes.value != [] && SpecOf(cfg).Ok?
    ensures HeadDim(cfg).Ok? && Valid(SpecOf(cfg).value)
    ensures SequenceBytes(SpecOf(cfg).value, len, dtype, tp)
            == TypedBytes(cfg, HeadDim(cfg).value, cfg.layerTypes.value, len, dtype, tp)
  {
    var dim, types := HeadDim(cfg).value, cfg.layerTypes.value;
    KnownTypesCount(types);
    TypedBytesCount(cfg, dim, types, len, dtype, tp);
    TypedSpecBytes(cfg, dim, Count(types, "full_attention"), Count(types, "sliding_attention"), len, dtype, tp);
  }

  lemma TypedSpecBytes(cfg: Config, dim: int, nF: nat, nS: nat, len: nat, dtype: DType, tp: nat)
    requires tp >= 1 && nF + nS > 0 && TypedSpec(cfg, dim, nF, nS).Ok?
    ensures Valid(TypedSpec(cfg, dim, nF, nS).value)
    ensures SequenceBytes(TypedSpec(cfg, dim, nF, nS).value, len, dtype, tp)
            == nF * LayerBytes(TypedLayer(cfg, dim, "full_attention"), len, dtype, tp)
               + nS * LayerBytes(TypedLayer(cfg, dim, "sliding_attention"), len, dtype, tp)
  {
    var spec := TypedSpec(cfg, dim, nF, nS).value;
    var full := FullAttention(cfg, dim, nF);
    if nF > 0 { AttentionHalf(cfg, dim, nF, len, dtype, tp); }
    if nS > 0 {
      var sliding := SlidingAttention(cfg, dim, nS, cfg.slidingWindow.value);
      SlidingHalf(cfg, dim, nS, cfg.slidingWindow.value, len, dtype, tp);
      if nF > 0 {
        assert spec == Layered([full, sliding]);
        PairBytes(full, sliding, len, dtype, tp);
      } else {
        assert spec == Layered([sliding]);
        PairBytes(sliding, sliding, len, dtype, tp);
      }
    } else {
      assert spec == Layered([full]);
      PairBytes(full, full, len, dtype, tp);
    }
  }

  /** Only how often each layer kind occurs matters, including for which configurations are refused. */
  lemma LayerOrderIsIrrelevant(cfg: Config, pattern: string, types: seq<string>)
    requires cfg.hybridPattern.Some? ==> multiset(pattern) == multiset(cfg.hybridPattern.value)
    requires cfg.layerTypes.Some? ==> multiset(types) == multiset(cfg.layerTypes.value)
    ensures SpecOf(cfg.(hybridPattern := if cfg.hybridPattern.Some? then Some(pattern) else None,
                        layerTypes := if cfg.layerTypes.Some? then Some(types) else None))
            == SpecOf(cfg)
  {
    var cfg' := cfg.(hybridPattern := if cfg.hybridPattern.Some? then Some(pattern) else None,
                     layerTypes := if cfg.layerTypes.Some? then Some(types) else None);
    assert HeadDim(cfg') == HeadDim(cfg) && KvHeads(cfg') == KvHeads(cfg);
    if cfg.hybridPattern.Some? {
      assert |multiset(pattern)| == |pattern| && |multiset(cfg.hybridPattern.value)| == |cfg.hybridPattern.value|;
    }
    if cfg.layerTypes.Some? {
      assert |multiset(types)| == |types| && |multiset(cfg.layerTypes.value)| == |cfg.layerTypes.value|;
      UnknownIsOrderFree(types, cfg.layerTypes.value);
    }
  }

  lemma UnknownIsOrderFree(a: seq<string>, b: seq<string>)
    requires multiset(a) == multiset(b)
    ensures HasUnknown(a) <==> HasUnknown(b)
  {
    forall i | 0 <= i < |a| ensures a[i] in b { assert a[i] in multiset(b); }
    forall i | 0 <= i < |b| ensures b[i] in a { assert b[i] in multiset(a); }
  }

  /** The builder accepts a pattern exactly when some layer caches and every layer could stand alone. */
  lemma HybridPatternAccepted(cfg: Config)
    requires cfg.kvLoraRank.None? && HeadDim(cfg).Ok?
    requires cfg.hybridPattern.Some? && cfg.hybridPattern.value != ""
    ensures var p := cfg.hybridPattern.value;
            SpecOf(cfg).Ok? <==>
              && (exists i :: 0 <= i < |p| && (p[i] == '*' || p[i] == 'M'))
              && forall i :: 0 <= i < |p| ==> HybridLayer(cfg, HeadDim(cfg).value, p[i]).Ok?
  {}

  // ---------------------------------------------------------------- what is built, from the raw fields

  /** The KV heads configured: the explicit count when positive, else one for every query head. */
  ghost predicate ConfiguredHeads(cfg: Config, kv: int) {
    || (cfg.numKvHeads == Some(kv) && kv > 0)
    || ((cfg.numKvHeads.None? || cfg.numKvHeads.value <= 0) && kv == cfg.numHeads)
  }

  /** The head width configured: explicit when positive, else the hidden size split evenly over the heads. */
  ghost predicate ConfiguredDim(cfg: Config, dim: int) {
    || (cfg.headDim == Some(dim) && dim > 0)
    || ((cfg.headDim.None? || cfg.headDim.value <= 0) && cfg.numHeads >= 1 && dim * cfg.numHeads == cfg.hiddenSize)
  }

  /** The channels of a Mamba layer: heads times their width when both are given, else an expansion. */
  ghost predicate ConfiguredInner(cfg: Config, inner: int) {
    if cfg.mambaHeads.Some? && cfg.mambaHeadDim.Some? then inner == cfg.mambaHeads.value * cfg.mambaHeadDim.value
    else inner == cfg.mambaExpand * cfg.hiddenSize
  }

  ghost predicate NoPattern(cfg: Config) { cfg.hybridPattern == None || cfg.hybridPattern == Some("") }

  ghost predicate NoTypes(cfg: Config) { cfg.layerTypes == None || cfg.layerTypes == Some([]) }

  /** One kind of attention throughout; every layer slides a window exactly when one is set and not disabled. */
  ghost predicate Uniform(cfg: Config) { cfg.kvLoraRank == None && NoPattern(cfg) && NoTypes(cfg) }

  ghost predicate Slides(cfg: Config) {
    cfg.slidingWindow.Some? && cfg.slidingWindow.value >= 1
    && (cfg.useSlidingWindow == None || cfg.useSlidingWindow == Some(true))
  }

  lemma DimExactly(cfg: Config, dim: int)
    ensures HeadDim(cfg) == Ok(dim) <==> ConfiguredDim(cfg, dim)
    ensures HeadDim(cfg).Err? ==> HeadDim(cfg).error == UnknownArchitecture
  {
    if cfg.numHeads >= 1 {
      var n := cfg.numHeads;
      assert cfg.hiddenSize == cfg.hiddenSize / n * n + cfg.hiddenSize % n;
      if dim * n == cfg.hiddenSize { ExactQuotient(dim, n); }
    }
  }

  lemma ExactQuotient(q: int, n: int)
    requires n >= 1
    ensures q * n / n == q && q * n % n == 0
  {
    FloorDivGalois(q, q * n, n);
    FloorDivGalois(q + 1, q * n, n);
  }

  /** Without a head width nothing is built, whatever else is configured. */
  lemma NoDimBuildsNothing(cfg: Config)
    requires forall dim :: !ConfiguredDim(cfg, dim)
    ensures SpecOf(cfg) == Err(UnknownArchitecture)
  {
    DimExactly(cfg, 0);
    if HeadDim(cfg).Ok? { DimExactly(cfg, HeadDim(cfg).value); }
  }

  /** Latent attention is recognised first, and reads neither heads nor layer lists. */
  lemma BuildsLatent(cfg: Config, dim: int, rank: int)
    requires ConfiguredDim(cfg, dim) && cfg.kvLoraRank == Some(rank)
    ensures SpecOf(cfg) ==
              if cfg.ropeHeadDim.None? then Err(UnknownArchitecture)
              else if rank >= 1 && cfg.ropeHeadDim.value >= 1 && cfg.numLayers >= 1
                then Ok(MLA(rank, cfg.ropeHeadDim.value, cfg.numLayers))
              else Err(ValueError)
  {
    DimExactly(cfg, dim);
  }

  /** Uniform attention: the window when the layers slide, grouped queries when KV heads are fewer. */
  lemma BuildsUniform(cfg: Config, dim: int, kv: int)
    requires Uniform(cfg) && ConfiguredDim(cfg, dim) && ConfiguredHeads(cfg, kv)
    ensures SpecOf(cfg) ==
              if kv < 1 || dim < 1 || cfg.numLayers < 1 then Err(ValueError)
              else if Slides(cfg) then Ok(Attention(SLIDING_WINDOW, kv, dim, cfg.numLayers, cfg.slidingWindow))
              else Ok(Attention(if kv < cfg.numHeads then GQA else MHA, kv, dim, cfg.numLayers, None))
  {
    DimExactly(cfg, dim);
    assert KvHeads(cfg) == kv;
    var u := cfg.useSlidingWindow;
    if u.Some? { assert u == Some(u.value) && (u.value == true || u.value == false); }
    if Slides(cfg) {
      assert SpecOf(cfg) == Construct(SlidingAttention(cfg, dim, cfg.numLayers, cfg.slidingWindow.value));
    } else {
      assert SpecOf(cfg) == Construct(FullAttention(cfg, dim, cfg.numLayers));
    }
  }

  /** So on one rank each retained token costs a key and a value for every KV head of every layer. */
  lemma UniformBytes(cfg: Config, dim: int, kv: int, len: nat, dtype: DType)
    requires Uniform(cfg) && ConfiguredDim(cfg, dim) && ConfiguredHeads(cfg, kv)
    requires kv >= 1 && dim >= 1 && cfg.numLayers >= 1
    ensures SpecOf(cfg).Ok? && Valid(SpecOf(cfg).value)
    ensures SequenceBytes(SpecOf(cfg).value, len, dtype, 1)
            == (if Slides(cfg) && cfg.slidingWindow.value < len then cfg.slidingWindow.value else len)
               * BytesFor(2 * kv * dim * cfg.numLayers, dtype)
  {
    BuildsUniform(cfg, dim, kv);
    var spec := SpecOf(cfg).value;
    AttentionTokenExactly(spec.kind, kv, dim, cfg.numLayers, spec.window, dtype);
  }

  /**
   An attention/Mamba pattern: one part for each kind that occurs, attention first, holding as many layers
   as the pattern has of it. It is refused exactly when neither occurs or an occurring part is incomplete.
   */
  lemma BuildsHybrid(cfg: Config, dim: int, kv: int, inner: int, pattern: string)
    requires ConfiguredDim(cfg, dim) && ConfiguredHeads(cfg, kv) && ConfiguredInner(cfg, inner)
    requires cfg.kvLoraRank == None && cfg.hybridPattern == Some(pattern) && pattern != ""
    ensures var stars, ems := multiset(pattern)['*'], multiset(pattern)['M'];
            && (SpecOf(cfg).Ok? <==>
                  && stars + ems > 0
                  && (stars > 0 ==> kv >= 1 && dim >= 1)
                  && (ems > 0 ==> cfg.stateSize.Some? && cfg.convKernel.Some? && inner >= 1 && cfg.nGroups >= 1
                                  && cfg.stateSize.value >= 1 && cfg.convKernel.value >= 1))
            && (SpecOf(cfg).Ok? ==>
                  && CacheLayers(SpecOf(cfg).value) == stars + ems
                  && SpecOf(cfg).value == Layered(
                       (if stars > 0 then [Attention(if kv < cfg.numHeads then GQA else MHA, kv, dim, stars, None)] else [])
                       + (if ems > 0 then [Recurrent(inner, cfg.nGroups, cfg.stateSize.value, cfg.convKernel.value, ems)]
                          else [])))
  {
    DimExactly(cfg, dim);
    if SpecOf(cfg).Ok? { LayersOfParts(SpecOf(cfg).value.parts); }
  }

  lemma LayersOfParts(parts: seq<CacheSpec>)
    requires 1 <= |parts| <= 2
    ensures CacheLayers(Layered(parts)) == CacheLayers(parts[0]) + if |parts| == 2 then CacheLayers(parts[1]) else 0
  {
    assert CacheLayersAll([]) == 0;
    if |parts| == 2 {
      assert parts[1..] == [parts[1]] && [parts[1]][1..] == [];
      assert CacheLayersAll([parts[1]]) == CacheLayers(parts[1]) + CacheLayersAll([]);
    } else {
      assert parts[1..] == [];
    }
  }

  /** Interleaved layers: full ones in one part, sliding ones in another, and refused when a name or a part is not usable. */
  lemma BuildsTypes(cfg: Config, dim: int, kv: int, types: seq<string>)
    requires ConfiguredDim(cfg, dim) && ConfiguredHeads(cfg, kv)
    requires cfg.kvLoraRank == None && NoPattern(cfg) && cfg.layerTypes == Some(types) && types != []
    ensures var full, sliding := multiset(types)["full_attention"], multiset(types)["sliding_attention"];
            && (SpecOf(cfg).Ok? <==>
                  && full + sliding == |types| && kv >= 1 && dim >= 1
                  && (sliding > 0 ==> cfg.slidingWindow.Some? && cfg.slidingWindow.value >= 1))
            && (SpecOf(cfg).Ok? ==>
                  && CacheLayers(SpecOf(cfg).value) == |types|
                  && SpecOf(cfg).value == Layered(
                       (if full > 0 then [Attention(if kv < cfg.numHeads then GQA else MHA, kv, dim, full, None)] else [])
                       + (if sliding > 0 then [Attention(SLIDING_WINDOW, kv, dim, sliding, cfg.slidingWindow)] else [])))
  {
    DimExactly(cfg, dim);
    if HasUnknown(types) { UnknownShortens(types); } else { KnownTypesCount(types); }
    if SpecOf(cfg).Ok? { LayersOfParts(SpecOf(cfg).value.parts); }
  }

  /** A name that is neither kind is counted by neither. */
  lemma {:induction false} UnknownShortens(types: seq<string>)
    requires HasUnknown(types)
    ensures Count(types, "full_attention") + Count(types, "sliding_attention") < |types|
    decreases |types|
  {
    assert "full_attention" != "sliding_attention" by { assert "full_attention"[0] == 'f'; }
    var i :| 0 <= i < |types| && types[i] != "full_attention" && types[i] != "sliding_attention";
    if i > 0 {
      assert types[1..][i - 1] == types[i];
      UnknownShortens(types[1..]);
    } else {
      CountsWithin(types[1..]);
    }
  }

  lemma {:induction false} CountsWithin(types: seq<string>)
    ensures Count(types, "full_attention") + Count(types, "sliding_attention") <= |types|
    decreases |types|
  {
    assert "full_attention" != "sliding_attention" by { assert "full_attention"[0] == 'f'; }
    if types != [] { CountsWithin(types[1..]); }
  }

  /** A typed list is accepted exactly when every name is known and every layer could stand alone. */
  lemma LayerTypesAccepted(cfg: Config)
    requires cfg.kvLoraRank == None && NoPattern(cfg) && HeadDim(cfg).Ok?
    requires cfg.layerTypes.Some? && cfg.layerTypes.value != []
    ensures var t := cfg.layerTypes.value;
            SpecOf(cfg).Ok? <==> forall i :: 0 <= i < |t| ==> TypedLayer(cfg, HeadDim(cfg).value, t[i]).Ok?
  {
    var t, dim := cfg.layerTypes.value, HeadDim(cfg).value;
    if !HasUnknown(t) {
      KnownTypesCount(t);
      var nF, nS := Count(t, "full_attention"), Count(t, "sliding_attention");
      assert nF > 0 <==> exists i :: 0 <= i < |t| && t[i] == "full_attention" by { CountPositive(t, "full_attention"); }
      assert nS > 0 <==> exists i :: 0 <= i < |t| && t[i] == "sliding_attention" by { CountPositive(t, "sliding_attention"); }
    }
  }

  lemma CountPositive<T>(s: seq<T>, x: T)
    ensures Count(s, x) > 0 <==> exists i :: 0 <= i < |s| && s[i] == x
  {}

  // ---------------------------------------------------------------- grouped queries

  /** The same model without grouped queries. */
  function Ungrouped(cfg: Config): Config { cfg.(numKvHeads := None) }

  lemma GroupedToken(kind: AttentionKind, kind': AttentionKind, kv: int, heads: int, dim: int, layers: int,
                     window: Option<int>, dtype: DType)
    requires ValidNode(Attention(kind, kv, dim, layers, window)) && ValidNode(Attention(kind', heads, dim, layers, window))
    requires !dtype.IsSubByte()
    ensures TokenBytes(Attention(kind, kv, dim, layers, window), dtype, 1) * heads
            == TokenBytes(Attention(kind', heads, dim, layers, window), dtype, 1) * kv
  {
    AttentionTokenExactly(kind, kv, dim, layers, window, dtype);
    AttentionTokenExactly(kind', heads, dim, layers, window, dtype);
    var unit := 2 * dim * layers;
    ReorderProduct(kv, dim, layers);
    ReorderProduct(heads, dim, layers);
    BytesForScales(unit, kv, dtype);
    BytesForScales(unit, heads, dtype);
    SwapFactors(BytesFor(unit, dtype), kv, heads);
  }

  lemma ReorderProduct(h: int, dim: int, layers: int)
    ensures 2 * h * dim * layers == 2 * dim * layers * h
  {}

  lemma SwapFactors(u: int, a: int, b: int)
    ensures u * a * b == u * b * a
  {}

  lemma GroupedPart(kind: AttentionKind, kind': AttentionKind, kv: int, heads: int, dim: int, layers: int,
                    window: Option<int>, len: nat, dtype: DType)
    requires ValidNode(Attention(kind, kv, dim, layers, window)) && ValidNode(Attention(kind', heads, dim, layers, window))
    requires !dtype.IsSubByte()
    ensures Valid(Attention(kind, kv, dim, layers, window)) && Valid(Attention(kind', heads, dim, layers, window))
    ensures SequenceBytes(Attention(kind, kv, dim, layers, window), len, dtype, 1) * heads
            == SequenceBytes(Attention(kind', heads, dim, layers, window), len, dtype, 1) * kv
  {
    GroupedToken(kind, kind', kv, heads, dim, layers, window, dtype);
    var retained := if window.Some? then Min(len, window.value) else len;
    Reassociate(retained, TokenBytes(Attention(kind, kv, dim, layers, window), dtype, 1), heads);
    Reassociate(retained, TokenBytes(Attention(kind', heads, dim, layers, window), dtype, 1), kv);
  }

  /** On one rank, uniform attention with `kv` heads costs kv/heads of what one head per query would. */
  lemma GroupedQueriesScaleUniform(cfg: Config, dim: int, kv: int, len: nat, dtype: DType)
    requires Uniform(cfg) && ConfiguredDim(cfg, dim) && cfg.numKvHeads == Some(kv)
    requires kv >= 1 && cfg.numHeads >= 1 && dim >= 1 && cfg.numLayers >= 1 && !dtype.IsSubByte()
    ensures SpecOf(cfg).Ok? && Valid(SpecOf(cfg).value)
    ensures SpecOf(Ungrouped(cfg)).Ok? && Valid(SpecOf(Ungrouped(cfg)).value)
    ensures SequenceBytes(SpecOf(cfg).value, len, dtype, 1) * cfg.numHeads
            == SequenceBytes(SpecOf(Ungrouped(cfg)).value, len, dtype, 1) * kv
  {
    BuildsUniform(cfg, dim, kv);
    BuildsUniform(Ungrouped(cfg), dim, cfg.numHeads);
    var a, b := SpecOf(cfg).value, SpecOf(Ungrouped(cfg)).value;
    GroupedPart(a.kind, b.kind, kv, cfg.numHeads, dim, cfg.numLayers, a.window, len, dtype);
  }

  /** The same for interleaved full and sliding layers. */
  lemma GroupedQueriesScaleTypes(cfg: Config, dim: int, kv: int, types: seq<string>, len: nat, dtype: DType)
    requires cfg.kvLoraRank == None && NoPattern(cfg) && cfg.layerTypes == Some(types) && types != []
    requires ConfiguredDim(cfg, dim) && cfg.numKvHeads == Some(kv) && kv >= 1 && cfg.numHeads >= 1 && !dtype.IsSubByte()
    requires SpecOf(cfg).Ok? && SpecOf(Ungrouped(cfg)).Ok?
    ensures Valid(SpecOf(cfg).value) && Valid(SpecOf(Ungrouped(cfg)).value)
    ensures SequenceBytes(SpecOf(cfg).value, len, dtype, 1) * cfg.numHeads
            == SequenceBytes(SpecOf(Ungrouped(cfg)).value, len, dtype, 1) * kv
  {
    LayerTypesPreserveBytes(cfg, len, dtype, 1);
    LayerTypesPreserveBytes(Ungrouped(cfg), len, dtype, 1);
    DimExactly(cfg, dim);
    GroupedLayers(cfg, dim, kv, types, len, dtype);
  }

  lemma {:induction false} GroupedLayers(cfg: Config, dim: int, kv: int, types: seq<string>, len: nat, dtype: DType)
    requires cfg.numKvHeads == Some(kv) && kv >= 1 && cfg.numHeads >= 1 && !dtype.IsSubByte()
    ensures TypedBytes(cfg, dim, types, len, dtype, 1) * cfg.numHeads
            == TypedBytes(Ungrouped(cfg), dim, types, len, dtype, 1) * kv
    decreases |types|
  {
    if types != [] {
      GroupedLayers(cfg, dim, kv, types[1..], len, dtype);
      GroupedLayer(cfg, dim, kv, types[0], len, dtype);
      Distribute(LayerBytes(TypedLayer(cfg, dim, types[0]), len, dtype, 1),
                 TypedBytes(cfg, dim, types[1..], len, dtype, 1), cfg.numHeads);
      Distribute(LayerBytes(TypedLayer(Ungrouped(cfg), dim, types[0]), len, dtype, 1),
                 TypedBytes(Ungrouped(cfg), dim, types[1..], len, dtype, 1), kv);
    }
  }

  lemma GroupedLayer(cfg: Config, dim: int, kv: int, name: string, len: nat, dtype: DType)
    requires cfg.numKvHeads == Some(kv) && kv >= 1 && cfg.numHeads >= 1 && !dtype.IsSubByte()
    ensures LayerBytes(TypedLayer(cfg, dim, name), len, dtype, 1) * cfg.numHeads
            == LayerBytes(TypedLayer(Ungrouped(cfg), dim, name), len, dtype, 1) * kv
  {
    var a, b := TypedLayer(cfg, dim, name), TypedLayer(Ungrouped(cfg), dim, name);
    if a.Ok? {
      var x, y := a.value.spec, b.value.spec;
      GroupedPart(x.kind, y.kind, kv, cfg.numHeads, dim, 1, x.window, len, dtype);
    }
  }
}
