/**
 Per-architecture cache cost models (core/cache.py): a tree whose leaves are attention, latent
 attention and recurrent layers, and whose inner nodes add their parts up.
 */
module CacheSpecs {
  import opened Results
  import opened Arithmetic
  import opened DTypes

  datatype AttentionKind = MHA | GQA | LATENT | SLIDING_WINDOW | HYBRID | RECURRENT

  datatype CacheSpec =
    | Attention(kind: AttentionKind, kvHeads: int, headDim: int, kvLayers: int, window: Option<int>)
    | MLA(loraRank: int, ropeDim: int, latentLayers: int)
    | Recurrent(dInner: int, nGroups: int, stateSize: int, convKernel: int, recurrentLayers: int)
    | Layered(parts: seq<CacheSpec>)

  /** What the dataclass constructors check of one node. */
  predicate ValidNode(spec: CacheSpec) {
    match spec
    case Attention(kind, heads, dim, layers, window) =>
      && heads >= 1 && dim >= 1 && layers >= 1
      && (window.Some? ==> window.value >= 1)
      && (kind.SLIDING_WINDOW? ==> window.Some?)
      && !kind.LATENT? && !kind.RECURRENT? && !kind.HYBRID?
    case MLA(rank, rope, layers) => rank >= 1 && rope >= 1 && layers >= 1
    case Recurrent(d, g, s, c, layers) => d >= 1 && g >= 1 && s >= 1 && c >= 1 && layers >= 1
    case Layered(parts) => parts != []
  }

  /** Constructors run bottom-up, so a spec that exists has passed every check in its tree. */
  predicate Valid(spec: CacheSpec)
    decreases spec, 1
  {
    ValidNode(spec) && (spec.Layered? ==> AllValid(spec.parts))
  }

  predicate AllValid(parts: seq<CacheSpec>)
    decreases parts, 0
  {
    parts == [] || (Valid(parts[0]) && AllValid(parts[1..]))
  }

  /** KV heads on each rank; fewer heads than ranks are replicated, hence the ceiling. */
  function KvHeadsPerGpu(heads: nat, tp: nat): (h: nat)
    requires tp >= 1
    ensures h >= 1
  {
    Max(1, CeilDiv(heads, tp))
  }

  /** Bytes one cached token costs across a leaf's layers, before any window cap. */
  function TokenBytes(spec: CacheSpec, dtype: DType, tp: nat): nat
    requires ValidNode(spec) && (spec.Attention? || spec.MLA?) && tp >= 1
  {
    match spec
    case Attention(_, heads, dim, layers, _) =>
      BytesFor(2 * KvHeadsPerGpu(heads, tp) * dim * layers, dtype)
    case MLA(rank, rope, layers) =>
      (if dtype.IsFloat8() then rank + 2 * rope + 16 else BytesFor(rank + rope, dtype)) * layers
  }

  /** Mamba state elements per layer; the inner dimension is sharded, the group count floored at 1. */
  function StateElements(d: nat, g: nat, s: nat, c: nat, tp: nat): nat
    requires tp >= 1
  {
    var inner := CeilDiv(d, tp);
    var groups := Max(1, CeilDiv(g, tp)) as nat;
    (inner + 2 * groups * s) * c + inner * s
  }

  function FixedBytes(spec: CacheSpec, dtype: DType, tp: nat): nat
    requires Valid(spec) && tp >= 1
    decreases spec, 1
  {
    match spec
    case Attention(_, _, _, _, _) => 0
    case MLA(_, _, _) => 0
    case Recurrent(d, g, s, c, layers) => BytesFor(StateElements(d, g, s, c, tp) * layers, dtype)
    case Layered(parts) => FixedBytesAll(parts, dtype, tp)
  }

  function FixedBytesAll(parts: seq<CacheSpec>, dtype: DType, tp: nat): nat
    requires AllValid(parts) && tp >= 1
    decreases parts, 0
  {
    if parts == [] then 0 else FixedBytes(parts[0], dtype, tp) + FixedBytesAll(parts[1..], dtype, tp)
  }

  function MarginalBytes(spec: CacheSpec, dtype: DType, tp: nat): nat
    requires Valid(spec) && tp >= 1
    decreases spec, 1
  {
    match spec
    case Attention(_, _, _, _, window) => if window.Some? then 0 else TokenBytes(spec, dtype, tp)
    case MLA(_, _, _) => TokenBytes(spec, dtype, tp)
    case Recurrent(_, _, _, _, _) => 0
    case Layered(parts) => MarginalBytesAll(parts, dtype, tp)
  }

  function MarginalBytesAll(parts: seq<CacheSpec>, dtype: DType, tp: nat): nat
    requires AllValid(parts) && tp >= 1
    decreases parts, 0
  {
    if parts == [] then 0 else MarginalBytes(parts[0], dtype, tp) + MarginalBytesAll(parts[1..], dtype, tp)
  }

  function SequenceBytes(spec: CacheSpec, len: nat, dtype: DType, tp: nat): nat
    requires Valid(spec) && tp >= 1
    decreases spec, 1
  {
    match spec
    case Attention(_, _, _, _, window) =>
      var retained: nat := if window.Some? then Min(len, window.value) else len;
      MulMonotone(0, retained, 0, TokenBytes(spec, dtype, tp));
      retained * TokenBytes(spec, dtype, tp)
    case MLA(_, _, _) =>
      MulMonotone(0, len, 0, TokenBytes(spec, dtype, tp));
      len * TokenBytes(spec, dtype, tp)
    case Recurrent(_, _, _, _, _) => FixedBytes(spec, dtype, tp)
    case Layered(parts) => SequenceBytesAll(parts, len, dtype, tp)
  }

  function SequenceBytesAll(parts: seq<CacheSpec>, len: nat, dtype: DType, tp: nat): nat
    requires AllValid(parts) && tp >= 1
    decreases parts, 0
  {
    if parts == [] then 0
    else SequenceBytes(parts[0], len, dtype, tp) + SequenceBytesAll(parts[1..], len, dtype, tp)
  }

  predicate ScalesWithContext(spec: CacheSpec)
    decreases spec, 1
  {
    match spec
    case Attention(_, _, _, _, _) => true
    case MLA(_, _, _) => true
    case Recurrent(_, _, _, _, _) => false
    case Layered(parts) => AnyScales(parts)
  }

  predicate AnyScales(parts: seq<CacheSpec>)
    decreases parts, 0
  {
    parts != [] && (ScalesWithContext(parts[0]) || AnyScales(parts[1..]))
  }

  function CacheLayers(spec: CacheSpec): int
    decreases spec, 1
  {
    match spec
    case Attention(_, _, _, layers, _) => layers
    case MLA(_, _, layers) => layers
    case Recurrent(_, _, _, _, layers) => layers
    case Layered(parts) => CacheLayersAll(parts)
  }

  function CacheLayersAll(parts: seq<CacheSpec>): int
    decreases parts, 0
  {
    if parts == [] then 0 else CacheLayers(parts[0]) + CacheLayersAll(parts[1..])
  }

  // ---------------------------------------------------------------- the closed form

  /** A windowed attention leaf, reduced to what it costs: a cap on length and bytes per token. */
  datatype Cap = Cap(window: nat, perToken: nat)

  ghost function Caps(spec: CacheSpec, dtype: DType, tp: nat): seq<Cap>
    requires Valid(spec) && tp >= 1
    decreases spec, 1
  {
    match spec
    case Attention(_, _, _, _, window) =>
      if window.Some? then [Cap(window.value, TokenBytes(spec, dtype, tp))] else []
    case MLA(_, _, _) => []
    case Recurrent(_, _, _, _, _) => []
    case Layered(parts) => CapsAll(parts, dtype, tp)
  }

  ghost function CapsAll(parts: seq<CacheSpec>, dtype: DType, tp: nat): seq<Cap>
    requires AllValid(parts) && tp >= 1
    decreases parts, 0
  {
    if parts == [] then [] else Caps(parts[0], dtype, tp) + CapsAll(parts[1..], dtype, tp)
  }

  /** The part of a sequence's cost that saturates: the sum of min(len, window) * bytes per token. */
  ghost function CappedBytes(caps: seq<Cap>, len: nat): nat {
    if caps == [] then 0
    else Min(len, caps[0].window) * caps[0].perToken + CappedBytes(caps[1..], len)
  }

  lemma {:induction false} CappedBytesConcat(a: seq<Cap>, b: seq<Cap>, len: nat)
    ensures CappedBytes(a + b, len) == CappedBytes(a, len) + CappedBytes(b, len)
    decreases |a|
  {
    if a == [] {
      assert a + b == b;
    } else {
      assert (a + b)[1..] == a[1..] + b;
      CappedBytesConcat(a[1..], b, len);
    }
  }

  /** Main decomposition: every cache tree costs fixed + len * marginal + its capped leaves. */
  lemma {:induction false} ClosedForm(spec: CacheSpec, len: nat, dtype: DType, tp: nat)
    requires Valid(spec) && tp >= 1
    ensures SequenceBytes(spec, len, dtype, tp)
            == FixedBytes(spec, dtype, tp) + len * MarginalBytes(spec, dtype, tp)
               + CappedBytes(Caps(spec, dtype, tp), len)
    decreases spec, 1
  {
    if spec.Layered? { ClosedFormAll(spec.parts, len, dtype, tp); }
  }

  lemma {:induction false} ClosedFormAll(parts: seq<CacheSpec>, len: nat, dtype: DType, tp: nat)
    requires AllValid(parts) && tp >= 1
    ensures SequenceBytesAll(parts, len, dtype, tp)
            == FixedBytesAll(parts, dtype, tp) + len * MarginalBytesAll(parts, dtype, tp)
               + CappedBytes(CapsAll(parts, dtype, tp), len)
    decreases parts, 0
  {
    if parts != [] {
      var head, tail := parts[0], parts[1..];
      var m, ms := MarginalBytes(head, dtype, tp), MarginalBytesAll(tail, dtype, tp);
      ClosedForm(head, len, dtype, tp);
      ClosedFormAll(tail, len, dtype, tp);
      assert CappedBytes(CapsAll(parts, dtype, tp), len)
          == CappedBytes(Caps(head, dtype, tp), len) + CappedBytes(CapsAll(tail, dtype, tp), len) by {
        CappedBytesConcat(Caps(head, dtype, tp), CapsAll(tail, dtype, tp), len);
      }
      assert MarginalBytesAll(parts, dtype, tp) == m + ms;
      assert len * (m + ms) == len * m + len * ms by { Distribute(m, ms, len); }
    }
  }

  /** Extra capped bytes from one more token; it only ever shrinks, and is zero past every window. */
  ghost function CappedStep(caps: seq<Cap>, len: nat): nat {
    if caps == [] then 0
    else (if len < caps[0].window then caps[0].perToken else 0) + CappedStep(caps[1..], len)
  }

  lemma {:induction false} CappedStepIsDifference(caps: seq<Cap>, len: nat)
    ensures CappedBytes(caps, len + 1) == CappedBytes(caps, len) + CappedStep(caps, len)
    decreases |caps|
  {
    if caps != [] {
      var c := caps[0];
      CappedStepIsDifference(caps[1..], len);
      Distribute(len, 1, c.perToken);
    }
  }

  lemma {:induction false} CappedStepShrinks(caps: seq<Cap>, len: nat, len': nat)
    requires len <= len'
    ensures CappedStep(caps, len') <= CappedStep(caps, len)
    decreases |caps|
  {
    if caps != [] { CappedStepShrinks(caps[1..], len, len'); }
  }

  lemma {:induction false} CappedStepVanishes(caps: seq<Cap>, len: nat)
    requires forall i :: 0 <= i < |caps| ==> caps[i].window <= len
    ensures CappedStep(caps, len) == 0
    decreases |caps|
  {
    if caps != [] { CappedStepVanishes(caps[1..], len); }
  }

  /** One more token costs the marginal bytes plus whatever the unfilled windows still take. */
  lemma NextTokenCost(spec: CacheSpec, len: nat, dtype: DType, tp: nat)
    requires Valid(spec) && tp >= 1
    ensures SequenceBytes(spec, len + 1, dtype, tp)
            == SequenceBytes(spec, len, dtype, tp) + MarginalBytes(spec, dtype, tp)
               + CappedStep(Caps(spec, dtype, tp), len)
  {
    ClosedForm(spec, len, dtype, tp);
    ClosedForm(spec, len + 1, dtype, tp);
    CappedStepIsDifference(Caps(spec, dtype, tp), len);
    Distribute(len, 1, MarginalBytes(spec, dtype, tp));
  }

  lemma {:induction false} SequenceBytesMonotone(spec: CacheSpec, len: nat, len': nat, dtype: DType, tp: nat)
    requires Valid(spec) && tp >= 1 && len <= len'
    ensures SequenceBytes(spec, len, dtype, tp) <= SequenceBytes(spec, len', dtype, tp)
    decreases len' - len
  {
    if len < len' {
      NextTokenCost(spec, len, dtype, tp);
      SequenceBytesMonotone(spec, len + 1, len', dtype, tp);
    }
  }

  /** Concavity: a later token never costs more than an earlier one. */
  lemma SequenceBytesConcave(spec: CacheSpec, len: nat, len': nat, dtype: DType, tp: nat)
    requires Valid(spec) && tp >= 1 && len <= len'
    ensures SequenceBytes(spec, len' + 1, dtype, tp) - SequenceBytes(spec, len', dtype, tp)
            <= SequenceBytes(spec, len + 1, dtype, tp) - SequenceBytes(spec, len, dtype, tp)
  {
    NextTokenCost(spec, len, dtype, tp);
    NextTokenCost(spec, len', dtype, tp);
    CappedStepShrinks(Caps(spec, dtype, tp), len, len');
  }

  /** Past every window, a token costs exactly `marginal_bytes_per_token`. */
  lemma GrowthPastWindows(spec: CacheSpec, len: nat, dtype: DType, tp: nat)
    requires Valid(spec) && tp >= 1
    requires var caps := Caps(spec, dtype, tp);
             forall i :: 0 <= i < |caps| ==> caps[i].window <= len
    ensures SequenceBytes(spec, len + 1, dtype, tp) - SequenceBytes(spec, len, dtype, tp)
            == MarginalBytes(spec, dtype, tp)
  {
    NextTokenCost(spec, len, dtype, tp);
    CappedStepVanishes(Caps(spec, dtype, tp), len);
  }

  // ---------------------------------------------------------------- scaling with context

  lemma TokenBytesPositive(spec: CacheSpec, dtype: DType, tp: nat)
    requires ValidNode(spec) && (spec.Attention? || spec.MLA?) && tp >= 1
    ensures TokenBytes(spec, dtype, tp) >= 1
    ensures !dtype.IsSubByte() ==> TokenBytes(spec, dtype, tp) >= 2 || spec.MLA?
  {
    match spec
    case Attention(_, heads, dim, layers, _) =>
      var h := KvHeadsPerGpu(heads, tp);
      PairOfProducts(h, dim, layers);
      hide KvHeadsPerGpu;
      BytesForMonotone(2, 2 * h * dim * layers, dtype);
    case MLA(rank, rope, layers) =>
      BytesForMonotone(2, rank + rope, dtype);
      hide BytesFor;
      MulMonotone(1, if dtype.IsFloat8() then rank + 2 * rope + 16 else BytesFor(rank + rope, dtype), 1, layers);
  }

  lemma PairOfProducts(a: nat, b: nat, c: nat)
    requires a >= 1 && b >= 1 && c >= 1
    ensures 2 * a * b * c >= 2
  {
    MulMonotone(2, 2 * a, 1, b);
    MulMonotone(2, 2 * a * b, 1, c);
  }

  /** Every capped leaf of a valid tree really caps: a window and a cost of at least 1. */
  lemma {:induction false} CapsArePositive(spec: CacheSpec, dtype: DType, tp: nat)
    requires Valid(spec) && tp >= 1
    ensures forall c :: c in Caps(spec, dtype, tp) ==>
              c.window >= 1 && c.perToken >= (if dtype.IsSubByte() then 1 else 2)
    decreases spec, 1
  {
    match spec
    case Attention(_, _, _, _, _) => TokenBytesPositive(spec, dtype, tp);
    case MLA(_, _, _) =>
    case Recurrent(_, _, _, _, _) =>
    case Layered(parts) => CapsArePositiveAll(parts, dtype, tp);
  }

  lemma {:induction false} CapsArePositiveAll(parts: seq<CacheSpec>, dtype: DType, tp: nat)
    requires AllValid(parts) && tp >= 1
    ensures forall c :: c in CapsAll(parts, dtype, tp) ==>
              c.window >= 1 && c.perToken >= (if dtype.IsSubByte() then 1 else 2)
    decreases parts, 0
  {
    if parts != [] {
      CapsArePositive(parts[0], dtype, tp);
      CapsArePositiveAll(parts[1..], dtype, tp);
    }
  }

  lemma {:induction false} ScalesMeansPerTokenCost(spec: CacheSpec, dtype: DType, tp: nat)
    requires Valid(spec) && tp >= 1
    ensures ScalesWithContext(spec) <==> MarginalBytes(spec, dtype, tp) > 0 || Caps(spec, dtype, tp) != []
    decreases spec, 1
  {
    match spec
    case Attention(_, _, _, _, _) => TokenBytesPositive(spec, dtype, tp);
    case MLA(_, _, _) => TokenBytesPositive(spec, dtype, tp);
    case Recurrent(_, _, _, _, _) =>
    case Layered(parts) => ScalesMeansPerTokenCostAll(parts, dtype, tp);
  }

  lemma {:induction false} ScalesMeansPerTokenCostAll(parts: seq<CacheSpec>, dtype: DType, tp: nat)
    requires AllValid(parts) && tp >= 1
    ensures AnyScales(parts) <==> MarginalBytesAll(parts, dtype, tp) > 0 || CapsAll(parts, dtype, tp) != []
    decreases parts, 0
  {
    if parts != [] {
      ScalesMeansPerTokenCost(parts[0], dtype, tp);
      ScalesMeansPerTokenCostAll(parts[1..], dtype, tp);
    }
  }

  lemma FirstTokenOfCaps(caps: seq<Cap>, least: nat)
    requires caps != [] && forall c :: c in caps ==> c.window >= 1 && c.perToken >= least
    ensures CappedBytes(caps, 1) >= least && CappedBytes(caps, 0) == 0
  {
    FirstTokenIsFree(caps);
    assert caps[0] in caps;
    assert Min(1, caps[0].window) == 1;
  }

  lemma {:induction false} FirstTokenIsFree(caps: seq<Cap>)
    ensures CappedBytes(caps, 0) == 0
    decreases |caps|
  {
    if caps != [] { FirstTokenIsFree(caps[1..]); }
  }

  /** `scales_with_context` is False exactly when the cost of a sequence never depends on its length. */
  lemma ScalesWithContextIsExact(spec: CacheSpec, dtype: DType, tp: nat)
    requires Valid(spec) && tp >= 1
    ensures !ScalesWithContext(spec)
            <==> forall len: nat :: SequenceBytes(spec, len, dtype, tp) == SequenceBytes(spec, 0, dtype, tp)
  {
    ScalesMeansPerTokenCost(spec, dtype, tp);
    CapsArePositive(spec, dtype, tp);
    ClosedForm(spec, 0, dtype, tp);
    ClosedForm(spec, 1, dtype, tp);
    var caps := Caps(spec, dtype, tp);
    FirstTokenIsFree(caps);
    if ScalesWithContext(spec) {
      if caps != [] { FirstTokenOfCaps(caps, 1); }
      assert SequenceBytes(spec, 1, dtype, tp) != SequenceBytes(spec, 0, dtype, tp);
    } else {
      forall len: nat ensures SequenceBytes(spec, len, dtype, tp) == SequenceBytes(spec, 0, dtype, tp) {
        ClosedForm(spec, len, dtype, tp);
      }
    }
  }

  // ---------------------------------------------------------------- tensor parallelism

  lemma StateElementsAntitone(d: nat, g: nat, s: nat, c: nat, tp: nat, tp': nat)
    requires 1 <= tp <= tp'
    ensures StateElements(d, g, s, c, tp') <= StateElements(d, g, s, c, tp)
  {
    CeilDivAntitone(d, tp, tp');
    CeilDivAntitone(g, tp, tp');
    var inner, inner' := CeilDiv(d, tp), CeilDiv(d, tp');
    var groups, groups' := Max(1, CeilDiv(g, tp)) as nat, Max(1, CeilDiv(g, tp')) as nat;
    MulMonotone(2 * groups', 2 * groups, s, s);
    MulMonotone(inner' + 2 * groups' * s, inner + 2 * groups * s, c, c);
    MulMonotone(inner', inner, s, s);
  }

  lemma TokenBytesAntitone(spec: CacheSpec, dtype: DType, tp: nat, tp': nat)
    requires ValidNode(spec) && (spec.Attention? || spec.MLA?) && 1 <= tp <= tp'
    ensures TokenBytes(spec, dtype, tp') <= TokenBytes(spec, dtype, tp)
  {
    if spec.Attention? {
      CeilDivAntitone(spec.kvHeads, tp, tp');
      var h, h' := KvHeadsPerGpu(spec.kvHeads, tp), KvHeadsPerGpu(spec.kvHeads, tp');
      MulMonotone(2 * h', 2 * h, spec.headDim, spec.headDim);
      MulMonotone(2 * h' * spec.headDim, 2 * h * spec.headDim, spec.kvLayers, spec.kvLayers);
      BytesForMonotone(2 * h' * spec.headDim * spec.kvLayers, 2 * h * spec.headDim * spec.kvLayers, dtype);
    }
  }

  /** Adding ranks never raises what one rank stores, per sequence or per token. */
  lemma {:induction false} ShardingNeverCosts(spec: CacheSpec, dtype: DType, tp: nat, tp': nat)
    requires Valid(spec) && 1 <= tp <= tp'
    ensures FixedBytes(spec, dtype, tp') <= FixedBytes(spec, dtype, tp)
    ensures MarginalBytes(spec, dtype, tp') <= MarginalBytes(spec, dtype, tp)
    decreases spec, 1
  {
    match spec
    case Attention(_, _, _, _, _) => TokenBytesAntitone(spec, dtype, tp, tp');
    case MLA(_, _, _) => TokenBytesAntitone(spec, dtype, tp, tp');
    case Recurrent(d, g, s, c, layers) =>
      StateElementsAntitone(d, g, s, c, tp, tp');
      MulMonotone(StateElements(d, g, s, c, tp'), StateElements(d, g, s, c, tp), layers, layers);
      BytesForMonotone(StateElements(d, g, s, c, tp') * layers, StateElements(d, g, s, c, tp) * layers, dtype);
    case Layered(parts) => ShardingNeverCostsAll(parts, dtype, tp, tp');
  }

  lemma {:induction false} ShardingNeverCostsAll(parts: seq<CacheSpec>, dtype: DType, tp: nat, tp': nat)
    requires AllValid(parts) && 1 <= tp <= tp'
    ensures FixedBytesAll(parts, dtype, tp') <= FixedBytesAll(parts, dtype, tp)
    ensures MarginalBytesAll(parts, dtype, tp') <= MarginalBytesAll(parts, dtype, tp)
    decreases parts, 0
  {
    if parts != [] {
      ShardingNeverCosts(parts[0], dtype, tp, tp');
      ShardingNeverCostsAll(parts[1..], dtype, tp, tp');
    }
  }

  /** The least number of heads a rank can hold so that `tp` ranks hold them all. */
  lemma KvHeadsCover(heads: nat, tp: nat, h: nat)
    requires tp >= 1 && heads >= 1
    ensures h >= KvHeadsPerGpu(heads, tp) <==> tp * h >= heads
  {
    CeilDivGalois(heads, tp, h);
    CeilDivGalois(heads, tp, 0);
  }

  /** Latent caches are replicated: every rank stores what a single one would. */
  lemma LatentsReplicate(spec: CacheSpec, dtype: DType, tp: nat)
    requires ValidNode(spec) && spec.MLA? && tp >= 1
    ensures TokenBytes(spec, dtype, tp) == TokenBytes(spec, dtype, 1)
  {}

  /** One token of one attention layer on one rank: a key and a value for each head, packed. */
  lemma AttentionTokenExactly(kind: AttentionKind, heads: int, dim: int, layers: int, window: Option<int>, dtype: DType)
    requires ValidNode(Attention(kind, heads, dim, layers, window))
    ensures TokenBytes(Attention(kind, heads, dim, layers, window), dtype, 1) == BytesFor(2 * heads * dim * layers, dtype)
  {
    CeilDivGalois(heads, 1, heads);
    CeilDivGalois(heads, 1, heads - 1);
    assert KvHeadsPerGpu(heads, 1) == heads;
  }

  /** A latent layer stores rank and rope as they are, or at eight bits with scales and a wider rope. */
  lemma LatentTokenExactly(rank: int, rope: int, layers: int, dtype: DType, tp: nat)
    requires ValidNode(MLA(rank, rope, layers)) && tp >= 1
    ensures dtype.Bits() == 16 ==> TokenBytes(MLA(rank, rope, layers), dtype, tp) == 2 * (rank + rope) * layers
    ensures dtype == FP8_E4M3 || dtype == FP8_E5M2 ==>
              TokenBytes(MLA(rank, rope, layers), dtype, tp) == (rank + 2 * rope + 16) * layers
    ensures dtype == INT8 ==> TokenBytes(MLA(rank, rope, layers), dtype, tp) == (rank + rope) * layers
  {}

  /**
   Mamba state on one rank: a convolution window over the inner channels and both group projections,
   and an SSM state for every inner channel.
   */
  lemma StateExactly(d: nat, g: nat, s: nat, c: nat)
    requires g >= 1
    ensures StateElements(d, g, s, c, 1) == c * d + 2 * (c * g * s) + d * s
  {
    CeilDivGalois(d, 1, d);
    CeilDivGalois(g, 1, g);
    assert d == 0 || CeilDiv(d, 1) > d - 1 by { if d > 0 { CeilDivGalois(d, 1, d - 1); } }
    CeilDivGalois(g, 1, g - 1);
    assert CeilDiv(d, 1) == d && CeilDiv(g, 1) == g;
    Distribute(d, 2 * g * s, c);
    assert 2 * g * s * c == 2 * (c * g * s);
  }

  /** Split over ranks that divide both, the state's channels and groups divide with them. */
  lemma StateShards(d: nat, g: nat, s: nat, c: nat, tp: nat)
    requires tp >= 1 && g >= 1
    ensures StateElements(d * tp, g * tp, s, c, tp) == StateElements(d, g, s, c, 1)
  {
    ExactShare(d, tp);
    ExactShare(g, tp);
    ExactShare(d, 1);
    ExactShare(g, 1);
  }

  lemma ExactShare(d: nat, tp: nat)
    requires tp >= 1
    ensures CeilDiv(d * tp, tp) == d
  {
    CeilDivGalois(d * tp, tp, d);
    if d > 0 {
      CeilDivGalois(d * tp, tp, d - 1);
      Distribute(d, -1, tp);
    }
  }

  // ---------------------------------------------------------------- fp8 against bf16

  /** Every latent leaf is wide enough that its fp8 scales cost no more than fp8 saves. */
  ghost predicate LatentsAtLeast16(spec: CacheSpec)
    decreases spec, 1
  {
    match spec
    case Attention(_, _, _, _, _) => true
    case MLA(rank, _, _) => rank >= 16
    case Recurrent(_, _, _, _, _) => true
    case Layered(parts) => AllLatentsAtLeast16(parts)
  }

  ghost predicate AllLatentsAtLeast16(parts: seq<CacheSpec>)
    decreases parts, 0
  {
    parts == [] || (LatentsAtLeast16(parts[0]) && AllLatentsAtLeast16(parts[1..]))
  }

  /** For one latent cache the rank bound is exact. */
  lemma LatentFp8Exact(spec: CacheSpec, dtype: DType, tp: nat)
    requires ValidNode(spec) && spec.MLA? && dtype.IsFloat8() && tp >= 1
    ensures TokenBytes(spec, dtype, tp) <= TokenBytes(spec, BF16, tp) <==> spec.loraRank >= 16
  {
    var fp8, bf16 := spec.loraRank + 2 * spec.ropeDim + 16, 2 * (spec.loraRank + spec.ropeDim);
    assert BytesFor(spec.loraRank + spec.ropeDim, BF16) == bf16;
    if fp8 <= bf16 {
      MulMonotone(fp8, bf16, spec.latentLayers, spec.latentLayers);
    } else {
      MulMonotone(bf16 + 1, fp8, spec.latentLayers, spec.latentLayers);
      assert (bf16 + 1) * spec.latentLayers == bf16 * spec.latentLayers + spec.latentLayers;
    }
  }

  lemma {:induction false} Fp8NeverCosts(spec: CacheSpec, dtype: DType, tp: nat)
    requires Valid(spec) && LatentsAtLeast16(spec) && dtype.IsFloat8() && tp >= 1
    ensures FixedBytes(spec, dtype, tp) <= FixedBytes(spec, BF16, tp)
    ensures MarginalBytes(spec, dtype, tp) <= MarginalBytes(spec, BF16, tp)
    decreases spec, 1
  {
    match spec
    case Attention(_, _, _, _, _) =>
    case MLA(_, _, _) => LatentFp8Exact(spec, dtype, tp);
    case Recurrent(_, _, _, _, _) =>
    case Layered(parts) => Fp8NeverCostsAll(parts, dtype, tp);
  }

  lemma {:induction false} Fp8NeverCostsAll(parts: seq<CacheSpec>, dtype: DType, tp: nat)
    requires AllValid(parts) && AllLatentsAtLeast16(parts) && dtype.IsFloat8() && tp >= 1
    ensures FixedBytesAll(parts, dtype, tp) <= FixedBytesAll(parts, BF16, tp)
    ensures MarginalBytesAll(parts, dtype, tp) <= MarginalBytesAll(parts, BF16, tp)
    decreases parts, 0
  {
    if parts != [] {
      Fp8NeverCosts(parts[0], dtype, tp);
      Fp8NeverCostsAll(parts[1..], dtype, tp);
    }
  }

  // ---------------------------------------------------------------- the planner's charge

  ghost function Sum(lens: seq<nat>): nat {
    if lens == [] then 0 else lens[0] + Sum(lens[1..])
  }

  /** The cache really held by concurrent sequences of the given lengths. */
  ghost function Footprint(spec: CacheSpec, lens: seq<nat>, dtype: DType, tp: nat): nat
    requires Valid(spec) && tp >= 1
  {
    if lens == [] then 0
    else SequenceBytes(spec, lens[0], dtype, tp) + Footprint(spec, lens[1..], dtype, tp)
  }

  /** The planner's per-token price: the marginal cost, floored at 1 to keep division safe. */
  function PerToken(spec: CacheSpec, dtype: DType, tp: nat): (p: nat)
    requires Valid(spec) && tp >= 1
    ensures p >= 1
  {
    Max(1, MarginalBytes(spec, dtype, tp))
  }

  /** What `fits` charges for `n` sequences holding `tokens` tokens between them. */
  function Charge(spec: CacheSpec, n: nat, tokens: nat, dtype: DType, tp: nat): nat
    requires Valid(spec) && tp >= 1
  {
    n * FixedBytes(spec, dtype, tp) + tokens * PerToken(spec, dtype, tp)
  }

  ghost function CappedTotal(caps: seq<Cap>, lens: seq<nat>): nat {
    if lens == [] then 0 else CappedBytes(caps, lens[0]) + CappedTotal(caps, lens[1..])
  }

  lemma {:induction false} FootprintClosedForm(spec: CacheSpec, lens: seq<nat>, dtype: DType, tp: nat)
    requires Valid(spec) && tp >= 1
    ensures Footprint(spec, lens, dtype, tp)
            == |lens| * FixedBytes(spec, dtype, tp) + Sum(lens) * MarginalBytes(spec, dtype, tp)
               + CappedTotal(Caps(spec, dtype, tp), lens)
    decreases |lens|
  {
    if lens != [] {
      ClosedForm(spec, lens[0], dtype, tp);
      FootprintClosedForm(spec, lens[1..], dtype, tp);
      Distribute(1, |lens[1..]|, FixedBytes(spec, dtype, tp));
      Distribute(lens[0], Sum(lens[1..]), MarginalBytes(spec, dtype, tp));
    }
  }

  lemma {:induction false} NoCapsNoCappedBytes(lens: seq<nat>)
    ensures CappedTotal([], lens) == 0
    decreases |lens|
  {
    if lens != [] { NoCapsNoCappedBytes(lens[1..]); }
  }

  /** The charge covers the footprint of any in-flight lengths adding up to the charged tokens. */
  ghost predicate ChargeCovers(spec: CacheSpec, lens: seq<nat>, dtype: DType, tp: nat)
    requires Valid(spec) && tp >= 1
  {
    Footprint(spec, lens, dtype, tp) <= Charge(spec, |lens|, Sum(lens), dtype, tp)
  }

  /** The price of one token covers what the first token of a sequence stores. */
  ghost predicate FirstTokenCovered(spec: CacheSpec, dtype: DType, tp: nat)
    requires Valid(spec) && tp >= 1
  {
    MarginalBytes(spec, dtype, tp) + CappedBytes(Caps(spec, dtype, tp), 1) <= PerToken(spec, dtype, tp)
  }

  /**
   A windowed leaf costs bytes per token but adds nothing to the price, so none may be present; except that
   a cache storing nothing else hides one byte under the floor of one, which takes a four-bit type.
   */
  lemma FirstTokenCoveredExactly(spec: CacheSpec, dtype: DType, tp: nat)
    requires Valid(spec) && tp >= 1
    ensures var caps := Caps(spec, dtype, tp);
            && (FirstTokenCovered(spec, dtype, tp)
                <==> caps == [] || (MarginalBytes(spec, dtype, tp) == 0 && CappedBytes(caps, 1) == 1))
            && (!dtype.IsSubByte() ==> (FirstTokenCovered(spec, dtype, tp) <==> caps == []))
  {
    var caps := Caps(spec, dtype, tp);
    CapsArePositive(spec, dtype, tp);
    if caps != [] { FirstTokenOfCaps(caps, if dtype.IsSubByte() then 1 else 2); }
  }

  /** A capped leaf never stores more than its first token's bytes for each token. */
  lemma {:induction false} CappedWithinFirst(caps: seq<Cap>, len: nat)
    requires forall c :: c in caps ==> c.window >= 1
    ensures CappedBytes(caps, len) <= len * CappedBytes(caps, 1)
    decreases |caps|
  {
    if caps != [] {
      CappedWithinFirst(caps[1..], len);
      assert caps[0] in caps;
      assert Min(1, caps[0].window) == 1;
      MulMonotone(Min(len, caps[0].window), len, caps[0].perToken, caps[0].perToken);
      Distribute(caps[0].perToken, CappedBytes(caps[1..], 1), len);
    }
  }

  lemma {:induction false} CappedTotalWithinFirst(caps: seq<Cap>, lens: seq<nat>)
    requires forall c :: c in caps ==> c.window >= 1
    ensures CappedTotal(caps, lens) <= Sum(lens) * CappedBytes(caps, 1)
    decreases |lens|
  {
    if lens != [] {
      CappedTotalWithinFirst(caps, lens[1..]);
      CappedWithinFirst(caps, lens[0]);
      Distribute(lens[0], Sum(lens[1..]), CappedBytes(caps, 1));
    }
  }

  /** The planner's charge bounds the real footprint on every batch exactly when it covers a first token. */
  lemma ChargeCoversExactly(spec: CacheSpec, dtype: DType, tp: nat)
    requires Valid(spec) && tp >= 1
    ensures (forall lens: seq<nat> :: ChargeCovers(spec, lens, dtype, tp)) <==> FirstTokenCovered(spec, dtype, tp)
  {
    if FirstTokenCovered(spec, dtype, tp) {
      forall lens: seq<nat> ensures ChargeCovers(spec, lens, dtype, tp) { CoveredChargeCovers(spec, lens, dtype, tp); }
    } else {
      OneTokenFootprint(spec, dtype, tp);
      assert !ChargeCovers(spec, [1], dtype, tp);
    }
  }

  lemma CoveredChargeCovers(spec: CacheSpec, lens: seq<nat>, dtype: DType, tp: nat)
    requires Valid(spec) && tp >= 1 && FirstTokenCovered(spec, dtype, tp)
    ensures ChargeCovers(spec, lens, dtype, tp)
  {
    var caps, m := Caps(spec, dtype, tp), MarginalBytes(spec, dtype, tp);
    CapsArePositive(spec, dtype, tp);
    hide CappedBytes, PerToken, FixedBytes;
    FootprintClosedForm(spec, lens, dtype, tp);
    CappedTotalWithinFirst(caps, lens);
    Distribute(m, CappedBytes(caps, 1), Sum(lens));
    MulMonotone(Sum(lens), Sum(lens), m + CappedBytes(caps, 1), PerToken(spec, dtype, tp));
  }

  /** A batch of one token, stored and charged. */
  lemma OneTokenFootprint(spec: CacheSpec, dtype: DType, tp: nat)
    requires Valid(spec) && tp >= 1
    ensures Sum([1]) == 1
    ensures Footprint(spec, [1], dtype, tp)
            == FixedBytes(spec, dtype, tp) + MarginalBytes(spec, dtype, tp) + CappedBytes(Caps(spec, dtype, tp), 1)
    ensures Charge(spec, 1, 1, dtype, tp) == FixedBytes(spec, dtype, tp) + PerToken(spec, dtype, tp)
  {
    var one, caps := [1 as nat], Caps(spec, dtype, tp);
    FootprintClosedForm(spec, one, dtype, tp);
    assert one[1..] == [] && Sum(one) == 1;
    assert CappedTotal(caps, one) == CappedBytes(caps, 1);
  }

  /**
   The charge equals the footprint on every batch exactly when no leaf slides a window and some leaf
   pays per token: a purely recurrent cache is still charged a byte for every token.
   */
  lemma ChargeIsExactExactly(spec: CacheSpec, dtype: DType, tp: nat)
    requires Valid(spec) && tp >= 1
    ensures (forall lens: seq<nat> ::
               Footprint(spec, lens, dtype, tp) == Charge(spec, |lens|, Sum(lens), dtype, tp))
            <==> Caps(spec, dtype, tp) == [] && ScalesWithContext(spec)
  {
    ScalesMeansPerTokenCost(spec, dtype, tp);
    var caps, m := Caps(spec, dtype, tp), MarginalBytes(spec, dtype, tp);
    hide Footprint, Charge, CappedBytes, ScalesWithContext;
    if caps == [] && m > 0 {
      forall lens: seq<nat> ensures Footprint(spec, lens, dtype, tp) == Charge(spec, |lens|, Sum(lens), dtype, tp) {
        UncappedChargeIsExact(spec, lens, dtype, tp);
      }
    } else if caps != [] && m == 0 && CappedBytes(caps, 1) == 1 {
      HiddenWindowFills(spec, dtype, tp);
    } else {
      OneTokenFootprint(spec, dtype, tp);
      OneTokenMispriced(spec, dtype, tp);
      assert Footprint(spec, [1], dtype, tp) != Charge(spec, |[1]|, Sum([1]), dtype, tp);
    }
  }

  lemma UncappedChargeIsExact(spec: CacheSpec, lens: seq<nat>, dtype: DType, tp: nat)
    requires Valid(spec) && tp >= 1 && Caps(spec, dtype, tp) == [] && MarginalBytes(spec, dtype, tp) > 0
    ensures Footprint(spec, lens, dtype, tp) == Charge(spec, |lens|, Sum(lens), dtype, tp)
  {
    FootprintClosedForm(spec, lens, dtype, tp);
    NoCapsNoCappedBytes(lens);
  }

  lemma OneTokenMispriced(spec: CacheSpec, dtype: DType, tp: nat)
    requires Valid(spec) && tp >= 1
    requires var caps, m := Caps(spec, dtype, tp), MarginalBytes(spec, dtype, tp);
             !(caps == [] && m > 0) && !(caps != [] && m == 0 && CappedBytes(caps, 1) == 1)
    ensures MarginalBytes(spec, dtype, tp) + CappedBytes(Caps(spec, dtype, tp), 1) != PerToken(spec, dtype, tp)
  {
    var caps := Caps(spec, dtype, tp);
    CapsArePositive(spec, dtype, tp);
    if caps != [] { FirstTokenOfCaps(caps, 1); }
  }

  /** A lone byte-wide window stops filling while the charge goes on. */
  lemma HiddenWindowFills(spec: CacheSpec, dtype: DType, tp: nat)
    requires Valid(spec) && tp >= 1 && Caps(spec, dtype, tp) != []
    requires MarginalBytes(spec, dtype, tp) == 0 && CappedBytes(Caps(spec, dtype, tp), 1) == 1
    ensures var lens := [Caps(spec, dtype, tp)[0].window + 1];
            Footprint(spec, lens, dtype, tp) != Charge(spec, |lens|, Sum(lens), dtype, tp)
  {
    var caps := Caps(spec, dtype, tp);
    CapsArePositive(spec, dtype, tp);
    assert caps[0] in caps;
    FirstTokenCounts(caps);
    var len: nat := caps[0].window + 1;
    var lens := [len];
    FootprintClosedForm(spec, lens, dtype, tp);
    assert lens[1..] == [] && Sum(lens) == len;
    assert CappedTotal(caps, lens) == CappedBytes(caps, len);
    OneCapFills(caps);
  }

  lemma {:induction false} FirstTokenCounts(caps: seq<Cap>)
    requires forall c :: c in caps ==> c.window >= 1 && c.perToken >= 1
    ensures CappedBytes(caps, 1) >= |caps|
    decreases |caps|
  {
    if caps != [] {
      assert caps[0] in caps;
      assert Min(1, caps[0].window) == 1;
      FirstTokenCounts(caps[1..]);
    }
  }

  lemma OneCapFills(caps: seq<Cap>)
    requires |caps| == 1 && caps[0].window >= 1 && CappedBytes(caps, 1) == 1
    ensures CappedBytes(caps, caps[0].window + 1) == caps[0].window
  {
    assert caps[1..] == [];
    assert caps[0].perToken == 1;
  }
}
