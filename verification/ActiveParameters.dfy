/** Parameters activated per token (models/hf.py), the compute-side size of a mixture of experts. */
module ActiveParameters {
  import opened Arithmetic
  import opened Results

  /** A validated mixture of experts (core/model.py). */
  datatype MoE = MoE(nExperts: nat, perToken: nat, nShared: nat, nDenseLayers: nat) {
    predicate Valid() { 1 <= perToken <= nExperts }
  }

  /** The config fields read. `moeIntermediate` is absent unless it is a positive integer. */
  datatype Shape = Shape(nLayers: int, hidden: int, moeIntermediate: Option<nat>) {
    predicate Complete() { nLayers >= 1 && moeIntermediate.Some? && moeIntermediate.value > 0 }

    function PerExpert(): int
      requires Complete()
    {
      3 * hidden * moeIntermediate.value
    }

    function MoELayers(moe: MoE): nat { Max(0, nLayers - moe.nDenseLayers) }
  }

  /** The estimate, and whether it is exact. */
  function EstimateActive(total: int, moe: Option<MoE>, cfg: Shape): (int, bool)
  {
    if moe.None? then (total, true)
    else if !cfg.Complete() then (total, false)
    else
      var layers := cfg.MoELayers(moe.value);
      var totalExpert := layers * moe.value.nExperts * cfg.PerExpert();
      var activeExpert := layers * (moe.value.perToken + moe.value.nShared) * cfg.PerExpert();
      var nonExpert := total - totalExpert;
      if nonExpert <= 0 then (total, false)
      else (Max(1, Min(total, nonExpert + activeExpert)), false)
  }

  /** On every path the estimate is a legal active count for the model. */
  lemma ActiveWithinTotal(total: int, moe: Option<MoE>, cfg: Shape)
    requires total >= 1
    ensures 1 <= EstimateActive(total, moe, cfg).0 <= total
  {
    if moe.Some? && cfg.Complete() {
      var layers := cfg.MoELayers(moe.value);
      assert EstimateActive(total, moe, cfg).0 <= total;
    }
  }

  /** Parameters of a model made of `base` plus, in each MoE layer, `experts` expert blocks. */
  function Composed(base: nat, layers: nat, experts: nat, perExpert: nat): nat {
    base + layers * perExpert * experts
  }

  /**
   * Shared experts are not among the parameters taken out but are among those put back, so a model
   * composed of base, routed and shared experts is overestimated by its shared blocks, up to the
   * number of idle ones.
   */
  lemma ActiveOvershoot(base: nat, moe: MoE, cfg: Shape)
    requires moe.Valid() && cfg.Complete() && cfg.hidden >= 1 && base >= 1
    ensures var layers, perExpert := cfg.MoELayers(moe), cfg.PerExpert();
            EstimateActive(Composed(base, layers, moe.nExperts + moe.nShared, perExpert), Some(moe), cfg).0
            == Composed(base, layers, moe.perToken + moe.nShared, perExpert)
               + layers * perExpert * Min(moe.nShared, moe.nExperts - moe.perToken)
  {
    var layers, perExpert := cfg.MoELayers(moe), cfg.PerExpert();
    PerExpertPositive(cfg.hidden, cfg.moeIntermediate.value);
    var block := layers * perExpert;
    var n, k, s := moe.nExperts, moe.perToken, moe.nShared;
    Regroup(layers, n, perExpert);
    Regroup(layers, k + s, perExpert);
    Distribute(n, s, block);
    Distribute(k + s, s, block);
    Distribute(k + s, n - k, block);
    MulMonotone(block, block, Min(s, n - k), s);
    MulMonotone(block, block, Min(s, n - k), n - k);
    assert block * s >= 0;
  }

  /** The estimate is the true active count exactly when nothing is shared or nothing is idle. */
  lemma ActiveExactExactly(base: nat, moe: MoE, cfg: Shape)
    requires moe.Valid() && cfg.Complete() && cfg.hidden >= 1 && base >= 1
    ensures var layers, perExpert := cfg.MoELayers(moe), cfg.PerExpert();
            EstimateActive(Composed(base, layers, moe.nExperts + moe.nShared, perExpert), Some(moe), cfg).0
            == Composed(base, layers, moe.perToken + moe.nShared, perExpert)
            <==> moe.nShared == 0 || moe.perToken == moe.nExperts || cfg.nLayers <= moe.nDenseLayers
  {
    ActiveOvershoot(base, moe, cfg);
    PerExpertPositive(cfg.hidden, cfg.moeIntermediate.value);
    ZeroProduct(cfg.MoELayers(moe), cfg.PerExpert(), Min(moe.nShared, moe.nExperts - moe.perToken));
  }

  /**
   The same in raw figures: an expert is three matrices of hidden by MoE width, MoE layers are those past
   the dense ones, and the estimate falls back to the total when the config is incomplete or the experts
   account for everything.
   */
  lemma EstimateExactly(total: int, moe: MoE, cfg: Shape, layers: nat, width: nat)
    requires moe.Valid() && cfg.hidden >= 1
    requires layers == (if moe.nDenseLayers >= cfg.nLayers then 0 else cfg.nLayers - moe.nDenseLayers)
    ensures EstimateActive(total, None, cfg) == (total, true)
    ensures cfg.nLayers < 1 || cfg.moeIntermediate == None || cfg.moeIntermediate == Some(0) ==>
              EstimateActive(total, Some(moe), cfg) == (total, false)
    ensures cfg.nLayers >= 1 && cfg.moeIntermediate == Some(width) && width > 0 ==>
              var expert := 3 * cfg.hidden * width;
              var rest := total - layers * moe.nExperts * expert;
              var active := rest + layers * (moe.perToken + moe.nShared) * expert;
              EstimateActive(total, Some(moe), cfg) == (if rest <= 0 || active > total then total else active, false)
  {
    if cfg.nLayers >= 1 && cfg.moeIntermediate == Some(width) && width > 0 {
      PerExpertPositive(cfg.hidden, width);
      MulMonotone(0, layers * (moe.perToken + moe.nShared), 0, 3 * cfg.hidden * width);
    }
  }

  lemma PerExpertPositive(hidden: nat, intermediate: nat)
    requires hidden > 0 && intermediate > 0
    ensures 3 * hidden * intermediate > 0
  {}

  lemma Regroup(a: int, b: int, c: int)
    ensures a * b * c == a * c * b
  {}

  lemma ZeroProduct(a: nat, b: nat, c: nat)
    requires b > 0
    ensures a * b * c == 0 <==> a == 0 || c == 0
  {
    if a > 0 && c > 0 { assert a * b > 0; }
  }
}
