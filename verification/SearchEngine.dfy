/** The pruned search against the exhaustive baseline (search/engine.py). */
module SearchEngine {
  import opened Results
  import opened RealArithmetic
  import opened Selection
  import opened DTypes
  import opened Profiles
  import opened WorkingSets
  import opened MemoryPlan
  import opened Metrics
  import opened SearchSpace
  import R = Roofline
  import V = PlanVerdicts
  import opened PlanTerms

  /** Boot an engine for a scored candidate and sweep it. */
  type Boot = Scored -> seq<Bench>

  function ThroughputWithinSla(points: seq<Bench>, sla: Limits): real {
    var best := if sla.Unconstrained() then BestThroughput(points) else Knee(points, sla);
    if best.Some? then best.value.Throughput() else 0.0
  }

  datatype Evaluation = Evaluation(scored: Scored, points: seq<Bench>)

  function Within(sla: Limits): Evaluation -> real {
    (e: Evaluation) => ThroughputWithinSla(e.points, sla)
  }

  function Positive(sla: Limits): Evaluation -> bool {
    (e: Evaluation) => ThroughputWithinSla(e.points, sla) > 0.0
  }

  datatype SearchResult = SearchResult(best: Option<Evaluation>, evaluations: seq<Evaluation>, report: PruneReport, bootsUsed: nat) {
    function BestThroughput(sla: Limits): real {
      if best.Some? then ThroughputWithinSla(best.value.points, sla) else 0.0
    }
  }

  function Evaluate(survivors: seq<Scored>, boot: Boot): (e: seq<Evaluation>)
    ensures |e| == |survivors|
    ensures forall i :: 0 <= i < |e| ==> e[i] == Evaluation(survivors[i], boot(survivors[i]))
  {
    seq(|survivors|, i requires 0 <= i < |survivors| => Evaluation(survivors[i], boot(survivors[i])))
  }

  /** The highest measured throughput among the evaluations that satisfy the SLA at all. */
  function Winner(evaluations: seq<Evaluation>, sla: Limits): Option<Evaluation> {
    var usable := Filter(evaluations, Positive(sla));
    if usable == [] then None else Some(FirstMax(usable, Within(sla)))
  }

  function SearchOf(pool: seq<Candidate>, scorer: Scorer, boot: Boot, sla: Limits, budget: int): Result<SearchResult> {
    if budget < 1 then Err(ValueError)
    else
      var report := PruneOf(pool, scorer, budget);
      var evaluations := Evaluate(report.survivors, boot);
      Ok(SearchResult(Winner(evaluations, sla), evaluations, report, |evaluations|))
  }

  method Search(pool: seq<Candidate>, scorer: Scorer, boot: Boot, sla: Limits, budget: int) returns (r: Result<SearchResult>)
    ensures r == SearchOf(pool, scorer, boot, sla, budget)
    ensures r.Ok? ==> r.value.bootsUsed <= budget
  {
    if budget < 1 { return Err(ValueError); }
    PruneAccountsForAll(pool, scorer, budget);
    var report := Prune(pool, scorer, budget);
    if report.survivors == [] {
      return Ok(SearchResult(None, [], report, 0));
    }
    var evaluations: seq<Evaluation> := [];
    for i := 0 to |report.survivors|
      invariant evaluations == Evaluate(report.survivors, boot)[..i]
    {
      var points := boot(report.survivors[i]);
      evaluations := evaluations + [Evaluation(report.survivors[i], points)];
    }
    assert evaluations == Evaluate(report.survivors, boot);
    var usable := Filter(evaluations, Positive(sla));
    if usable == [] {
      return Ok(SearchResult(None, evaluations, report, |evaluations|));
    }
    return Ok(SearchResult(Some(FirstMax(usable, Within(sla))), evaluations, report, |evaluations|));
  }

  /** Boot everything feasible. */
  function GridSearch(pool: seq<Candidate>, scorer: Scorer, boot: Boot, sla: Limits): SearchResult {
    var feasible := FeasibleOf(pool, scorer);
    FeasibleLength(pool, scorer);
    var evaluations := Evaluate(feasible, boot);
    SearchResult(Winner(evaluations, sla), evaluations,
                 PruneReport(|pool|, |pool| - |feasible|, 0, feasible, false), |evaluations|)
  }

  // ---------------------------------------------------------------- what the search gives up

  /** What booting a candidate would measure. */
  function Measured(boot: Boot, sla: Limits, s: Scored): real {
    ThroughputWithinSla(boot(s), sla)
  }

  lemma MeasuredNonNegative(boot: Boot, sla: Limits, s: Scored)
    ensures Measured(boot, sla, s) >= 0.0
  {
    hide Bench.Throughput;
    var best := if sla.Unconstrained() then BestThroughput(boot(s)) else Knee(boot(s), sla);
    if best.Some? { ThroughputSign(best.value); }
  }

  /** The winner measures at least as much as anything evaluated, and is something evaluated. */
  lemma WinnerIsBest(survivors: seq<Scored>, boot: Boot, sla: Limits)
    ensures var w := Winner(Evaluate(survivors, boot), sla);
            && (w.None? ==> forall s :: s in survivors ==> Measured(boot, sla, s) <= 0.0)
            && (w.Some? ==>
                  && (exists s :: s in survivors && w.value == Evaluation(s, boot(s)))
                  && forall s :: s in survivors ==>
                       Measured(boot, sla, s) <= ThroughputWithinSla(w.value.points, sla))
  {
    hide ThroughputWithinSla;
    var all := Evaluate(survivors, boot);
    var w := Winner(all, sla);
    forall s | s in survivors
      ensures Evaluation(s, boot(s)) in all
      ensures Positive(sla)(Evaluation(s, boot(s))) ==>
                w.Some? && Within(sla)(Evaluation(s, boot(s))) <= Within(sla)(w.value)
    {
      var i :| 0 <= i < |survivors| && survivors[i] == s;
      assert all[i] == Evaluation(s, boot(s));
      FilterKeeps(all, Positive(sla), all[i]);
    }
    if w.Some? {
      FilterKeeps(all, Positive(sla), w.value);
      var i :| 0 <= i < |all| && all[i] == w.value;
      assert survivors[i] in survivors;
    }
  }

  /** What is measured is reached by a point that meets the SLA and exceeded by none, and zero without one. */
  lemma WithinSlaIsBest(points: seq<Bench>, sla: Limits)
    ensures var t := ThroughputWithinSla(points, sla);
            && (t == 0.0 || exists p :: p in points && p.Meets(sla) && p.Throughput() == t)
            && (forall p :: p in points && p.Meets(sla) ==> p.Throughput() <= t)
            && t >= 0.0
  {
    hide Bench.Throughput, Bench.Usable, BestThroughput, Knee;
    BestIsBest(points);
    KneeIsBest(points, sla);
    forall p | p in points ensures p.Throughput() >= 0.0 { ThroughputSign(p); }
  }

  /**
   What a search promises of the candidates it boots: its winner is one of them, with a point that meets
   the SLA at the reported throughput; no point of any of them that meets the SLA is faster; and there is
   no winner exactly when no such point has positive throughput. An SLA without limits asks for success.
   */
  ghost predicate ServesSla(r: SearchResult, booted: seq<Scored>, boot: Boot, sla: Limits) {
    var best := r.BestThroughput(sla);
    && (r.best.Some? ==>
          && (exists s :: s in booted && r.best.value == Evaluation(s, boot(s)))
          && exists p :: p in r.best.value.points && p.Meets(sla) && p.Throughput() == best)
    && (forall s, p :: s in booted && p in boot(s) && p.Meets(sla) ==> p.Throughput() <= best)
    && (r.best.None? <==> forall s, p :: s in booted && p in boot(s) && p.Meets(sla) ==> p.Throughput() <= 0.0)
  }

  lemma WinnerServesSla(booted: seq<Scored>, boot: Boot, sla: Limits, r: SearchResult)
    requires r.best == Winner(Evaluate(booted, boot), sla)
    ensures ServesSla(r, booted, boot, sla)
  {
    hide ThroughputWithinSla, Winner, Evaluate, Bench.Meets, Bench.Throughput;
    WinnerIsBest(booted, boot, sla);
    WinnerIsPositive(Evaluate(booted, boot), sla);
    forall s | s in booted
      ensures forall p :: p in boot(s) && p.Meets(sla) ==> p.Throughput() <= Measured(boot, sla, s)
    {
      WithinSlaIsBest(boot(s), sla);
    }
    if r.best.Some? {
      var s :| s in booted && r.best.value == Evaluation(s, boot(s));
      WithinSlaIsBest(boot(s), sla);
      var p :| p in boot(s) && p.Meets(sla) && p.Throughput() == ThroughputWithinSla(boot(s), sla);
      assert p in r.best.value.points && p.Throughput() == r.BestThroughput(sla) > 0.0;
    }
  }

  lemma WinnerIsPositive(evaluations: seq<Evaluation>, sla: Limits)
    ensures var w := Winner(evaluations, sla); w.Some? ==> ThroughputWithinSla(w.value.points, sla) > 0.0
  {
    hide ThroughputWithinSla;
    var w := Winner(evaluations, sla);
    if w.Some? { FilterKeeps(evaluations, Positive(sla), w.value); }
  }

  lemma SearchServesSla(pool: seq<Candidate>, scorer: Scorer, boot: Boot, sla: Limits, budget: int)
    requires budget >= 1
    ensures var r := SearchOf(pool, scorer, boot, sla, budget);
            && r.Ok? && r.value.report.survivors == PruneOf(pool, scorer, budget).survivors
            && |r.value.evaluations| == r.value.bootsUsed == |r.value.report.survivors| <= budget
            && (forall i :: 0 <= i < r.value.bootsUsed ==>
                  var s := r.value.report.survivors[i]; r.value.evaluations[i] == Evaluation(s, boot(s)))
            && ServesSla(r.value, r.value.report.survivors, boot, sla)
  {
    hide ThroughputWithinSla, PruneOf, ServesSla;
    PruneAccountsForAll(pool, scorer, budget);
    var r := SearchOf(pool, scorer, boot, sla, budget).value;
    WinnerServesSla(r.report.survivors, boot, sla, r);
  }

  lemma GridServesSla(pool: seq<Candidate>, scorer: Scorer, boot: Boot, sla: Limits)
    ensures var r := GridSearch(pool, scorer, boot, sla);
            && |r.evaluations| == r.bootsUsed == |FeasibleOf(pool, scorer)|
            && r.report.enumerated == |pool| && r.report.infeasible + |FeasibleOf(pool, scorer)| == |pool|
            && r.report.dominated == 0 && r.report.survivors == FeasibleOf(pool, scorer) && !r.report.truncated
            && (forall i :: 0 <= i < r.bootsUsed ==>
                  var s := FeasibleOf(pool, scorer)[i]; r.evaluations[i] == Evaluation(s, boot(s)))
            && ServesSla(r, FeasibleOf(pool, scorer), boot, sla)
  {
    hide ThroughputWithinSla, ServesSla;
    WinnerServesSla(FeasibleOf(pool, scorer), boot, sla, GridSearch(pool, scorer, boot, sla));
  }

  /** A scorer reports on the candidate it was given. */
  ghost predicate ScoresItself(scorer: Scorer) {
    forall c :: scorer(c).Some? ==> scorer(c).value.candidate == c
  }

  /** Two scorers that find the same candidates feasible, whatever they predict for them. */
  ghost predicate SameFeasible(a: Scorer, b: Scorer) {
    forall c :: a(c).Some? == b(c).Some?
  }

  /** Booting a candidate measures the same however it was scored. */
  ghost predicate BootsAlike(boot: Boot, a: Scorer, b: Scorer) {
    forall c :: a(c).Some? && b(c).Some? ==> boot(a(c).value) == boot(b(c).value)
  }

  /** A boot that reads only the configuration to launch qualifies. */
  lemma ConfigurationBootsAlike(boot: Boot, a: Scorer, b: Scorer)
    requires ScoresItself(a) && ScoresItself(b)
    requires forall s: Scored, t: Scored :: s.candidate == t.candidate ==> boot(s) == boot(t)
    ensures BootsAlike(boot, a, b)
  {}

  /** The best of the exhaustive baseline is the measurement of some feasible candidate, or nothing. */
  lemma GridBestIsFeasible(pool: seq<Candidate>, scorer: Scorer, grid: Scorer, boot: Boot, sla: Limits) returns (s: Option<Scored>)
    requires SameFeasible(scorer, grid) && BootsAlike(boot, scorer, grid)
    ensures s.None? ==> GridSearch(pool, grid, boot, sla).BestThroughput(sla) == 0.0
    ensures s.Some? ==> s.value in FeasibleOf(pool, scorer)
                        && GridSearch(pool, grid, boot, sla).BestThroughput(sla) == Measured(boot, sla, s.value)
  {
    hide ThroughputWithinSla;
    var feasible := FeasibleOf(pool, grid);
    WinnerIsBest(feasible, boot, sla);
    var w := Winner(Evaluate(feasible, boot), sla);
    if w.None? { return None; }
    var g :| g in feasible && w.value == Evaluation(g, boot(g));
    FeasibleMembers(pool, grid, g);
    var c :| c in pool && grid(c) == Some(g);
    s := Some(scorer(c).value);
    FeasibleMembers(pool, scorer, s.value);
  }

  /** No search beats the exhaustive baseline. */
  lemma SearchNeverBeatsGrid(pool: seq<Candidate>, scorer: Scorer, grid: Scorer, boot: Boot, sla: Limits, budget: int)
    requires budget >= 1 && SameFeasible(scorer, grid) && BootsAlike(boot, scorer, grid)
    ensures SearchOf(pool, scorer, boot, sla, budget).Ok?
    ensures SearchOf(pool, scorer, boot, sla, budget).value.BestThroughput(sla)
            <= GridSearch(pool, grid, boot, sla).BestThroughput(sla)
  {
    hide ThroughputWithinSla, PruneOf;
    var report := PruneOf(pool, scorer, budget);
    var w := Winner(Evaluate(report.survivors, boot), sla);
    WinnerIsBest(report.survivors, boot, sla);
    WinnerIsBest(FeasibleOf(pool, grid), boot, sla);
    GridCovers(pool, grid, boot, sla);
    if w.Some? {
      var s :| s in report.survivors && w.value == Evaluation(s, boot(s));
      PruneAccountsForAll(pool, scorer, budget);
      FrontIsUndominated(FeasibleOf(pool, scorer), s);
      FeasibleMembers(pool, scorer, s);
      var c :| c in pool && scorer(c) == Some(s);
      FeasibleMembers(pool, grid, grid(c).value);
    }
  }

  /** The baseline measures at least as much as any feasible candidate. */
  lemma GridCovers(pool: seq<Candidate>, grid: Scorer, boot: Boot, sla: Limits)
    ensures GridSearch(pool, grid, boot, sla).BestThroughput(sla) >= 0.0
    ensures forall s :: s in FeasibleOf(pool, grid) ==>
              Measured(boot, sla, s) <= GridSearch(pool, grid, boot, sla).BestThroughput(sla)
  {
    hide ThroughputWithinSla;
    var feasible := FeasibleOf(pool, grid);
    WinnerIsBest(feasible, boot, sla);
    var w := Winner(Evaluate(feasible, boot), sla);
    if w.Some? {
      var s :| s in feasible && w.value == Evaluation(s, boot(s));
      MeasuredNonNegative(boot, sla, s);
    }
  }

  /** Every booted survivor's measurement is within reach of the search's winner. */
  lemma SearchCovers(pool: seq<Candidate>, scorer: Scorer, boot: Boot, sla: Limits, budget: int)
    requires budget >= 1
    ensures SearchOf(pool, scorer, boot, sla, budget).Ok?
    ensures var best := SearchOf(pool, scorer, boot, sla, budget).value.BestThroughput(sla);
            && best >= 0.0
            && forall s :: s in PruneOf(pool, scorer, budget).survivors ==> Measured(boot, sla, s) <= best
  {
    hide ThroughputWithinSla, PruneOf;
    var survivors := PruneOf(pool, scorer, budget).survivors;
    WinnerIsBest(survivors, boot, sla);
    var w := Winner(Evaluate(survivors, boot), sla);
    if w.Some? {
      var s :| s in survivors && w.value == Evaluation(s, boot(s));
      MeasuredNonNegative(boot, sla, s);
    }
  }

  /** Predictions are within a relative error of what booting would measure. */
  ghost predicate Accurate(scored: seq<Scored>, boot: Boot, sla: Limits, e: real) {
    forall s :: s in scored ==>
      (1.0 - e) * Measured(boot, sla, s) <= s.predicted <= (1.0 + e) * Measured(boot, sla, s)
  }

  /**
   If predictions are within a fraction `e` of the measurements, then for every boot budget the pruned
   search's winner measures at least (1-e)/(1+e) of the exhaustive winner, even at a single boot.
   */
  lemma SearchApproximatesGrid(pool: seq<Candidate>, scorer: Scorer, grid: Scorer, boot: Boot, sla: Limits, budget: int, e: real)
    requires budget >= 1 && 0.0 <= e < 1.0
    requires SameFeasible(scorer, grid) && BootsAlike(boot, scorer, grid)
    requires Accurate(FeasibleOf(pool, scorer), boot, sla, e)
    ensures SearchOf(pool, scorer, boot, sla, budget).Ok?
    ensures SearchOf(pool, scorer, boot, sla, budget).value.BestThroughput(sla)
            >= (1.0 - e) / (1.0 + e) * GridSearch(pool, grid, boot, sla).BestThroughput(sla)
  {
    hide ThroughputWithinSla, PruneOf, SearchOf, GridSearch, Measured;
    SearchCovers(pool, scorer, boot, sla, budget);
    var found := SearchOf(pool, scorer, boot, sla, budget).value.BestThroughput(sla);
    var g := GridBestIsFeasible(pool, scorer, grid, boot, sla);
    if g.Some? {
      FirstSurvivorIsFastest(pool, scorer, budget);
      var first := PruneOf(pool, scorer, budget).survivors[0];
      RatioBound(e, Measured(boot, sla, g.value), g.value.predicted, first.predicted,
                 Measured(boot, sla, first), found);
    }
  }

  lemma RatioBound(e: real, best: real, predicted: real, topPredicted: real, measured: real, found: real)
    requires 0.0 <= e < 1.0 && (1.0 - e) * best <= predicted <= topPredicted <= (1.0 + e) * measured && measured <= found
    ensures found >= (1.0 - e) / (1.0 + e) * best
  {
    MulLe(measured, found, 1.0 + e);
    DivLe((1.0 - e) * best, 1.0 + e, found);
    MulDiv(best, 1.0 - e, 1.0 + e);
  }

  /** The measured objective never falls when both axes rise. */
  ghost predicate MonotoneObjective(scored: seq<Scored>, boot: Boot, sla: Limits) {
    forall a, b :: a in scored && b in scored && WeaklyDominates(b, a) ==>
      Measured(boot, sla, a) <= Measured(boot, sla, b)
  }

  /** If the front fits the budget and the objective is monotone on both axes, pruning gives up nothing. */
  lemma SearchMatchesGrid(pool: seq<Candidate>, scorer: Scorer, grid: Scorer, boot: Boot, sla: Limits, budget: int)
    requires budget >= 1 && |ParetoFront(FeasibleOf(pool, scorer))| <= budget
    requires SameFeasible(scorer, grid) && BootsAlike(boot, scorer, grid)
    requires MonotoneObjective(FeasibleOf(pool, scorer), boot, sla)
    ensures SearchOf(pool, scorer, boot, sla, budget).Ok?
    ensures SearchOf(pool, scorer, boot, sla, budget).value.BestThroughput(sla)
            == GridSearch(pool, grid, boot, sla).BestThroughput(sla)
  {
    hide ThroughputWithinSla, SearchOf, GridSearch, Measured;
    SearchNeverBeatsGrid(pool, scorer, grid, boot, sla, budget);
    SearchCovers(pool, scorer, boot, sla, budget);
    var g := GridBestIsFeasible(pool, scorer, grid, boot, sla);
    if g.Some? {
      var scored := FeasibleOf(pool, scorer);
      var m := FrontCovers(scored, g.value);
      FrontIsUndominated(scored, m);
      SurvivorsAreFront(pool, scorer, budget, m);
    }
  }

  lemma SurvivorsAreFront(pool: seq<Candidate>, scorer: Scorer, budget: int, m: Scored)
    requires budget >= 1 && |ParetoFront(FeasibleOf(pool, scorer))| <= budget
    requires FeasibleOf(pool, scorer) != [] && m in ParetoFront(FeasibleOf(pool, scorer))
    ensures m in PruneOf(pool, scorer, budget).survivors
  {
    FastestFirstSorts(ParetoFront(FeasibleOf(pool, scorer)));
    FastestFirstMembers(ParetoFront(FeasibleOf(pool, scorer)), m);
  }

  // ---------------------------------------------------------------- when pruning is free

  /** A boot that measures 200 tokens per second for one candidate and 100 for every other. */
  function Favours(winner: Scored): Boot {
    (s: Scored) => [Steady(if s == winner then 200 else 100)]
  }

  function Steady(tokens: int): Bench { Bench(1, 1.0, [Record(1, tokens, Some(0.1), 1.0, "")]) }

  lemma SteadyMeasures(tokens: int)
    requires tokens > 0
    ensures ThroughputWithinSla([Steady(tokens)], Limits(None, None)) == tokens as real
  {
    var b := Steady(tokens);
    assert b.records[1..] == [] && TokensOf(b.records[1..]) == 0;
    assert b.records[0].Ok() && b.Usable();
    assert [b][1..] == [];
    assert Filter([b], HasSuccess()) == [b];
  }

  lemma FavouriteMeasures(winner: Scored, s: Scored)
    ensures Measured(Favours(winner), Limits(None, None), s) == if s == winner then 200.0 else 100.0
  {
    SteadyMeasures(200);
    SteadyMeasures(100);
  }

  /** Any feasible candidate the search does not boot could have been the winner. */
  lemma DroppedCouldWin(pool: seq<Candidate>, scorer: Scorer, budget: int, s: Scored)
    requires budget >= 1 && s in FeasibleOf(pool, scorer) && s !in PruneOf(pool, scorer, budget).survivors
    ensures var boot, sla := Favours(s), Limits(None, None);
            && SearchOf(pool, scorer, boot, sla, budget).Ok?
            && SearchOf(pool, scorer, boot, sla, budget).value.BestThroughput(sla) <= 100.0
            && GridSearch(pool, scorer, boot, sla).BestThroughput(sla) >= 200.0
  {
    hide ThroughputWithinSla, PruneOf, Measured, Favours;
    var boot, sla := Favours(s), Limits(None, None);
    var survivors := PruneOf(pool, scorer, budget).survivors;
    FavouriteMeasures(s, s);
    GridCovers(pool, scorer, boot, sla);
    BestIsMeasured(survivors, boot, sla);
    var w := Winner(Evaluate(survivors, boot), sla);
    if w.Some? {
      var t :| t in survivors && ThroughputWithinSla(w.value.points, sla) == Measured(boot, sla, t);
      FavouriteMeasures(s, t);
    }
  }

  lemma BestIsMeasured(survivors: seq<Scored>, boot: Boot, sla: Limits)
    ensures var w := Winner(Evaluate(survivors, boot), sla);
            w.Some? ==> exists t :: t in survivors && ThroughputWithinSla(w.value.points, sla) == Measured(boot, sla, t)
  {
    hide ThroughputWithinSla;
    WinnerIsBest(survivors, boot, sla);
    var w := Winner(Evaluate(survivors, boot), sla);
    if w.Some? {
      var t :| t in survivors && w.value == Evaluation(t, boot(t));
      assert ThroughputWithinSla(w.value.points, sla) == Measured(boot, sla, t);
    }
  }

  /** Whatever the engines turn out to measure, the search ties with the exhaustive baseline. */
  ghost predicate PruningIsFree(pool: seq<Candidate>, scorer: Scorer, budget: int) {
    forall boot: Boot, sla: Limits ::
      var r := SearchOf(pool, scorer, boot, sla, budget);
      r.Ok? && r.value.BestThroughput(sla) == GridSearch(pool, scorer, boot, sla).BestThroughput(sla)
  }

  /**
   "A dominated candidate can never win" is not true of every engine: pruning is free whatever is
   measured exactly when it drops nothing feasible.
   */
  lemma PruningIsFreeExactly(pool: seq<Candidate>, scorer: Scorer, budget: int)
    requires budget >= 1
    ensures PruningIsFree(pool, scorer, budget)
            <==> forall s :: s in FeasibleOf(pool, scorer) ==> s in PruneOf(pool, scorer, budget).survivors
  {
    hide PruneOf, SearchOf, GridSearch, Favours;
    if forall s :: s in FeasibleOf(pool, scorer) ==> s in PruneOf(pool, scorer, budget).survivors {
      forall boot: Boot, sla: Limits
        ensures var r := SearchOf(pool, scorer, boot, sla, budget);
                r.Ok? && r.value.BestThroughput(sla) == GridSearch(pool, scorer, boot, sla).BestThroughput(sla)
      {
        KeepingAllTies(pool, scorer, boot, sla, budget);
      }
    } else {
      var s :| s in FeasibleOf(pool, scorer) && s !in PruneOf(pool, scorer, budget).survivors;
      DroppedCouldWin(pool, scorer, budget, s);
    }
  }

  lemma KeepingAllTies(pool: seq<Candidate>, scorer: Scorer, boot: Boot, sla: Limits, budget: int)
    requires budget >= 1
    requires forall s :: s in FeasibleOf(pool, scorer) ==> s in PruneOf(pool, scorer, budget).survivors
    ensures var r := SearchOf(pool, scorer, boot, sla, budget);
            r.Ok? && r.value.BestThroughput(sla) == GridSearch(pool, scorer, boot, sla).BestThroughput(sla)
  {
    hide ThroughputWithinSla, PruneOf, SearchOf, GridSearch, Measured;
    SearchNeverBeatsGrid(pool, scorer, scorer, boot, sla, budget);
    SearchCovers(pool, scorer, boot, sla, budget);
    var g := GridBestIsFeasible(pool, scorer, scorer, boot, sla);
  }

  // ---------------------------------------------------------------- the analytic scorer

  /** What scoring reads besides the candidate. */
  datatype Setting = Setting(model: Model, gpu: Gpu, promptTokens: nat, contextTokens: nat) {
    ghost predicate Valid() { ValidModel(model) && ValidGpu(gpu) }
  }

  function RequestFor(c: Candidate, samples: int): Request {
    Request(c.maxNumSeqs, c.maxModelLen, None, Parallelism(c.tensorParallel, 1, 1), Some(c.kvDtype), BF16, c.enforceEager, samples)
  }

  /** A candidate is planned on its tensor ranks alone, with its own cache type and 16-bit activations. */
  lemma RequestExactly(c: Candidate, samples: int)
    ensures var req := RequestFor(c, samples);
            && req.parallelism.tensor == req.parallelism.GpusRequired() == c.tensorParallel
            && req.parallelism.pipeline == req.parallelism.data == 1
            && req.maxNumSeqs == c.maxNumSeqs && req.maxModelLen == c.maxModelLen
            && req.kvDtype == Some(c.kvDtype) && req.activationDtype == BF16 && req.enforceEager == c.enforceEager
            && req.maxBatchedTokens == None && req.samples == samples
  {}

  /**
   Predict a candidate's properties, or nothing when it cannot fit. Only planning is guarded: a prompt
   shorter than one token raises from the prediction.
   */
  function Score(setting: Setting, draw: Stream, coef: R.Coefficients, samples: int, c: Candidate): Result<Option<Scored>>
    requires setting.Valid() && R.ValidCoefficients(coef)
  {
    if c.tensorParallel < 1 then Ok(None)
    else
      var plan := EstimatePlan(setting.model, setting.gpu, draw, RequestFor(c, samples));
      if plan.Err? then Ok(None)
      else if setting.promptTokens < 1 then Err(ValueError)
      else
        V.PlanExistsExactly(setting.model, setting.gpu, draw, RequestFor(c, samples));
        Ok(Some(Predict(setting, coef, c, plan.value)))
  }

  function Predict(setting: Setting, coef: R.Coefficients, c: Candidate, plan: Plan): Scored
    requires setting.Valid() && R.ValidCoefficients(coef) && c.tensorParallel >= 1 && c.maxNumSeqs >= 1
    requires plan.kvBytesPerToken >= 1 && setting.promptTokens >= 1
  {
    var dtype := setting.model.weightDtype;
    var decode := R.DecodeStep(setting.model, setting.gpu, c.maxNumSeqs, setting.contextTokens, plan.kvBytesPerToken,
                               c.tensorParallel, coef, dtype).value;
    var prefill := R.PrefillStep(setting.model, setting.gpu, setting.promptTokens, c.tensorParallel, coef, dtype).value;
    Scored(c, plan.KvBudgetTokens(), R.Throughput(c.maxNumSeqs, decode), prefill.Total(), decode.Total(), plan.headroom)
  }

  /** Scoring as a function of the candidate, where it never raises. */
  function ScorerOf(setting: Setting, draw: Stream, coef: R.Coefficients, samples: int): Scorer
    requires setting.Valid() && R.ValidCoefficients(coef) && setting.promptTokens >= 1
  {
    (c: Candidate) => Score(setting, draw, coef, samples, c).value
  }

  /** Two scores of one candidate: both raise, both find it infeasible, or both describe it. */
  predicate SameKind(a: Result<Option<Scored>>, b: Result<Option<Scored>>, c: Candidate) {
    && a.Ok? == b.Ok?
    && (a.Ok? ==> a.value.Some? == b.value.Some?
                  && (a.value.Some? ==> a.value.value.candidate == c == b.value.value.candidate))
  }

  /**
   Neither the sample count nor the coefficients decide what is feasible or what raises, so the baseline's
   scores, which use their own, cover the same candidates; with equal coefficients both axes agree as well.
   */
  lemma ScoresAgree(setting: Setting, draw: Stream, draw': Stream, coef: R.Coefficients, coef': R.Coefficients,
                    samples: int, samples': int, c: Candidate)
    requires setting.Valid() && R.ValidCoefficients(coef) && R.ValidCoefficients(coef')
    requires samples >= 1 <==> samples' >= 1
    ensures var a, b := Score(setting, draw, coef, samples, c), Score(setting, draw', coef', samples', c);
            && SameKind(a, b, c)
            && (a.Err? ==> setting.promptTokens < 1)
            && (coef == coef' && a.Ok? && a.value.Some? ==>
                  a.value.value.kvTokens == b.value.value.kvTokens && a.value.value.predicted == b.value.value.predicted)
  {
    if c.tensorParallel >= 1 {
      PlanIgnoresSampling(setting, draw, draw', c, samples, samples');
      hide EstimatePlan;
    }
  }

  /** What the comparisons with the baseline assume of the two scorers. */
  lemma ScorersAgree(setting: Setting, draw: Stream, draw': Stream, coef: R.Coefficients, coef': R.Coefficients, samples: int, samples': int)
    requires setting.Valid() && R.ValidCoefficients(coef) && R.ValidCoefficients(coef')
    requires setting.promptTokens >= 1 && (samples >= 1 <==> samples' >= 1)
    ensures var a := ScorerOf(setting, draw, coef, samples);
            var b := ScorerOf(setting, draw', coef', samples');
            ScoresItself(a) && ScoresItself(b) && SameFeasible(a, b)
  {
    hide Score;
    forall c {
      ScoresAgree(setting, draw, draw', coef, coef', samples, samples', c);
    }
  }

  lemma PlanIgnoresSampling(setting: Setting, draw: Stream, draw': Stream, c: Candidate, samples: int, samples': int)
    requires setting.Valid() && c.tensorParallel >= 1 && (samples >= 1 <==> samples' >= 1)
    ensures var p := EstimatePlan(setting.model, setting.gpu, draw, RequestFor(c, samples));
            var p' := EstimatePlan(setting.model, setting.gpu, draw', RequestFor(c, samples'));
            && p.Ok? == p'.Ok?
            && (p.Ok? ==> p.value.kvBudget == p'.value.kvBudget && p.value.kvBytesPerToken == p'.value.kvBytesPerToken)
  {
    V.PlanExistsExactly(setting.model, setting.gpu, draw, RequestFor(c, samples));
    V.PlanExistsExactly(setting.model, setting.gpu, draw', RequestFor(c, samples'));
  }

  /** What a score says of its plan, in the plan's bytes and the steps' seconds. */
  ghost predicate PredictsPlan(s: Scored, setting: Setting, coef: R.Coefficients, c: Candidate, plan: Plan)
    requires setting.Valid() && R.ValidCoefficients(coef) && c.tensorParallel >= 1
  {
    var dtype := setting.model.weightDtype;
    var decode := R.DecodeStep(setting.model, setting.gpu, c.maxNumSeqs, setting.contextTokens,
                               plan.kvBytesPerToken, c.tensorParallel, coef, dtype);
    var prefill := R.PrefillStep(setting.model, setting.gpu, setting.promptTokens, c.tensorParallel, coef, dtype);
    && s.candidate == c && s.headroom == plan.headroom
    && s.kvTokens * plan.kvBytesPerToken <= plan.kvBudget < (s.kvTokens + 1) * plan.kvBytesPerToken
    && decode.Ok? && prefill.Ok?
    && s.predicted * decode.value.Total() == c.maxNumSeqs as real
    && s.tpot == decode.value.Total() && s.ttft == prefill.value.Total()
  }

  /**
   What a score says: cache tokens are the largest count whose bytes fit the plan's budget, predicted
   throughput is the batch over the decode step at the mean context, first-token time is the prefill of the
   median prompt, and pace is the decode step itself.
   */
  lemma ScoreExactly(setting: Setting, draw: Stream, coef: R.Coefficients, samples: int, c: Candidate)
    requires setting.Valid() && R.ValidCoefficients(coef) && setting.promptTokens >= 1 && c.tensorParallel >= 1
    requires EstimatePlan(setting.model, setting.gpu, draw, RequestFor(c, samples)).Ok?
    ensures var score := Score(setting, draw, coef, samples, c);
            && score.Ok? && score.value.Some?
            && PredictsPlan(score.value.value, setting, coef, c,
                            EstimatePlan(setting.model, setting.gpu, draw, RequestFor(c, samples)).value)
  {
    ScoreIsPrediction(setting, draw, coef, samples, c);
    hide EstimatePlan, R.DecodeStep, R.PrefillStep, Plan.KvBudgetTokens, Score, Predict, R.Step.Total, PredictsPlan;
    PredictExactly(setting, coef, c, EstimatePlan(setting.model, setting.gpu, draw, RequestFor(c, samples)).value);
  }

  lemma ScoreIsPrediction(setting: Setting, draw: Stream, coef: R.Coefficients, samples: int, c: Candidate)
    requires setting.Valid() && R.ValidCoefficients(coef) && setting.promptTokens >= 1 && c.tensorParallel >= 1
    requires EstimatePlan(setting.model, setting.gpu, draw, RequestFor(c, samples)).Ok?
    ensures var plan := EstimatePlan(setting.model, setting.gpu, draw, RequestFor(c, samples)).value;
            && plan.kvBytesPerToken >= 1 && c.maxNumSeqs >= 1
            && Score(setting, draw, coef, samples, c) == Ok(Some(Predict(setting, coef, c, plan)))
  {
    V.PlanExistsExactly(setting.model, setting.gpu, draw, RequestFor(c, samples));
    hide EstimatePlan, Predict;
  }

  lemma PredictExactly(setting: Setting, coef: R.Coefficients, c: Candidate, plan: Plan)
    requires setting.Valid() && R.ValidCoefficients(coef) && c.tensorParallel >= 1 && c.maxNumSeqs >= 1
    requires plan.kvBytesPerToken >= 1 && setting.promptTokens >= 1
    ensures PredictsPlan(Predict(setting, coef, c, plan), setting, coef, c, plan)
  {
    TokensExactly(plan);
    var dtype := setting.model.weightDtype;
    R.DecodeTakesTime(setting.model, setting.gpu, c.maxNumSeqs, setting.contextTokens, plan.kvBytesPerToken,
                      c.tensorParallel, coef, dtype);
    hide R.DecodeStep, R.PrefillStep, Plan.KvBudgetTokens, R.Step.Total;
    var decode := R.DecodeStep(setting.model, setting.gpu, c.maxNumSeqs, setting.contextTokens,
                               plan.kvBytesPerToken, c.tensorParallel, coef, dtype).value;
    PredictReads(setting, coef, c, plan, decode);
  }

  lemma PredictReads(setting: Setting, coef: R.Coefficients, c: Candidate, plan: Plan, decode: R.Step)
    requires setting.Valid() && R.ValidCoefficients(coef) && c.tensorParallel >= 1 && c.maxNumSeqs >= 1
    requires plan.kvBytesPerToken >= 1 && setting.promptTokens >= 1
    requires R.DecodeStep(setting.model, setting.gpu, c.maxNumSeqs, setting.contextTokens, plan.kvBytesPerToken,
                          c.tensorParallel, coef, setting.model.weightDtype) == Ok(decode)
    requires decode.Total() > 0.0
    ensures R.PrefillStep(setting.model, setting.gpu, setting.promptTokens, c.tensorParallel, coef,
                          setting.model.weightDtype).Ok?
    ensures Predict(setting, coef, c, plan).predicted * decode.Total() == c.maxNumSeqs as real
  {
    hide R.DecodeStep, R.Step.Total, Plan.KvBudgetTokens;
    DivCancels(c.maxNumSeqs as real, decode.Total());
  }
}
