/** The concurrency sweep and its early stops (bench/harness.py `sweep_concurrency`). */
module Sweep {
  import opened Results
  import opened Arithmetic
  import opened Selection
  import opened Metrics

  datatype Config = Config(
    concurrencies: seq<int>,
    requestsPerPoint: int,
    stopOnSlaViolation: bool,
    stopOnSaturation: bool,
    maxErrorRate: real)

  /** What the dataclass constructor demands. */
  predicate ValidConfig(cfg: Config) {
    && cfg.concurrencies != [] && (forall c :: c in cfg.concurrencies ==> c >= 1)
    && cfg.requestsPerPoint >= 1 && 0.0 <= cfg.maxErrorRate <= 1.0
  }

  function ByValue(): int -> real { (c: int) => c as real }

  function SortInts(s: seq<int>): (r: seq<int>)
    ensures |r| == |s|
  {
    SortBy(s, ByValue())
  }

  ghost predicate AscendingInts(s: seq<int>) {
    forall i, j :: 0 <= i < j < |s| ==> s[i] <= s[j]
  }

  lemma SortIntsSorts(s: seq<int>)
    ensures AscendingInts(SortInts(s)) && multiset(SortInts(s)) == multiset(s)
  {
    SortBySorts(s, ByValue());
    var r := SortInts(s);
    forall i, j | 0 <= i < j < |r| ensures r[i] <= r[j] { assert ByValue()(r[i]) <= ByValue()(r[j]); }
  }

  /**
   One load-generator run, given its position on the ladder (which seeds it), its concurrency and its
   request count. The run reports the concurrency it was asked for.
   */
  type Measure = (nat, int, int) -> Bench

  ghost predicate Reports(measure: Measure) {
    forall i, c, n :: measure(i, c, n).concurrency == c
  }

  function PointAt(cfg: Config, measure: Measure, ladder: seq<int>, i: nat): Bench
    requires i < |ladder|
  {
    measure(i, ladder[i], Max(cfg.requestsPerPoint, ladder[i]))
  }

  datatype Note = ErrorStop(concurrency: int) | SaturationStop(concurrency: int) | SlaStop(concurrency: int)

  /** The checks made on a fresh point, in order, against the best throughput seen before it. */
  function Verdict(cfg: Config, sla: Limits, c: int, point: Bench, best: real): Option<Note> {
    if point.ErrorRate() > cfg.maxErrorRate then Some(ErrorStop(c))
    else if cfg.stopOnSaturation && best > 0.0 && point.Throughput() < best * 1.02 then Some(SaturationStop(c))
    else if cfg.stopOnSlaViolation && !sla.Unconstrained() && !point.Meets(sla) then Some(SlaStop(c))
    else None
  }

  datatype Outcome = Outcome(points: seq<Bench>, note: Option<Note>)

  /** The climb from rung `i`, with the best throughput so far. */
  function Climb(cfg: Config, sla: Limits, measure: Measure, ladder: seq<int>, i: nat, best: real): Outcome
    requires i <= |ladder|
    decreases |ladder| - i
  {
    if i == |ladder| then Outcome([], None)
    else
      var point := PointAt(cfg, measure, ladder, i);
      var verdict := Verdict(cfg, sla, ladder[i], point, best);
      if verdict.Some? then Outcome([point], verdict)
      else
        var rest := Climb(cfg, sla, measure, ladder, i + 1, MaxReal(best, point.Throughput()));
        Outcome([point] + rest.points, rest.note)
  }

  function SweepOf(cfg: Config, sla: Limits, measure: Measure): Outcome {
    Climb(cfg, sla, measure, SortInts(cfg.concurrencies), 0, 0.0)
  }

  /** One rung: its point comes first, and ends the climb exactly when it draws a verdict. */
  lemma ClimbRung(cfg: Config, sla: Limits, measure: Measure, ladder: seq<int>, i: nat, best: real)
    requires i < |ladder|
    ensures var o, point := Climb(cfg, sla, measure, ladder, i, best), PointAt(cfg, measure, ladder, i);
            var verdict := Verdict(cfg, sla, ladder[i], point, best);
            var rest := Climb(cfg, sla, measure, ladder, i + 1, MaxReal(best, point.Throughput()));
            o == if verdict.Some? then Outcome([point], verdict) else Outcome([point] + rest.points, rest.note)
  {}

  method SweepConcurrency(cfg: Config, sla: Limits, measure: Measure) returns (points: seq<Bench>, notes: seq<Note>)
    requires ValidConfig(cfg)
    ensures points == SweepOf(cfg, sla, measure).points
    ensures notes == (if SweepOf(cfg, sla, measure).note.Some? then [SweepOf(cfg, sla, measure).note.value] else [])
  {
    points, notes := [], [];
    var best := 0.0;
    var ladder := SortInts(cfg.concurrencies);
    ghost var whole := SweepOf(cfg, sla, measure);
    assert Climb(cfg, sla, measure, ladder, |ladder|, 0.0) == Outcome([], None);
    for i := 0 to |ladder|
      invariant notes == []
      invariant var rest := Climb(cfg, sla, measure, ladder, i, best);
                whole.points == points + rest.points && whole.note == rest.note
    {
      hide Bench.Throughput, Bench.ErrorRate, Bench.Meets, SortInts, SweepOf, Climb;
      var concurrency := ladder[i];
      var point := measure(i, concurrency, Max(cfg.requestsPerPoint, concurrency));
      ClimbRung(cfg, sla, measure, ladder, i, best);
      assert forall tail: seq<Bench> :: points + ([point] + tail) == (points + [point]) + tail;
      points := points + [point];
      if point.ErrorRate() > cfg.maxErrorRate {
        notes := notes + [ErrorStop(concurrency)];
        return;
      }
      var throughput := point.Throughput();
      if cfg.stopOnSaturation && best > 0.0 && throughput < best * 1.02 {
        notes := notes + [SaturationStop(concurrency)];
        return;
      }
      best := MaxReal(best, throughput);
      if cfg.stopOnSlaViolation && !sla.Unconstrained() && !point.Meets(sla) {
        notes := notes + [SlaStop(concurrency)];
        return;
      }
    }
  }

  // ---------------------------------------------------------------- the shape of a sweep

  /** Every rung, as if nothing stopped the climb. */
  function Full(cfg: Config, measure: Measure, ladder: seq<int>, i: nat): (points: seq<Bench>)
    requires i <= |ladder|
    ensures |points| == |ladder| - i
    decreases |ladder| - i
  {
    if i == |ladder| then [] else [PointAt(cfg, measure, ladder, i)] + Full(cfg, measure, ladder, i + 1)
  }

  /** The best throughput over the first `k` points, starting from `best`. */
  function BestBefore(points: seq<Bench>, k: nat, best: real): real
    requires k <= |points|
  {
    if k == 0 then best else MaxReal(BestBefore(points, k - 1, best), points[k - 1].Throughput())
  }

  lemma {:induction false} BestBeforeShifts(p: Bench, rest: seq<Bench>, k: nat, best: real)
    requires k <= |rest|
    ensures BestBefore([p] + rest, k + 1, best) == BestBefore(rest, k, MaxReal(best, p.Throughput()))
    decreases k
  {
    if k > 0 { BestBeforeShifts(p, rest, k - 1, best); }
    else { assert BestBefore([p] + rest, 0, best) == best; }
  }

  /** The verdict on the k-th point of a climb that started at rung `i` with `best`. */
  ghost function VerdictAt(cfg: Config, sla: Limits, ladder: seq<int>, i: nat, best: real, points: seq<Bench>, k: nat): Option<Note>
    requires k < |points| <= |ladder| - i
  {
    Verdict(cfg, sla, ladder[i + k], points[k], BestBefore(points, k, best))
  }

  /** Only the last point of a climb can fail a check; with no note it fails none and the ladder is exhausted. */
  ghost predicate StopsAtFirstViolation(cfg: Config, sla: Limits, ladder: seq<int>, i: nat, best: real, o: Outcome)
    requires i <= |ladder|
  {
    && |o.points| <= |ladder| - i
    && (forall k: nat :: k < |o.points| - 1 ==> VerdictAt(cfg, sla, ladder, i, best, o.points, k) == None)
    && (o.note.None? ==> |o.points| == |ladder| - i)
    && (o.points != [] ==> VerdictAt(cfg, sla, ladder, i, best, o.points, |o.points| - 1) == o.note)
  }

  lemma {:induction false} ClimbStopsAtFirstViolation(cfg: Config, sla: Limits, measure: Measure, ladder: seq<int>, i: nat, best: real)
    requires i <= |ladder|
    ensures var o := Climb(cfg, sla, measure, ladder, i, best);
            && (i < |ladder| ==> o.points != [])
            && o.points <= Full(cfg, measure, ladder, i)
            && StopsAtFirstViolation(cfg, sla, ladder, i, best, o)
    decreases |ladder| - i
  {
    hide Verdict, PointAt, Bench.Throughput;
    if i < |ladder| {
      var point := PointAt(cfg, measure, ladder, i);
      var best' := MaxReal(best, point.Throughput());
      ClimbStopsAtFirstViolation(cfg, sla, measure, ladder, i + 1, best');
      if Verdict(cfg, sla, ladder[i], point, best).None? {
        var rest := Climb(cfg, sla, measure, ladder, i + 1, best');
        ExtendViolations(cfg, sla, ladder, i, best, point, rest);
      } else {
        assert [point] == [point] + [];
        VerdictShifts(cfg, sla, ladder, i, best, point, [], 0);
      }
    }
  }

  lemma VerdictShifts(cfg: Config, sla: Limits, ladder: seq<int>, i: nat, best: real, p: Bench, rest: seq<Bench>, k: nat)
    requires k <= |rest| < |ladder| - i
    ensures VerdictAt(cfg, sla, ladder, i, best, [p] + rest, k)
            == if k == 0 then Verdict(cfg, sla, ladder[i], p, best)
               else VerdictAt(cfg, sla, ladder, i + 1, MaxReal(best, p.Throughput()), rest, k - 1)
  {
    hide Verdict, Bench.Throughput;
    if k > 0 { BestBeforeShifts(p, rest, k - 1, best); }
  }

  lemma ExtendViolations(cfg: Config, sla: Limits, ladder: seq<int>, i: nat, best: real, point: Bench, rest: Outcome)
    requires i < |ladder| && Verdict(cfg, sla, ladder[i], point, best).None?
    requires rest.points == [] ==> i + 1 == |ladder| && rest.note.None?
    requires StopsAtFirstViolation(cfg, sla, ladder, i + 1, MaxReal(best, point.Throughput()), rest)
    ensures StopsAtFirstViolation(cfg, sla, ladder, i, best, Outcome([point] + rest.points, rest.note))
  {
    hide Verdict, VerdictAt, Bench.Throughput;
    var n := |rest.points|;
    forall k: nat | k < n ensures VerdictAt(cfg, sla, ladder, i, best, [point] + rest.points, k) == None {
      VerdictShifts(cfg, sla, ladder, i, best, point, rest.points, k);
    }
    VerdictShifts(cfg, sla, ladder, i, best, point, rest.points, n);
  }

  /** A sweep measures a nonempty prefix of the sorted ladder and stops at the first point that fails a check. */
  lemma SweepIsLadderPrefix(cfg: Config, sla: Limits, measure: Measure)
    requires ValidConfig(cfg)
    ensures var o := SweepOf(cfg, sla, measure);
            var ladder := SortInts(cfg.concurrencies);
            && AscendingInts(ladder) && multiset(ladder) == multiset(cfg.concurrencies)
            && o.points != [] && o.points <= Full(cfg, measure, ladder, 0)
            && StopsAtFirstViolation(cfg, sla, ladder, 0, 0.0, o)
  {
    SortIntsSorts(cfg.concurrencies);
    ClimbStopsAtFirstViolation(cfg, sla, measure, SortInts(cfg.concurrencies), 0, 0.0);
  }

  /**
   What the one note says, read off the last point: too many errors come first, then a gain under two
   percent on a positive best, then an SLA that is given and missed.
   */
  lemma NoteMeans(cfg: Config, sla: Limits, measure: Measure)
    requires ValidConfig(cfg)
    ensures var o, ladder := SweepOf(cfg, sla, measure), SortInts(cfg.concurrencies);
            && 1 <= |o.points| <= |ladder|
            && var n := |o.points| - 1;
            var last, c, best := o.points[n], ladder[n], BestBefore(o.points, n, 0.0);
            var failing := last.ErrorRate() > cfg.maxErrorRate;
            var stalling := cfg.stopOnSaturation && best > 0.0 && last.Throughput() < best + 0.02 * best;
            var missing := cfg.stopOnSlaViolation && (sla.ttftP99.Some? || sla.tpotP99.Some?) && !last.Meets(sla);
            && (o.note == Some(ErrorStop(c)) <==> failing)
            && (o.note == Some(SaturationStop(c)) <==> !failing && stalling)
            && (o.note == Some(SlaStop(c)) <==> !failing && !stalling && missing)
            && (o.note.None? <==> !failing && !stalling && !missing)
  {
    hide PointAt, Bench.Throughput, Bench.ErrorRate, Bench.Meets, SweepOf, BestBefore, SortInts;
    SweepIsLadderPrefix(cfg, sla, measure);
  }

  /** The k-th point is one run at the k-th rung, with enough requests to fill it. */
  lemma PointsAreRuns(cfg: Config, sla: Limits, measure: Measure, k: nat)
    requires ValidConfig(cfg) && k < |SweepOf(cfg, sla, measure).points|
    ensures var o, ladder := SweepOf(cfg, sla, measure), SortInts(cfg.concurrencies);
            && k < |ladder|
            && exists n :: n >= cfg.requestsPerPoint && n >= ladder[k] && (n == cfg.requestsPerPoint || n == ladder[k])
                           && o.points[k] == measure(k, ladder[k], n)
  {
    hide SweepOf, SortInts;
    SweepIsLadderPrefix(cfg, sla, measure);
    var ladder := SortInts(cfg.concurrencies);
    FullAt(cfg, measure, ladder, 0, k);
    assert SweepOf(cfg, sla, measure).points[k] == measure(k, ladder[k], Max(cfg.requestsPerPoint, ladder[k]));
  }

  // ---------------------------------------------------------------- the two saturation detectors

  function Usable(points: seq<Bench>): seq<Bench> { Filter(points, HasSuccess()) }

  lemma UsableSplits(p: Bench, rest: seq<Bench>)
    ensures Usable([p] + rest) == (if p.Usable() then [p] else []) + Usable(rest)
  {
    hide Bench.Usable;
    assert ([p] + rest)[1..] == rest;
  }

  /** A point that passed its checks does not trigger the scan, and leaves it the same best to go on with. */
  lemma ScanPassesOver(point: Bench, rest: seq<Bench>, best: real)
    requires best >= 0.0 && (best > 0.0 ==> point.Throughput() >= best * 1.02)
    ensures var tail := Usable(rest);
            point.Usable() && tail != [] ==>
              Scan(Usable([point] + rest), best) == Scan(tail, MaxReal(best, point.Throughput()))
    ensures point.Usable() && Usable(rest) == [] ==> Scan(Usable([point] + rest), best) == point.concurrency
    ensures !point.Usable() ==> MaxReal(best, point.Throughput()) == best
  {
    ThroughputSign(point);
    hide Bench.Usable, Bench.Throughput, Usable;
    UsableSplits(point, rest);
    if point.Usable() { assert Usable([point] + rest)[1..] == Usable(rest); }
  }

  /** Scanning what a climb measured never triggers before the last usable point. */
  lemma {:induction false} ScanEndsWithClimb(cfg: Config, sla: Limits, measure: Measure, ladder: seq<int>, i: nat, best: real)
    requires cfg.stopOnSaturation && i <= |ladder| && best >= 0.0
    ensures var usable := Usable(Climb(cfg, sla, measure, ladder, i, best).points);
            usable != [] ==> Scan(usable, best) == usable[|usable|-1].concurrency
    decreases |ladder| - i
  {
    hide PointAt, Bench.Throughput, Bench.ErrorRate, Bench.Meets, Bench.Usable, Usable, Scan;
    if i < |ladder| {
      var point := PointAt(cfg, measure, ladder, i);
      var best' := MaxReal(best, point.Throughput());
      if Verdict(cfg, sla, ladder[i], point, best).Some? {
        ScanOne(point, best);
      } else {
        var rest := Climb(cfg, sla, measure, ladder, i + 1, best').points;
        ScanEndsWithClimb(cfg, sla, measure, ladder, i + 1, best');
        ScanPassesOver(point, rest, best);
        UsableSplits(point, rest);
        assert Climb(cfg, sla, measure, ladder, i, best).points == [point] + rest;
        assert !point.Usable() ==> Usable([point] + rest) == Usable(rest);
      }
    } else {
      assert Usable([]) == [] by { NoneUsable(); }
    }
  }

  lemma NoneUsable()
    ensures Usable([]) == []
  {}

  lemma ScanOne(p: Bench, best: real)
    ensures var usable := Usable([p]);
            usable != [] ==> |usable| == 1 && Scan(usable, best) == usable[0].concurrency
  {
    NoneUsable();
    UsableSplits(p, []);
    assert [p] + [] == [p];
  }

  /** Points keep the ladder's order, so the detector's sort changes nothing. */
  lemma {:induction false} ClimbIsClimbing(cfg: Config, sla: Limits, measure: Measure, ladder: seq<int>, i: nat, best: real)
    requires i <= |ladder| && AscendingInts(ladder) && Reports(measure)
    ensures var usable := Usable(Climb(cfg, sla, measure, ladder, i, best).points);
            Climbing(usable) && forall p :: p in usable ==> i < |ladder| && ladder[i] <= p.concurrency
    decreases |ladder| - i
  {
    hide Verdict, Bench.Throughput, Bench.Usable;
    if i < |ladder| {
      var point := PointAt(cfg, measure, ladder, i);
      var best' := MaxReal(best, point.Throughput());
      ClimbIsClimbing(cfg, sla, measure, ladder, i + 1, best');
      var points := Climb(cfg, sla, measure, ladder, i, best).points;
      if Verdict(cfg, sla, ladder[i], point, best).Some? {
        assert points[1..] == [];
      } else {
        var rest := Climb(cfg, sla, measure, ladder, i + 1, best').points;
        assert points[0] == point && points[1..] == rest;
        var tail := Usable(rest);
        forall p | p in tail ensures ladder[i] <= p.concurrency { assert ladder[i] <= ladder[i + 1]; }
        PrependClimbing(point, tail);
      }
    }
  }

  lemma PrependClimbing(p: Bench, s: seq<Bench>)
    requires Climbing(s) && forall q :: q in s ==> p.concurrency <= q.concurrency
    ensures Climbing([p] + s)
  {
    var t := [p] + s;
    forall i, j | 0 <= i < j < |t| ensures t[i].concurrency <= t[j].concurrency {
      assert t[j] == s[j - 1] && s[j - 1] in s;
    }
  }

  /**
   On any sweep that stops on saturation the re-derived `saturation_concurrency` is the last usable
   point's concurrency, for every error limit and whichever check, if any, ended the climb.
   */
  lemma DetectorsAgree(cfg: Config, sla: Limits, measure: Measure)
    requires ValidConfig(cfg) && cfg.stopOnSaturation && Reports(measure)
    ensures var usable := Usable(SweepOf(cfg, sla, measure).points);
            Saturation(SweepOf(cfg, sla, measure).points)
            == if |usable| < 2 then None else Some(usable[|usable|-1].concurrency)
  {
    var ladder := SortInts(cfg.concurrencies);
    SortIntsSorts(cfg.concurrencies);
    ClimbIsClimbing(cfg, sla, measure, ladder, 0, 0.0);
    SortingClimbing(Usable(SweepOf(cfg, sla, measure).points));
    ScanEndsWithClimb(cfg, sla, measure, ladder, 0, 0.0);
  }

  /** Past the first positive point, each point but the last gains at least two percent on everything before it. */
  lemma ThroughputGrows(cfg: Config, sla: Limits, measure: Measure, j: nat, k: nat)
    requires ValidConfig(cfg) && cfg.stopOnSaturation
    requires j < k < |SweepOf(cfg, sla, measure).points| - 1
    ensures var points := SweepOf(cfg, sla, measure).points;
            points[k].Throughput() >= points[j].Throughput() * (if points[j].Throughput() > 0.0 then 1.02 else 1.0)
  {
    SweepIsLadderPrefix(cfg, sla, measure);
    var points := SweepOf(cfg, sla, measure).points;
    BestBeforeCovers(points, j, k, 0.0);
    ThroughputSign(points[k]);
    ThroughputSign(points[j]);
    assert VerdictAt(cfg, sla, SortInts(cfg.concurrencies), 0, 0.0, points, k) == None;
  }

  lemma {:induction false} BestBeforeCovers(points: seq<Bench>, j: nat, k: nat, best: real)
    requires j < k <= |points|
    ensures BestBefore(points, k, best) >= points[j].Throughput()
    decreases k
  {
    if j < k - 1 { BestBeforeCovers(points, j, k - 1, best); }
  }

  /** The best throughput of such a sweep is reached at one of its last two points. */
  lemma BestIsNearTheEnd(cfg: Config, sla: Limits, measure: Measure)
    requires ValidConfig(cfg) && cfg.stopOnSaturation
    requires BestThroughput(SweepOf(cfg, sla, measure).points).Some?
    ensures var points := SweepOf(cfg, sla, measure).points;
            var best := BestThroughput(points).value.Throughput();
            points != [] && (best == points[|points|-1].Throughput()
                             || (|points| >= 2 && best == points[|points|-2].Throughput()))
  {
    hide SweepOf, Bench.Throughput, BestThroughput;
    var points := SweepOf(cfg, sla, measure).points;
    var n := |points|;
    BestIsBest(points);
    var b :| 0 <= b < n && points[b] == BestThroughput(points).value;
    if b < n - 2 {
      ThroughputGrows(cfg, sla, measure, b, n - 2);
      ThroughputSign(points[b]);
      assert points[n - 2] in points;
    }
  }

  // ---------------------------------------------------------------- early stopping and the knee

  /** Once a rung misses the SLA, so does every higher one: latency is monotone in concurrency. */
  ghost predicate MeetsDownClosed(points: seq<Bench>, sla: Limits) {
    forall i, j :: 0 <= i < j < |points| && points[j].Meets(sla) ==> points[i].Meets(sla)
  }

  lemma {:induction false} NothingKept(points: seq<Bench>, sla: Limits)
    requires forall p :: p in points ==> !p.Meets(sla)
    ensures Filter(points, Satisfies(sla)) == []
    decreases |points|
  {
    hide Bench.Meets;
    if points != [] { NothingKept(points[1..], sla); }
  }

  /** Everything past an SLA stop misses the SLA. */
  lemma NothingMeetsPastStop(points: seq<Bench>, full: seq<Bench>, sla: Limits)
    requires points != [] && points <= full && MeetsDownClosed(full, sla) && !points[|points|-1].Meets(sla)
    ensures Filter(full[|points|..], Satisfies(sla)) == []
  {
    hide Bench.Meets;
    var n := |points|;
    forall p | p in full[n..] ensures !p.Meets(sla) {
      var j :| n <= j < |full| && full[j] == p;
      assert full[n - 1] == points[n - 1];
    }
    NothingKept(full[n..], sla);
  }

  /** A climb that ends with an SLA note ends on a point that misses the SLA. */
  lemma SlaNoteMeansMiss(cfg: Config, sla: Limits, measure: Measure)
    requires ValidConfig(cfg)
    ensures var o := SweepOf(cfg, sla, measure);
            && o.points != [] && o.points <= Full(cfg, measure, SortInts(cfg.concurrencies), 0)
            && (o.note.None? ==> o.points == Full(cfg, measure, SortInts(cfg.concurrencies), 0))
            && (o.note.Some? && o.note.value.SlaStop? ==> !o.points[|o.points|-1].Meets(sla))
  {
    hide PointAt, Bench.Throughput, Bench.ErrorRate, Bench.Meets, SweepOf, BestBefore;
    SweepIsLadderPrefix(cfg, sla, measure);
  }

  /** When only the SLA check can stop the climb, truncation loses nothing: the knee is the full ladder's knee. */
  lemma SlaStopKeepsKnee(cfg: Config, sla: Limits, measure: Measure)
    requires ValidConfig(cfg)
    requires var o := SweepOf(cfg, sla, measure); o.note.None? || o.note.value.SlaStop?
    requires MeetsDownClosed(Full(cfg, measure, SortInts(cfg.concurrencies), 0), sla)
    ensures Knee(SweepOf(cfg, sla, measure).points, sla) == Knee(Full(cfg, measure, SortInts(cfg.concurrencies), 0), sla)
  {
    hide Bench.Meets, SweepOf, Satisfies, Full, MeetsDownClosed, Knee;
    SlaNoteMeansMiss(cfg, sla, measure);
    var o := SweepOf(cfg, sla, measure);
    var full := Full(cfg, measure, SortInts(cfg.concurrencies), 0);
    if o.note.Some? {
      NothingMeetsPastStop(o.points, full, sla);
      KneeIgnoresTail(o.points, full, sla);
    }
  }

  lemma KneeIgnoresTail(points: seq<Bench>, full: seq<Bench>, sla: Limits)
    requires points <= full && Filter(full[|points|..], Satisfies(sla)) == []
    ensures Knee(points, sla) == Knee(full, sla)
  {
    hide Satisfies;
    assert full == points + full[|points|..];
    FilterConcat(points, full[|points|..], Satisfies(sla));
    assert Filter(full, Satisfies(sla)) == Filter(points, Satisfies(sla));
  }

  // ---------------------------------------------------------------- early stopping and the best throughput

  /** The best throughput reported for a list of points, zero when nothing succeeded. */
  function Peak(points: seq<Bench>): real {
    var best := BestThroughput(points);
    if best.Some? then best.value.Throughput() else 0.0
  }

  lemma {:induction false} BestBeforeBounds(points: seq<Bench>, k: nat)
    requires k <= |points|
    ensures forall j :: 0 <= j < k ==> points[j].Throughput() <= BestBefore(points, k, 0.0)
    ensures BestBefore(points, k, 0.0) == 0.0 || exists j :: 0 <= j < k && points[j].Throughput() == BestBefore(points, k, 0.0)
    ensures BestBefore(points, k, 0.0) >= 0.0
    decreases k
  {
    hide Bench.Throughput;
    if k > 0 { BestBeforeBounds(points, k - 1); }
  }

  /** The running best of the climb, taken over all its points, is the best the sweep reports. */
  lemma PeakIsRunningBest(points: seq<Bench>)
    ensures Peak(points) == BestBefore(points, |points|, 0.0)
  {
    hide Bench.Throughput, Bench.Usable, BestThroughput;
    BestBeforeBounds(points, |points|);
    BestIsBest(points);
    if BestThroughput(points).Some? {
      ThroughputSign(BestThroughput(points).value);
    } else {
      forall p | p in points ensures p.Throughput() == 0.0 { ThroughputSign(p); }
    }
  }

  lemma {:induction false} BestBeforePrefix(points: seq<Bench>, full: seq<Bench>, k: nat)
    requires points <= full && k <= |points|
    ensures BestBefore(points, k, 0.0) == BestBefore(full, k, 0.0)
    decreases k
  {
    hide Bench.Throughput;
    if k > 0 { BestBeforePrefix(points, full, k - 1); }
  }

  /** Nothing from rung `n` on beats what came before it. */
  ghost predicate NothingBetterFrom(full: seq<Bench>, n: nat)
    requires n <= |full|
  {
    forall j :: n <= j < |full| ==> full[j].Throughput() <= BestBefore(full, n, 0.0)
  }

  lemma PrefixKeepsPeak(points: seq<Bench>, full: seq<Bench>)
    requires points <= full
    ensures Peak(points) == Peak(full) <==> NothingBetterFrom(full, |points|)
  {
    hide Bench.Throughput, Peak;
    var n := |points|;
    PeakIsRunningBest(points);
    PeakIsRunningBest(full);
    BestBeforePrefix(points, full, n);
    BestBeforeBounds(full, n);
    BestBeforeBounds(full, |full|);
    BestBeforeGrows(full, n, |full|);
  }

  lemma {:induction false} BestBeforeGrows(points: seq<Bench>, n: nat, k: nat)
    requires n <= k <= |points|
    ensures BestBefore(points, n, 0.0) <= BestBefore(points, k, 0.0)
    decreases k
  {
    hide Bench.Throughput;
    if n < k { BestBeforeGrows(points, n, k - 1); }
  }

  /** The first rung of the full ladder on which any of the three checks fires. */
  ghost predicate FirstStop(cfg: Config, sla: Limits, ladder: seq<int>, full: seq<Bench>, k: nat)
    requires |full| == |ladder|
  {
    && k < |full| && VerdictAt(cfg, sla, ladder, 0, 0.0, full, k).Some?
    && forall j: nat :: j < k ==> VerdictAt(cfg, sla, ladder, 0, 0.0, full, j).None?
  }

  /** The guard of the saturation check, read off the full ladder. */
  ghost predicate Stalls(full: seq<Bench>, k: nat)
    requires k < |full|
  {
    var best := BestBefore(full, k, 0.0);
    best > 0.0 && full[k].Throughput() < best * 1.02
  }

  ghost predicate FirstStall(full: seq<Bench>, k: nat) {
    k < |full| && Stalls(full, k) && forall j: nat :: j < k ==> !Stalls(full, j)
  }

  /** After the ladder first stalls, no rung exceeds the best reached by then. */
  ghost predicate StallsForGood(full: seq<Bench>) {
    forall k: nat :: FirstStall(full, k) ==> NothingBetterFrom(full, k + 1)
  }

  /** The sweep ends on the first rung a check fires on, or runs to the end when none does. */
  lemma SweepEndsAtFirstStop(cfg: Config, sla: Limits, measure: Measure)
    requires ValidConfig(cfg)
    ensures var o, ladder := SweepOf(cfg, sla, measure), SortInts(cfg.concurrencies);
            var full := Full(cfg, measure, ladder, 0);
            && o.points != [] && o.points <= full
            && (o.note.None? ==> o.points == full)
            && (forall k: nat :: k < |o.points| ==>
                  VerdictAt(cfg, sla, ladder, 0, 0.0, full, k) == if k == |o.points| - 1 then o.note else None)
            && forall k: nat :: FirstStop(cfg, sla, ladder, full, k) <==> o.note.Some? && k == |o.points| - 1
  {
    hide PointAt, Bench.Throughput, Bench.ErrorRate, Bench.Meets, SweepOf, SortInts, Verdict, Full;
    SweepIsLadderPrefix(cfg, sla, measure);
    var o, ladder := SweepOf(cfg, sla, measure), SortInts(cfg.concurrencies);
    var full := Full(cfg, measure, ladder, 0);
    forall k: nat | k < |o.points|
      ensures VerdictAt(cfg, sla, ladder, 0, 0.0, full, k) == VerdictAt(cfg, sla, ladder, 0, 0.0, o.points, k)
    {
      BestBeforePrefix(o.points, full, k);
    }
    var last: nat := |o.points| - 1;
    assert VerdictAt(cfg, sla, ladder, 0, 0.0, full, last) == o.note;
  }

  /**
   Whichever check stops the climb, the sweep keeps the best throughput of the whole ladder exactly
   when no rung past the first one to fail a check beats what was measured up to it.
   */
  lemma EarlyStopKeepsBestExactly(cfg: Config, sla: Limits, measure: Measure)
    requires ValidConfig(cfg)
    ensures var ladder := SortInts(cfg.concurrencies);
            var full := Full(cfg, measure, ladder, 0);
            Peak(SweepOf(cfg, sla, measure).points) == Peak(full)
            <==> forall k: nat :: FirstStop(cfg, sla, ladder, full, k) ==> NothingBetterFrom(full, k + 1)
  {
    hide Peak, SweepOf, Full, SortInts, FirstStop, NothingBetterFrom, BestBefore, Verdict;
    SweepEndsAtFirstStop(cfg, sla, measure);
    var o, ladder := SweepOf(cfg, sla, measure), SortInts(cfg.concurrencies);
    var full := Full(cfg, measure, ladder, 0);
    PrefixKeepsPeak(o.points, full);
    if o.note.Some? {
      var last: nat := |o.points| - 1;
      assert FirstStop(cfg, sla, ladder, full, last) && last + 1 == |o.points|;
    }
  }

  lemma StopsAtFirstStall(cfg: Config, sla: Limits, measure: Measure)
    requires ValidConfig(cfg) && cfg.stopOnSaturation
    requires var o := SweepOf(cfg, sla, measure); o.note.None? || o.note.value.SaturationStop?
    ensures var o, full := SweepOf(cfg, sla, measure), Full(cfg, measure, SortInts(cfg.concurrencies), 0);
            && o.points != [] && o.points <= full
            && (o.note.None? ==> o.points == full)
            && forall k: nat :: FirstStall(full, k) <==> o.note.Some? && k == |o.points| - 1
  {
    hide PointAt, Bench.Throughput, Bench.ErrorRate, Bench.Meets, SweepOf, SortInts, Full, BestBefore;
    SweepEndsAtFirstStop(cfg, sla, measure);
    var o, ladder := SweepOf(cfg, sla, measure), SortInts(cfg.concurrencies);
    var full := Full(cfg, measure, ladder, 0);
    forall k: nat | k < |o.points| ensures Stalls(full, k) <==> o.note.Some? && k == |o.points| - 1 {
      assert VerdictAt(cfg, sla, ladder, 0, 0.0, full, k) == if k == |o.points| - 1 then o.note else None;
    }
    forall k: nat ensures FirstStall(full, k) <==> o.note.Some? && k == |o.points| - 1 {
      if k >= |o.points| && o.note.Some? { assert Stalls(full, |o.points| - 1); }
    }
  }

  /**
   A sweep that only saturation can end keeps the ladder's best throughput exactly when the ladder's
   first stall is for good.
   */
  lemma SaturationStopKeepsBestExactly(cfg: Config, sla: Limits, measure: Measure)
    requires ValidConfig(cfg) && cfg.stopOnSaturation
    requires var o := SweepOf(cfg, sla, measure); o.note.None? || o.note.value.SaturationStop?
    ensures var full := Full(cfg, measure, SortInts(cfg.concurrencies), 0);
            Peak(SweepOf(cfg, sla, measure).points) == Peak(full) <==> StallsForGood(full)
  {
    hide Peak, SweepOf, Full, SortInts, FirstStall, NothingBetterFrom, BestBefore;
    StopsAtFirstStall(cfg, sla, measure);
    var o, full := SweepOf(cfg, sla, measure), Full(cfg, measure, SortInts(cfg.concurrencies), 0);
    PrefixKeepsPeak(o.points, full);
    if o.note.Some? {
      var last: nat := |o.points| - 1;
      assert FirstStall(full, last) && last + 1 == |o.points|;
    }
  }

  /** Gains under two percent never turn back into larger ones. */
  ghost predicate NeverReaccelerates(full: seq<Bench>) {
    forall k: nat, j: nat :: k < j < |full| && Stalls(full, k) ==> Stalls(full, j)
  }

  /** Two percent compounded over `n` rungs. */
  function Gain(n: nat): (g: real)
    ensures g >= 1.0
  {
    if n == 0 then 1.0 else 1.02 * Gain(n - 1)
  }

  lemma {:induction false} StalledRungsCompound(full: seq<Bench>, n: nat, k: nat)
    requires n <= k <= |full| && forall j: nat :: n <= j < k ==> Stalls(full, j)
    ensures BestBefore(full, k, 0.0) <= Gain(k - n) * BestBefore(full, n, 0.0)
    decreases k
  {
    hide Bench.Throughput;
    if n < k {
      StalledRungsCompound(full, n, k - 1);
      assert Stalls(full, k - 1);
      CompoundOnce(BestBefore(full, k - 1, 0.0), full[k - 1].Throughput(), Gain(k - 1 - n), BestBefore(full, n, 0.0));
    }
  }

  lemma CompoundOnce(before: real, t: real, gain: real, start: real)
    requires 0.0 <= before <= gain * start && t < before * 1.02
    ensures MaxReal(before, t) <= 1.02 * gain * start
  {
    assert 1.02 * gain * start == 1.02 * (gain * start);
  }

  /** When gains never re-accelerate, a saturation stop costs at most two percent a rung it dropped. */
  lemma SaturationStopLosesLittle(cfg: Config, sla: Limits, measure: Measure)
    requires ValidConfig(cfg) && cfg.stopOnSaturation
    requires var o := SweepOf(cfg, sla, measure); o.note.None? || o.note.value.SaturationStop?
    requires NeverReaccelerates(Full(cfg, measure, SortInts(cfg.concurrencies), 0))
    ensures var points, full := SweepOf(cfg, sla, measure).points, Full(cfg, measure, SortInts(cfg.concurrencies), 0);
            && |points| <= |full|
            && Peak(points) <= Peak(full) <= Gain(|full| - |points|) * Peak(points)
  {
    hide Peak, SweepOf, Full, SortInts, BestBefore, Bench.Throughput, Stalls;
    StopsAtFirstStall(cfg, sla, measure);
    var o, full := SweepOf(cfg, sla, measure), Full(cfg, measure, SortInts(cfg.concurrencies), 0);
    var n := |o.points|;
    PeakIsRunningBest(o.points);
    PeakIsRunningBest(full);
    BestBeforePrefix(o.points, full, n);
    BestBeforeGrows(full, n, |full|);
    if o.note.Some? {
      assert FirstStall(full, n - 1);
      StalledRungsCompound(full, n, |full|);
    }
  }

  // ---------------------------------------------------------------- early stopping and the knee, for any stop

  /** No rung from `n` on meets the SLA with more throughput than every earlier rung that meets it. */
  ghost predicate NoBetterKneeFrom(full: seq<Bench>, sla: Limits, n: nat)
    requires n <= |full|
  {
    forall j :: n <= j < |full| && full[j].Meets(sla) ==>
      exists i :: 0 <= i < n && full[i].Meets(sla) && full[i].Throughput() >= full[j].Throughput()
  }

  lemma PrefixKeepsKnee(points: seq<Bench>, full: seq<Bench>, sla: Limits)
    requires points <= full
    ensures Knee(points, sla) == Knee(full, sla) <==> NoBetterKneeFrom(full, sla, |points|)
  {
    hide Bench.Meets, Bench.Throughput, Knee;
    var n := |points|;
    KneeIsBest(points, sla);
    KneeIsBest(full, sla);
    if NoBetterKneeFrom(full, sla, n) {
      KneeSurvivesTail(points, full, sla);
    } else {
      var j :| n <= j < |full| && full[j].Meets(sla)
               && forall i :: 0 <= i < n && full[i].Meets(sla) ==> full[i].Throughput() < full[j].Throughput();
      assert full[j] in full;
      if Knee(points, sla).Some? {
        var i :| 0 <= i < n && points[i] == Knee(points, sla).value;
        assert full[i] == points[i];
      }
    }
  }

  lemma KneeSurvivesTail(points: seq<Bench>, full: seq<Bench>, sla: Limits)
    requires points <= full && NoBetterKneeFrom(full, sla, |points|)
    ensures Knee(points, sla) == Knee(full, sla)
  {
    hide Bench.Meets, Bench.Throughput, Knee;
    var n := |points|;
    var tail := full[n..];
    assert full == points + tail;
    FilterConcat(points, tail, Satisfies(sla));
    KneeIsBest(points, sla);
    forall p | p in tail && p.Meets(sla)
      ensures Knee(points, sla).Some? && p.Throughput() <= Knee(points, sla).value.Throughput()
    {
      var j :| n <= j < |full| && full[j] == p;
      var i :| 0 <= i < n && full[i].Meets(sla) && full[i].Throughput() >= full[j].Throughput();
      assert full[i] == points[i] && points[i] in points;
    }
    KneeOfConcat(points, tail, sla);
  }

  lemma KneeOfConcat(points: seq<Bench>, tail: seq<Bench>, sla: Limits)
    requires forall p :: p in tail && p.Meets(sla) ==>
               Knee(points, sla).Some? && p.Throughput() <= Knee(points, sla).value.Throughput()
    ensures Knee(points + tail, sla) == Knee(points, sla)
  {
    hide Bench.Meets, Bench.Throughput;
    var a, b := Filter(points, Satisfies(sla)), Filter(tail, Satisfies(sla));
    FilterConcat(points, tail, Satisfies(sla));
    forall p | p in b ensures p in tail && p.Meets(sla) { FilterKeeps(tail, Satisfies(sla), p); }
    if a == [] {
      if b != [] { assert b[0] in b; }
    } else {
      forall p | p in b ensures ByThroughput()(p) <= ByThroughput()(FirstMax(a, ByThroughput())) {}
      FirstMaxPrefix(a, b, ByThroughput());
    }
  }

  /**
   Whichever check stops the climb, the knee of the sweep is the knee of the whole ladder exactly when
   no rung past the first to fail a check meets the SLA with more throughput than all before it.
   */
  lemma EarlyStopKeepsKneeExactly(cfg: Config, sla: Limits, measure: Measure)
    requires ValidConfig(cfg)
    ensures var ladder := SortInts(cfg.concurrencies);
            var full := Full(cfg, measure, ladder, 0);
            Knee(SweepOf(cfg, sla, measure).points, sla) == Knee(full, sla)
            <==> forall k: nat :: FirstStop(cfg, sla, ladder, full, k) ==> NoBetterKneeFrom(full, sla, k + 1)
  {
    hide Knee, SweepOf, Full, SortInts, FirstStop, NoBetterKneeFrom, BestBefore, Verdict;
    SweepEndsAtFirstStop(cfg, sla, measure);
    var o, ladder := SweepOf(cfg, sla, measure), SortInts(cfg.concurrencies);
    var full := Full(cfg, measure, ladder, 0);
    PrefixKeepsKnee(o.points, full, sla);
    if o.note.Some? {
      var last: nat := |o.points| - 1;
      assert FirstStop(cfg, sla, ladder, full, last) && last + 1 == |o.points|;
    } else {
      NothingPastTheEnd(full, sla);
    }
  }

  lemma NothingPastTheEnd(full: seq<Bench>, sla: Limits)
    ensures NoBetterKneeFrom(full, sla, |full|)
  {}

  // ---------------------------------------------------------------- configurations that lose nothing

  /** Whatever the engine measures and whatever the SLA, the sweep keeps the best throughput of its ladder. */
  ghost predicate AlwaysKeepsBest(cfg: Config) {
    forall measure: Measure, sla: Limits :: Reports(measure) ==>
      Peak(SweepOf(cfg, sla, measure).points) == Peak(Full(cfg, measure, SortInts(cfg.concurrencies), 0))
  }

  /** One rung; or no check that can fire on a rung with others above it. */
  predicate LosesNothing(cfg: Config) {
    || |cfg.concurrencies| == 1
    || (cfg.maxErrorRate == 1.0 && !cfg.stopOnSlaViolation && (!cfg.stopOnSaturation || |cfg.concurrencies| == 2))
  }

  /** The first rung fails outright; the others make 200 tokens per second. */
  function FailsFirst(): Measure {
    (i, c, n) => if i == 0 then Bench(c, 1.0, [Record(1, 0, None, 1.0, "refused")]) else Sample(200, c)
  }

  lemma FailingThroughput(c: int)
    ensures var b := Bench(c, 1.0, [Record(1, 0, None, 1.0, "refused")]);
            b.ErrorRate() == 1.0 && !b.Usable() && b.Throughput() == 0.0
  {
    var b := Bench(c, 1.0, [Record(1, 0, None, 1.0, "refused")]);
    assert !b.records[0].Ok();
    assert b.records[1..] == [];
    ErrorRateIsOneExactly(b);
    ThroughputSign(b);
  }

  /** A climb whose first point draws a verdict measures that point alone. */
  lemma FirstPointStops(cfg: Config, sla: Limits, measure: Measure)
    requires ValidConfig(cfg) && |SortInts(cfg.concurrencies)| >= 1
    requires var ladder := SortInts(cfg.concurrencies);
             Verdict(cfg, sla, ladder[0], PointAt(cfg, measure, ladder, 0), 0.0).Some?
    ensures SweepOf(cfg, sla, measure).points == [PointAt(cfg, measure, SortInts(cfg.concurrencies), 0)]
  {
    hide PointAt, Verdict, SortInts;
  }

  lemma {:induction false} FullAt(cfg: Config, measure: Measure, ladder: seq<int>, i: nat, k: nat)
    requires i + k < |ladder|
    ensures Full(cfg, measure, ladder, i)[k] == PointAt(cfg, measure, ladder, i + k)
    decreases k
  {
    hide PointAt;
    if k > 0 { FullAt(cfg, measure, ladder, i + 1, k - 1); }
  }

  /** A point that fails outright ends the climb when errors or SLA misses do. */
  lemma FailingFirstLoses(cfg: Config)
    requires ValidConfig(cfg) && |cfg.concurrencies| >= 2 && (cfg.maxErrorRate < 1.0 || cfg.stopOnSlaViolation)
    ensures !AlwaysKeepsBest(cfg)
  {
    var sla, measure, ladder := Limits(Some(1.0), None), FailsFirst(), SortInts(cfg.concurrencies);
    var full := Full(cfg, measure, ladder, 0);
    FailingThroughput(ladder[0]);
    SampleThroughput(200, ladder[1]);
    FullAt(cfg, measure, ladder, 0, 1);
    hide Bench.Throughput, Bench.ErrorRate, Bench.Usable, Peak, Full, Sample, SortInts, SweepOf;
    var first := PointAt(cfg, measure, ladder, 0);
    assert !first.Meets(sla);
    FirstPointStops(cfg, sla, measure);
    PeakIsRunningBest([first]);
    PeakIsRunningBest(full);
    BestBeforeBounds(full, |full|);
    BestBeforeOne(first);
    assert Reports(measure) by { SamplesReport(); }
  }

  lemma SamplesReport()
    ensures Reports(FailsFirst()) && Reports(LateRiser())
  {
    var fails, rises := FailsFirst(), LateRiser();
    forall i: nat, c: int, n: int
      ensures fails(i, c, n).concurrency == c && rises(i, c, n).concurrency == c
    {
      assert rises(i, c, n) == Sample(if i == 0 then 100 else if i == 1 then 101 else 200, c);
      assert i > 0 ==> fails(i, c, n) == Sample(200, c);
      assert fails(0, c, n).concurrency == c;
    }
  }

  lemma BestBeforeOne(p: Bench)
    requires p.Throughput() >= 0.0
    ensures BestBefore([p], 1, 0.0) == p.Throughput()
  {
    assert BestBefore([p], 0, 0.0) == 0.0;
  }

  /** A stall on the second rung of three ends the climb; the third may be the best. */
  lemma StallingLoses(cfg: Config)
    requires ValidConfig(cfg) && |cfg.concurrencies| >= 3 && cfg.stopOnSaturation
    requires cfg.maxErrorRate == 1.0 && !cfg.stopOnSlaViolation
    ensures !AlwaysKeepsBest(cfg)
  {
    hide Bench.Throughput, Bench.ErrorRate, Bench.Meets, Bench.Usable, Sample, SortInts, Peak, Full;
    var sla, measure, ladder := Limits(None, None), LateRiser(), SortInts(cfg.concurrencies);
    var full := Full(cfg, measure, ladder, 0);
    SampleThroughput(100, ladder[0]);
    SampleThroughput(101, ladder[1]);
    SampleThroughput(200, ladder[2]);
    FullAt(cfg, measure, ladder, 0, 2);
    assert Climb(cfg, sla, measure, ladder, 1, 100.0)
        == Outcome([Sample(101, ladder[1])], Some(SaturationStop(ladder[1])));
    assert Climb(cfg, sla, measure, ladder, 0, 0.0)
        == Outcome([Sample(100, ladder[0])] + [Sample(101, ladder[1])], Some(SaturationStop(ladder[1])));
    HighThirdIsLost([Sample(100, ladder[0])] + [Sample(101, ladder[1])], full);
    assert SweepOf(cfg, sla, measure).points == [Sample(100, ladder[0])] + [Sample(101, ladder[1])];
    SamplesReport();
  }

  lemma HighThirdIsLost(points: seq<Bench>, full: seq<Bench>)
    requires |points| == 2 && points[0].Throughput() == 100.0 && points[1].Throughput() == 101.0
    requires |full| >= 3 && full[2].Throughput() == 200.0
    ensures Peak(points) == 101.0 && Peak(full) >= 200.0
  {
    hide Peak, Bench.Throughput;
    PeakIsRunningBest(points);
    PeakIsRunningBest(full);
    BestBeforeBounds(points, 2);
    BestBeforeBounds(full, |full|);
  }

  /** A check that cannot fire below the top of the ladder drops nothing. */
  lemma SafeConfigurationKeepsBest(cfg: Config, sla: Limits, measure: Measure)
    requires ValidConfig(cfg) && LosesNothing(cfg)
    ensures SweepOf(cfg, sla, measure).points == Full(cfg, measure, SortInts(cfg.concurrencies), 0)
  {
    hide SweepOf, Full, SortInts, Bench.Throughput, Bench.ErrorRate, Bench.Meets;
    SweepEndsAtFirstStop(cfg, sla, measure);
    var o, ladder := SweepOf(cfg, sla, measure), SortInts(cfg.concurrencies);
    var full := Full(cfg, measure, ladder, 0);
    if o.note.Some? && |ladder| > 1 {
      var last: nat := |o.points| - 1;
      ErrorRateIsOneExactly(full[last]);
      assert VerdictAt(cfg, sla, ladder, 0, 0.0, full, last) == o.note;
      assert BestBefore(full, 0, 0.0) == 0.0;
      assert last > 0;
    }
    assert |o.points| == |full|;
  }

  /**
   For every valid configuration, the sweep keeps its ladder's best throughput under all engines and SLAs
   exactly when it has one rung, or no check can fire below the last rung: errors are never too many,
   SLA misses do not stop it, and it either ignores saturation or has two rungs.
   */
  lemma AlwaysKeepsBestExactly(cfg: Config)
    requires ValidConfig(cfg)
    ensures AlwaysKeepsBest(cfg) <==> LosesNothing(cfg)
  {
    hide SweepOf, Full, SortInts, Peak;
    if LosesNothing(cfg) {
      forall measure: Measure, sla: Limits | Reports(measure)
        ensures Peak(SweepOf(cfg, sla, measure).points) == Peak(Full(cfg, measure, SortInts(cfg.concurrencies), 0))
      {
        SafeConfigurationKeepsBest(cfg, sla, measure);
      }
    } else if cfg.maxErrorRate < 1.0 || cfg.stopOnSlaViolation {
      FailingFirstLoses(cfg);
    } else {
      StallingLoses(cfg);
    }
  }

  // ---------------------------------------------------------------- what a saturation stop can lose

  function Sample(tokens: int, concurrency: int): Bench {
    Bench(concurrency, 1.0, [Record(1, tokens, Some(0.1), 1.0, "")])
  }

  /** Throughput 100, 101, then 200 tokens per second. */
  function LateRiser(): Measure {
    (i, c, n) => Sample(if i == 0 then 100 else if i == 1 then 101 else 200, c)
  }

  lemma SampleThroughput(tokens: int, concurrency: int)
    requires tokens > 0
    ensures Sample(tokens, concurrency).Throughput() == tokens as real
    ensures Sample(tokens, concurrency).ErrorRate() == 0.0 && Sample(tokens, concurrency).Usable()
  {
    var b := Sample(tokens, concurrency);
    assert b.records[1..] == [] && TokensOf(b.records[1..]) == 0;
    assert b.records[0].Ok();
  }

  lemma OrderedLadder()
    ensures SortInts([1, 2, 4]) == [1, 2, 4]
  {
    SortByIsStable([1, 2, 4], ByValue());
  }

  /** A ladder that stalls and then climbs again: the stop discards its best point. */
  lemma SaturationStopCanLoseBest()
    ensures var cfg := Config([1, 2, 4], 32, true, true, 0.1);
            var points := SweepOf(cfg, Limits(None, None), LateRiser()).points;
            && ValidConfig(cfg) && SortInts(cfg.concurrencies) == [1, 2, 4]
            && |points| == 2
            && points[1].Throughput() == 101.0
            && PointAt(cfg, LateRiser(), [1, 2, 4], 2).Throughput() == 200.0
            && Peak(points) < Peak(Full(cfg, LateRiser(), [1, 2, 4], 0))
  {
    hide Bench.Throughput, Bench.ErrorRate, Bench.Meets, Bench.Usable, Sample, SortInts;
    var cfg := Config([1, 2, 4], 32, true, true, 0.1);
    var sla := Limits(None, None);
    var ladder := [1, 2, 4];
    OrderedLadder();
    SampleThroughput(100, 1);
    SampleThroughput(101, 2);
    SampleThroughput(200, 4);
    assert Climb(cfg, sla, LateRiser(), ladder, 1, 100.0)
        == Outcome([Sample(101, 2)], Some(SaturationStop(2)));
    assert Climb(cfg, sla, LateRiser(), ladder, 0, 0.0)
        == Outcome([Sample(100, 1)] + [Sample(101, 2)], Some(SaturationStop(2)));
    HighThirdIsLost([Sample(100, 1)] + [Sample(101, 2)], Full(cfg, LateRiser(), ladder, 0));
  }
}
