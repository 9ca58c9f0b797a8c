/** Latency and throughput metrics of one benchmark run and of a sweep (bench/metrics.py). */
module Metrics {
  import opened Results
  import opened Arithmetic
  import opened RealArithmetic
  import opened OrderStatistics
  import opened Selection

  datatype Record = Record(promptTokens: int, outputTokens: int, ttft: Option<real>, total: real, error: string) {
    predicate Ok() { error == "" && outputTokens > 0 && ttft.Some? }

    /** Seconds per output token after the first; undefined for a single token. */
    function Tpot(): Option<real> {
      if !Ok() || outputTokens < 2 then None else Some((total - ttft.value) / (outputTokens - 1) as real)
    }
  }

  datatype LatencyStats = LatencyStats(count: nat, mean: real, p50: real, p90: real, p99: real, least: real, most: real)

  function Milliseconds(samples: seq<real>): (ms: seq<real>)
    ensures |ms| == |samples|
  {
    seq(|samples|, i requires 0 <= i < |samples| => samples[i] * 1000.0)
  }

  function Sum(s: seq<real>): real {
    if s == [] then 0.0 else s[0] + Sum(s[1..])
  }

  function Least(s: seq<real>): real
    requires s != []
  {
    FirstMax(s, x => -x)
  }

  function Most(s: seq<real>): real
    requires s != []
  {
    FirstMax(s, x => x)
  }

  function Mean(s: seq<real>): real
    requires s != []
  {
    Sum(s) / |s| as real
  }

  function FromSeconds(samples: seq<real>): LatencyStats {
    if samples == [] then LatencyStats(0, 0.0, 0.0, 0.0, 0.0, 0.0, 0.0)
    else
      var ms := Milliseconds(samples);
      PercentileIsNearestRank(ms, 0.50);
      PercentileIsNearestRank(ms, 0.90);
      PercentileIsNearestRank(ms, 0.99);
      LatencyStats(|ms|, Mean(ms), Percentile(ms, 0.50).value, Percentile(ms, 0.90).value,
                   Percentile(ms, 0.99).value, Least(ms), Most(ms))
  }

  /** Percentiles never cross and stay within the extremes; an empty sample is all zeros. */
  lemma StatsAreOrdered(samples: seq<real>)
    ensures var s := FromSeconds(samples);
            s.count == |samples| && s.least <= s.p50 <= s.p90 <= s.p99 <= s.most
  {
    if samples != [] {
      var ms := Milliseconds(samples);
      PercentileMonotoneInQuantile(ms, 0.50, 0.90);
      PercentileMonotoneInQuantile(ms, 0.90, 0.99);
      PercentileIsNearestRank(ms, 0.50);
      PercentileIsNearestRank(ms, 0.99);
      var lo: real -> real := x => -x;
      assert lo(Percentile(ms, 0.50).value) <= lo(Least(ms));
      var hi: real -> real := x => x;
      assert hi(Percentile(ms, 0.99).value) <= hi(Most(ms));
    }
  }

  /** Each figure of a nonempty sample, in milliseconds and stated without sorting. */
  lemma StatsAre(samples: seq<real>)
    requires samples != []
    ensures var s, ms, n := FromSeconds(samples), Milliseconds(samples), |samples|;
            && IsKthSmallest(ms, Rank(n, 0.50), s.p50)
            && IsKthSmallest(ms, Rank(n, 0.90), s.p90)
            && IsKthSmallest(ms, Rank(n, 0.99), s.p99)
            && s.least in ms && s.most in ms && (forall v :: v in ms ==> s.least <= v <= s.most)
            && s.mean * n as real == Sum(ms)
  {
    hide IsKthSmallest, Rank, Percentile, Sum, Mean, Least, Most, Milliseconds;
    var ms := Milliseconds(samples);
    PercentileIsNearestRank(ms, 0.50);
    PercentileIsNearestRank(ms, 0.90);
    PercentileIsNearestRank(ms, 0.99);
    ExtremesAre(ms);
    MeanTimesCount(ms);
  }

  /** Without samples every figure is zero. */
  lemma EmptyStatsAreZero()
    ensures var s := FromSeconds([]);
            s.count == 0 && s.mean == s.p50 == s.p90 == s.p99 == s.least == s.most == 0.0
  {}

  lemma ExtremesAre(ms: seq<real>)
    requires ms != []
    ensures Least(ms) in ms && Most(ms) in ms && forall v :: v in ms ==> Least(ms) <= v <= Most(ms)
  {
    var lo: real -> real := x => -x;
    var hi: real -> real := x => x;
    forall v | v in ms ensures Least(ms) <= v <= Most(ms) { assert lo(v) <= lo(Least(ms)) && hi(v) <= hi(Most(ms)); }
  }

  /** A sum starts at zero, counts a lone value once, and splits over parts. */
  lemma {:induction false} SumJoins(a: seq<real>, b: seq<real>)
    ensures Sum([]) == 0.0 && (|a| == 1 ==> Sum(a) == a[0])
    ensures Sum(a + b) == Sum(a) + Sum(b)
    decreases |a|
  {
    if a == [] {
      assert a + b == b;
    } else {
      assert (a + b)[1..] == a[1..] + b;
      SumJoins(a[1..], b);
      if |a| == 1 { assert a[1..] == []; }
    }
  }

  lemma MeanTimesCount(s: seq<real>)
    requires s != []
    ensures Mean(s) * |s| as real == Sum(s)
  {
    hide Sum;
    DivCancels(Sum(s), |s| as real);
  }

  datatype Limits = Limits(ttftP99: Option<real>, tpotP99: Option<real>) {
    predicate Unconstrained() { ttftP99.None? && tpotP99.None? }
  }

  /** The figures that are present, in order: `[f(x) for x in s if f(x) is not None]`. */
  function Present<T>(s: seq<T>, f: T -> Option<real>): seq<real> {
    if s == [] then [] else (if f(s[0]).Some? then [f(s[0]).value] else []) + Present(s[1..], f)
  }

  function TokensOf(records: seq<Record>): int {
    if records == [] then 0 else (if records[0].Ok() then records[0].outputTokens else 0) + TokensOf(records[1..])
  }

  /** The outcome of one concurrency level. */
  datatype Bench = Bench(concurrency: int, duration: real, records: seq<Record>) {
    function Successful(): seq<Record> { Filter(records, (r: Record) => r.Ok()) }

    function Failed(): seq<Record> { Filter(records, (r: Record) => !r.Ok()) }

    function ErrorRate(): real {
      if records == [] then 0.0 else |Failed()| as real / |records| as real
    }

    function Ttft(): LatencyStats {
      FromSeconds(Present(Successful(), (r: Record) => r.ttft))
    }

    function Tpot(): LatencyStats {
      FromSeconds(Present(Successful(), (r: Record) => r.Tpot()))
    }

    /** Generated tokens per second; prompt tokens are deliberately not counted. */
    function Throughput(): real {
      if duration > 0.0 then TokensOf(records) as real / duration else 0.0
    }

    predicate Usable() { Successful() != [] }

    predicate Meets(sla: Limits) {
      && Usable()
      && !(sla.ttftP99.Some? && Ttft().p99 > sla.ttftP99.value)
      && !(sla.tpotP99.Some? && Tpot().p99 > sla.tpotP99.value)
    }
  }

  lemma {:induction false} TokensSign(records: seq<Record>)
    ensures TokensOf(records) >= 0
    ensures Filter(records, (r: Record) => r.Ok()) == [] ==> TokensOf(records) == 0
    ensures Filter(records, (r: Record) => r.Ok()) != [] ==> TokensOf(records) > 0
    decreases |records|
  {
    if records != [] { TokensSign(records[1..]); }
  }

  /** Throughput is never negative, and a run without a success has none. */
  lemma ThroughputSign(b: Bench)
    ensures b.Throughput() >= 0.0
    ensures !b.Usable() ==> b.Throughput() == 0.0
  {
    TokensSign(b.records);
  }

  lemma {:induction false} SuccessPlusFailure(records: seq<Record>)
    ensures |Filter(records, (r: Record) => r.Ok())| + |Filter(records, (r: Record) => !r.Ok())| == |records|
    decreases |records|
  {
    if records != [] { SuccessPlusFailure(records[1..]); }
  }

  /** A run fails outright exactly when it recorded something and nothing succeeded. */
  lemma ErrorRateIsOneExactly(b: Bench)
    ensures 0.0 <= b.ErrorRate() <= 1.0
    ensures b.ErrorRate() == 1.0 <==> b.records != [] && !b.Usable()
  {
    SuccessPlusFailure(b.records);
    if b.records != [] {
      FractionOfWhole(|b.Failed()|, |b.records|);
    }
  }

  lemma FractionOfWhole(f: nat, n: nat)
    requires 0 < n && f <= n
    ensures 0.0 <= f as real / n as real <= 1.0
    ensures f as real / n as real == 1.0 <==> f == n
  {
    DivLe(f as real, n as real, 0.0);
    DivLe(f as real, n as real, 1.0);
  }

  // ---------------------------------------------------------------- what the figures count

  /** How many elements pass a test. */
  function CountWhere<T>(s: seq<T>, test: T -> bool): (n: nat)
    ensures n <= |s|
  {
    if s == [] then 0 else (if test(s[0]) then 1 else 0) + CountWhere(s[1..], test)
  }

  function Succeeded(): Record -> bool {
    (r: Record) => r.error == "" && r.outputTokens > 0 && r.ttft.Some?
  }

  function StartedWithin(ms: real): Record -> bool {
    (r: Record) => r.error == "" && r.outputTokens > 0 && r.ttft.Some? && 1000.0 * r.ttft.value <= ms
  }

  function Streamed(): Record -> bool {
    (r: Record) => r.error == "" && r.outputTokens > 1 && r.ttft.Some?
  }

  /** The time after the first token, spread over the tokens after the first. */
  function StreamedWithin(ms: real): Record -> bool {
    (r: Record) => r.error == "" && r.outputTokens > 1 && r.ttft.Some?
                   && 1000.0 * (r.total - r.ttft.value) <= ms * (r.outputTokens - 1) as real
  }

  lemma {:induction false} OkCounts(records: seq<Record>)
    ensures |Filter(records, (r: Record) => r.Ok())| == CountWhere(records, Succeeded())
    decreases |records|
  {
    if records != [] { OkCounts(records[1..]); }
  }

  /** The error rate times the requests recorded is how many did not succeed; with none recorded it is zero. */
  lemma ErrorRateCounts(b: Bench)
    ensures b.ErrorRate() * |b.records| as real == (|b.records| - CountWhere(b.records, Succeeded())) as real
    ensures b.records == [] ==> b.ErrorRate() == 0.0
  {
    OkCounts(b.records);
    SuccessPlusFailure(b.records);
    hide CountWhere, Filter;
    if b.records != [] { RateTimesCount(|b.Failed()|, |b.records|); }
  }

  lemma RateTimesCount(f: nat, n: nat)
    requires n > 0
    ensures f as real / n as real * n as real == f as real
  {
    DivCancels(f as real, n as real);
  }

  lemma MillisecondsCons(x: real, s: seq<real>)
    ensures Milliseconds([x] + s) == [x * 1000.0] + Milliseconds(s)
  {}

  lemma PresentCons<T>(x: T, s: seq<T>, f: T -> Option<real>)
    ensures Present([x] + s, f) == (if f(x).Some? then [f(x).value] else []) + Present(s, f)
  {
    assert ([x] + s)[1..] == s;
  }

  lemma CountLeCons(x: real, s: seq<real>, v: real)
    ensures CountLe([x] + s, v) == (if x <= v then 1 else 0) + CountLe(s, v)
  {
    assert ([x] + s)[1..] == s;
  }

  lemma {:induction false} TtftCounts(records: seq<Record>, ms: real)
    ensures var kept := Present(Filter(records, (r: Record) => r.Ok()), (r: Record) => r.ttft);
            |kept| == CountWhere(records, Succeeded())
            && CountLe(Milliseconds(kept), ms) == CountWhere(records, StartedWithin(ms))
    decreases |records|
  {
    if records != [] {
      var rest := Filter(records[1..], (r: Record) => r.Ok());
      var f := (r: Record) => r.ttft;
      TtftCounts(records[1..], ms);
      if records[0].Ok() {
        PresentCons(records[0], rest, f);
        MillisecondsCons(records[0].ttft.value, Present(rest, f));
        CountLeCons(records[0].ttft.value * 1000.0, Milliseconds(Present(rest, f)), ms);
      } else {
        assert [] + rest == rest;
      }
    }
  }

  lemma TpotWithin(r: Record, ms: real)
    requires Streamed()(r)
    ensures r.Tpot().Some? && (r.Tpot().value * 1000.0 <= ms <==> StreamedWithin(ms)(r))
  {
    var rest, n := r.total - r.ttft.value, (r.outputTokens - 1) as real;
    DivLe(rest, n, ms / 1000.0);
    assert ms / 1000.0 * n * 1000.0 == ms * n;
  }

  lemma {:induction false} TpotCounts(records: seq<Record>, ms: real)
    ensures var kept := Present(Filter(records, (r: Record) => r.Ok()), (r: Record) => r.Tpot());
            |kept| == CountWhere(records, Streamed())
            && CountLe(Milliseconds(kept), ms) == CountWhere(records, StreamedWithin(ms))
    decreases |records|
  {
    if records != [] {
      var rest := Filter(records[1..], (r: Record) => r.Ok());
      var f := (r: Record) => r.Tpot();
      TpotCounts(records[1..], ms);
      hide Record.Tpot;
      if records[0].Ok() {
        PresentCons(records[0], rest, f);
        TpotOnlyStreamed(records[0], ms);
        if records[0].Tpot().Some? {
          MillisecondsCons(records[0].Tpot().value, Present(rest, f));
          CountLeCons(records[0].Tpot().value * 1000.0, Milliseconds(Present(rest, f)), ms);
        } else {
          assert [] + Present(rest, f) == Present(rest, f);
        }
      } else {
        assert [] + rest == rest;
      }
    }
  }

  lemma TpotOnlyStreamed(r: Record, ms: real)
    ensures r.Tpot().Some? <==> Streamed()(r)
    ensures StreamedWithin(ms)(r) ==> Streamed()(r)
    ensures r.Tpot().Some? ==> (r.Tpot().value * 1000.0 <= ms <==> StreamedWithin(ms)(r))
  {
    if Streamed()(r) { TpotWithin(r, ms); }
  }

  /** A p99 limit on a list of seconds, as the SLA check reads it. */
  lemma P99Within(samples: seq<real>, ms: real)
    ensures FromSeconds(samples).p99 <= ms <==>
              if samples == [] then 0.0 <= ms else CountLe(Milliseconds(samples), ms) >= Rank(|samples|, 0.99)
  {
    if samples != [] { PercentileAtMost(Milliseconds(samples), 0.99, ms); }
  }

  /**
   An SLA is met exactly when some request succeeded and, for each limit given, the 99th-percentile rank
   of the requests it applies to are within it: all successful ones for the first token, those of at least
   two tokens for the pace after it. With none of the latter the pace counts as zero.
   */
  lemma MeetsByCounting(b: Bench, sla: Limits)
    ensures var n, m := CountWhere(b.records, Succeeded()), CountWhere(b.records, Streamed());
            b.Meets(sla) <==>
              && n > 0
              && (sla.ttftP99.Some? ==>
                    CountWhere(b.records, StartedWithin(sla.ttftP99.value)) >= Rank(n, 0.99))
              && (sla.tpotP99.Some? ==>
                    if m == 0 then sla.tpotP99.value >= 0.0
                    else CountWhere(b.records, StreamedWithin(sla.tpotP99.value)) >= Rank(m, 0.99))
  {
    hide FromSeconds, Rank;
    OkCounts(b.records);
    if sla.ttftP99.Some? {
      TtftCounts(b.records, sla.ttftP99.value);
      P99Within(Present(b.Successful(), (r: Record) => r.ttft), sla.ttftP99.value);
    }
    if sla.tpotP99.Some? {
      TpotCounts(b.records, sla.tpotP99.value);
      P99Within(Present(b.Successful(), (r: Record) => r.Tpot()), sla.tpotP99.value);
    }
  }

  lemma {:induction false} TokensConcat(a: seq<Record>, b: seq<Record>)
    ensures TokensOf(a + b) == TokensOf(a) + TokensOf(b)
    decreases |a|
  {
    if a == [] {
      assert a + b == b;
    } else {
      assert (a + b)[1..] == a[1..] + b;
      TokensConcat(a[1..], b);
    }
  }

  /** Throughput times duration adds up the generated tokens of the successful requests, and nothing else. */
  lemma ThroughputCountsOutput(b: Bench, c: Bench, whole: Bench, r: Record)
    requires b.duration == c.duration == whole.duration > 0.0 && whole.records == b.records + c.records
    ensures whole.Throughput() == b.Throughput() + c.Throughput()
    ensures b.records == [r] ==> b.Throughput() * b.duration == (if Succeeded()(r) then r.outputTokens else 0) as real
  {
    TokensConcat(b.records, c.records);
    DivDistributes(TokensOf(b.records) as real, TokensOf(c.records) as real, b.duration);
    DivCancels(TokensOf(b.records) as real, b.duration);
    if b.records == [r] { assert b.records[1..] == []; }
  }

  // ---------------------------------------------------------------- accessors of a sweep

  /** The comprehension conditions and sort key of the accessors, as function values. */
  function HasSuccess(): Bench -> bool { (p: Bench) => p.Usable() }

  function Satisfies(sla: Limits): Bench -> bool { (p: Bench) => p.Meets(sla) }

  function ByThroughput(): Bench -> real { (p: Bench) => p.Throughput() }

  function BestThroughput(points: seq<Bench>): Option<Bench> {
    var usable := Filter(points, HasSuccess());
    if usable == [] then None else Some(FirstMax(usable, ByThroughput()))
  }

  function Knee(points: seq<Bench>, sla: Limits): Option<Bench> {
    var ok := Filter(points, Satisfies(sla));
    if ok == [] then None else Some(FirstMax(ok, ByThroughput()))
  }

  /** The reported best succeeded and no point exceeds it; there is none exactly when nothing succeeded. */
  lemma BestIsBest(points: seq<Bench>)
    ensures var best := BestThroughput(points);
            && (best.Some? ==> best.value in points && best.value.Usable())
            && (forall p :: p in points && p.Usable() ==> best.Some?)
            && forall p :: p in points ==> p.Throughput() <= if best.Some? then best.value.Throughput() else 0.0
  {
    hide Bench.Throughput, Bench.Usable;
    var usable := Filter(points, HasSuccess());
    if usable != [] {
      FilterKeeps(points, HasSuccess(), FirstMax(usable, ByThroughput()));
      ThroughputSign(FirstMax(usable, ByThroughput()));
    }
    forall p | p in points
      ensures p.Usable() ==> usable != []
      ensures p.Throughput() <= if usable != [] then FirstMax(usable, ByThroughput()).Throughput() else 0.0
    {
      FilterKeeps(points, HasSuccess(), p);
      ThroughputSign(p);
      if p.Usable() { assert ByThroughput()(p) <= ByThroughput()(FirstMax(usable, ByThroughput())); }
    }
  }

  /** The knee meets the SLA and nothing that meets it is faster; there is none exactly when nothing does. */
  lemma KneeIsBest(points: seq<Bench>, sla: Limits)
    ensures var k := Knee(points, sla);
            && (k.Some? ==> k.value in points && k.value.Meets(sla))
            && forall p :: p in points && p.Meets(sla) ==> k.Some? && p.Throughput() <= k.value.Throughput()
  {
    hide Bench.Meets, Bench.Throughput;
    var ok := Filter(points, Satisfies(sla));
    forall p | p in points && p.Meets(sla) ensures p in ok { FilterKeeps(points, Satisfies(sla), p); }
    if ok != [] {
      FilterKeeps(points, Satisfies(sla), FirstMax(ok, ByThroughput()));
      forall p | p in ok ensures p.Throughput() <= FirstMax(ok, ByThroughput()).Throughput() {
        assert ByThroughput()(p) <= ByThroughput()(FirstMax(ok, ByThroughput()));
      }
    }
  }

  function ByConcurrency(): Bench -> real { (p: Bench) => p.concurrency as real }

  /** Points in order of concurrency, as `sorted(..., key=...)` leaves them. */
  function SortPoints(s: seq<Bench>): (r: seq<Bench>)
    ensures |r| == |s|
  {
    SortBy(s, ByConcurrency())
  }

  ghost predicate Climbing(s: seq<Bench>) {
    forall i, j :: 0 <= i < j < |s| ==> s[i].concurrency <= s[j].concurrency
  }

  lemma SortingClimbing(s: seq<Bench>)
    requires Climbing(s)
    ensures SortPoints(s) == s
  {
    SortByIsStable(s, ByConcurrency());
  }

  /** The scan behind `saturation_concurrency`: the first point gaining under two percent, else the last. */
  function Scan(usable: seq<Bench>, best: real): int
    requires usable != []
  {
    var t := usable[0].Throughput();
    if t < best * 1.02 then usable[0].concurrency
    else if |usable| == 1 then usable[0].concurrency
    else Scan(usable[1..], MaxReal(best, t))
  }

  function Saturation(points: seq<Bench>): Option<int> {
    var usable := SortPoints(Filter(points, HasSuccess()));
    if |usable| < 2 then None else Some(Scan(usable, 0.0))
  }

  method SaturationConcurrency(points: seq<Bench>) returns (r: Option<int>)
    ensures r == Saturation(points)
  {
    var usable := SortPoints(Filter(points, HasSuccess()));
    if |usable| < 2 { return None; }
    var best := 0.0;
    for i := 0 to |usable|
      invariant i < |usable| ==> Scan(usable[i..], best) == Scan(usable, 0.0)
      invariant i == |usable| ==> Scan(usable, 0.0) == usable[|usable|-1].concurrency
    {
      var throughput := usable[i].Throughput();
      if throughput < best * 1.02 { return Some(usable[i].concurrency); }
      best := MaxReal(best, throughput);
      assert usable[i..][1..] == usable[i+1..];
    }
    return Some(usable[|usable|-1].concurrency);
  }
}
