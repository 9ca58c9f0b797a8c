/**
 Aggregate in-flight tokens (core/workload.py `working_set`). The generator is freshly seeded on
 every call and requests are drawn one after another, so the k-th request drawn has a size that
 depends on k alone: the workload is a stream of request sizes.
 */
module WorkingSets {
  import opened Results
  import opened Arithmetic
  import opened RealArithmetic
  import opened OrderStatistics

  type Stream = nat -> real

  ghost predicate NonNegative(draw: Stream) {
    forall k :: draw(k) >= 0.0
  }

  /** Python's `int` on a float truncates toward zero. */
  function Trunc(x: real): int {
    if x >= 0.0 then x.Floor else -((-x).Floor)
  }

  lemma TruncIsOdd(x: real)
    ensures Trunc(-x) == -Trunc(x) && (x >= 0.0 ==> Trunc(x) as real <= x < (Trunc(x) + 1) as real)
  {}

  function Window(draw: Stream, start: nat, n: nat): real {
    if n == 0 then 0.0 else Window(draw, start, n - 1) + draw(start + n - 1)
  }

  /** The i-th sample holds the i-th run of `n` consecutive requests. */
  function Totals(draw: Stream, n: nat, samples: nat): (t: seq<real>)
    ensures |t| == samples
    ensures forall i :: 0 <= i < samples ==> t[i] == Window(draw, i * n, n)
  {
    seq(samples, i requires i >= 0 => Window(draw, i * n, n))
  }

  function SumReal(s: seq<real>): real {
    if s == [] then 0.0 else SumReal(s[..|s|-1]) + s[|s|-1]
  }

  /** A token percentile of the aggregate. */
  function TokensAt(draw: Stream, n: nat, samples: nat, q: real): int
    requires samples >= 1 && 0.0 < q < 1.0
  {
    PercentileIsNearestRank(Totals(draw, n, samples), q);
    Trunc(Percentile(Totals(draw, n, samples), q).value)
  }

  datatype WorkingSet = WorkingSet(concurrency: nat, p50: int, p95: int, p99: int, mean: int, naiveP95: int)

  /** What sampling reads of a workload: its request stream, default concurrency and marginal percentiles. */
  datatype Workload = Workload(draw: Stream, target: Option<int>, inputP95: real, outputP95: real)

  /** The concurrency asked for, or the workload's own. */
  function Concurrency(w: Workload, concurrency: Option<int>): Option<int> {
    if concurrency.Some? then concurrency else w.target
  }

  function MeanTokens(sum: real, samples: nat): int
    requires samples >= 1
  {
    Trunc(sum / samples as real)
  }

  /** Every request at its marginal 95th percentile at once. */
  function NaiveTokens(w: Workload, n: nat): int { Trunc(NaiveTotal(w, n)) }

  function NaiveTotal(w: Workload, n: nat): real { n as real * (w.inputP95 + w.outputP95) }

  function WorkingSetOf(w: Workload, concurrency: Option<int>, samples: int): Result<WorkingSet> {
    var c := Concurrency(w, concurrency);
    if c.None? || c.value < 1 || samples < 1 then Err(ValueError)
    else
      var n := c.value;
      Ok(WorkingSet(n, TokensAt(w.draw, n, samples, 0.50), TokensAt(w.draw, n, samples, 0.95),
                    TokensAt(w.draw, n, samples, 0.99),
                    MeanTokens(SumReal(Totals(w.draw, n, samples)), samples), NaiveTokens(w, n)))
  }

  /** The sampling loops: one generator position shared by every sample. */
  method Sample(draw: Stream, n: nat, samples: nat) returns (totals: seq<real>, sum: real)
    ensures totals == Totals(draw, n, samples) && sum == SumReal(totals)
  {
    var next: nat := 0;
    totals, sum := [], 0.0;
    for i := 0 to samples
      invariant |totals| == i && next == i * n
      invariant forall k :: 0 <= k < i ==> totals[k] == Window(draw, k * n, n)
      invariant sum == SumReal(totals)
    {
      var total := 0.0;
      for j := 0 to n
        invariant next == i * n + j && total == Window(draw, i * n, j)
      {
        total := total + draw(next);
        next := next + 1;
      }
      Distribute(i, 1, n);
      totals := totals + [total];
      assert totals[..|totals|-1] == totals[..i];
      sum := sum + total;
    }
    assert totals == Totals(draw, n, samples);
  }

  method ComputeWorkingSet(w: Workload, concurrency: Option<int>, samples: int) returns (r: Result<WorkingSet>)
    ensures r == WorkingSetOf(w, concurrency, samples)
  {
    hide Percentile, Totals, SumReal, MeanTokens, NaiveTokens, Trunc, IsKthSmallest;
    var c := Concurrency(w, concurrency);
    if c.None? { return Err(ValueError); }
    var n := c.value;
    if n < 1 { return Err(ValueError); }
    if samples < 1 { return Err(ValueError); }
    var totals, sum := Sample(w.draw, n, samples);
    PercentileIsNearestRank(totals, 0.50);
    PercentileIsNearestRank(totals, 0.95);
    PercentileIsNearestRank(totals, 0.99);
    var p50, p95, p99 := Percentile(totals, 0.50), Percentile(totals, 0.95), Percentile(totals, 0.99);
    r := Ok(WorkingSet(n, Trunc(p50.value), Trunc(p95.value), Trunc(p99.value), MeanTokens(sum, samples),
                       NaiveTokens(w, n)));
  }

  lemma TruncMonotone(x: real, y: real)
    requires x <= y
    ensures Trunc(x) <= Trunc(y)
  {}

  lemma WorkingSetOrdered(w: Workload, concurrency: Option<int>, samples: int)
    ensures var r := WorkingSetOf(w, concurrency, samples);
            && (r.Ok? <==> samples >= 1 && ((concurrency.Some? && concurrency.value >= 1)
                                           || (concurrency == None && w.target.Some? && w.target.value >= 1)))
            && (r.Err? ==> r.error == ValueError)
            && (r.Ok? ==> r.value.p50 <= r.value.p95 <= r.value.p99)
  {
    if WorkingSetOf(w, concurrency, samples).Ok? {
      TokensOrdered(w.draw, Concurrency(w, concurrency).value, samples);
    }
  }

  lemma TokensOrdered(draw: Stream, n: nat, samples: nat)
    requires samples >= 1
    ensures TokensAt(draw, n, samples, 0.50) <= TokensAt(draw, n, samples, 0.95) <= TokensAt(draw, n, samples, 0.99)
  {
    var t := Totals(draw, n, samples);
    PercentileMonotoneInQuantile(t, 0.50, 0.95);
    PercentileMonotoneInQuantile(t, 0.95, 0.99);
    TruncMonotone(Percentile(t, 0.50).value, Percentile(t, 0.95).value);
    TruncMonotone(Percentile(t, 0.95).value, Percentile(t, 0.99).value);
  }

  /** Every sampled total grows with the concurrency. */
  ghost predicate TotalsGrow(draw: Stream, samples: nat) {
    forall i: nat, a: nat, b: nat ::
      i < samples && 1 <= a <= b ==> Window(draw, i * a, a) <= Window(draw, i * b, b)
  }

  /** Pointwise growth of the sampled totals is enough for every percentile to grow. */
  lemma TokensGrow(draw: Stream, samples: nat, a: nat, b: nat, q: real)
    requires samples >= 1 && 0.0 < q < 1.0 && 1 <= a <= b && TotalsGrow(draw, samples)
    ensures TokensAt(draw, a, samples, q) <= TokensAt(draw, b, samples, q)
  {
    var ta, tb := Totals(draw, a, samples), Totals(draw, b, samples);
    forall i | 0 <= i < samples ensures ta[i] <= tb[i] {
      assert ta[i] == Window(draw, i * a, a) && tb[i] == Window(draw, i * b, b);
    }
    PercentileMonotoneInSamples(ta, tb, q);
    TruncMonotone(Percentile(ta, q).value, Percentile(tb, q).value);
  }

  lemma {:induction false} WindowExtends(draw: Stream, start: nat, a: nat, b: nat)
    requires NonNegative(draw) && a <= b
    ensures Window(draw, start, a) <= Window(draw, start, b)
    decreases b
  {
    if a < b { WindowExtends(draw, start, a, b - 1); }
  }

  /** A single sample always starts at the stream's first request, so it can only grow. */
  lemma OneSampleGrows(draw: Stream)
    requires NonNegative(draw)
    ensures TotalsGrow(draw, 1)
  {
    forall i: nat, a: nat, b: nat | i < 1 && 1 <= a <= b
      ensures Window(draw, i * a, a) <= Window(draw, i * b, b)
    {
      assert i * a == 0 && i * b == 0;
      WindowExtends(draw, 0, a, b);
    }
  }

  lemma {:induction false} WindowBounds(draw: Stream, start: nat, n: nat, lo: real, hi: real)
    requires forall k :: start <= k < start + n ==> lo <= draw(k) <= hi
    ensures n as real * lo <= Window(draw, start, n) <= n as real * hi
    decreases n
  {
    if n > 0 {
      WindowBounds(draw, start, n - 1, lo, hi);
      var m := (n - 1) as real;
      assert n as real * lo == m * lo + lo && n as real * hi == m * hi + hi;
    }
  }

  /** Truncated tokens stay at or below a whole number exactly when the percentile is below the next. */
  lemma TokensAtMost(draw: Stream, n: nat, samples: nat, q: real, bound: nat)
    requires samples >= 1 && 0.0 < q < 1.0
    ensures TokensAt(draw, n, samples, q) <= bound
            <==> CountLt(Totals(draw, n, samples), bound as real + 1.0) >= Rank(samples, q)
  {
    PercentileBelow(Totals(draw, n, samples), q, bound as real + 1.0);
  }

  // ---------------------------------------------------------------- what the figures are

  /** A window is its requests, one after another: it starts empty, and windows that meet add up. */
  lemma {:induction false} WindowJoins(draw: Stream, start: nat, a: nat, b: nat)
    ensures Window(draw, start, 0) == 0.0 && Window(draw, start, 1) == draw(start)
    ensures Window(draw, start, a + b) == Window(draw, start, a) + Window(draw, start + a, b)
    decreases b
  {
    assert Window(draw, start, 1) == Window(draw, start, 0) + draw(start);
    if b > 0 {
      WindowJoins(draw, start, a, b - 1);
      assert start + (a + b) - 1 == start + a + b - 1;
    }
  }

  /** No request is sampled twice or skipped: the totals add up to the first `samples * n` requests. */
  lemma {:induction false} TotalsUseEveryRequest(draw: Stream, n: nat, samples: nat)
    ensures SumReal(Totals(draw, n, samples)) == Window(draw, 0, samples * n)
    decreases samples
  {
    if samples > 0 {
      TotalsUseEveryRequest(draw, n, samples - 1);
      var t := Totals(draw, n, samples);
      assert t[..samples - 1] == Totals(draw, n, samples - 1);
      Distribute(samples - 1, 1, n);
      WindowJoins(draw, 0, (samples - 1) * n, n);
    }
  }

  /** How many sampled totals come to at most `bound` whole tokens. */
  ghost function CountWithin(draw: Stream, n: nat, samples: nat, bound: nat): nat {
    CountLt(Totals(draw, n, samples), bound as real + 1.0)
  }

  /** An integer is a percentile of the totals, truncated, when it bounds rank-many of them and nothing less does. */
  ghost predicate IsTokenPercentile(draw: Stream, n: nat, samples: nat, q: real, tokens: int)
    requires samples >= 1 && 0.0 < q < 1.0
  {
    forall bound: nat :: tokens <= bound <==> CountWithin(draw, n, samples, bound) >= Rank(samples, q)
  }

  /**
   Every figure of a working set: the 50th, 95th and 99th percentiles by counting, the mean of the sampled
   requests, and both marginal 95th percentiles for every sequence at once.
   */
  lemma WorkingSetExactly(w: Workload, concurrency: Option<int>, samples: int)
    requires WorkingSetOf(w, concurrency, samples).Ok? && NonNegative(w.draw) && w.inputP95 >= 0.0 && w.outputP95 >= 0.0
    ensures var ws := WorkingSetOf(w, concurrency, samples).value;
            var n := ws.concurrency;
            && Some(n) == (if concurrency.Some? then concurrency else w.target)
            && n >= 1 && samples >= 1
            && IsTokenPercentile(w.draw, n, samples, 0.50, ws.p50)
            && IsTokenPercentile(w.draw, n, samples, 0.95, ws.p95)
            && IsTokenPercentile(w.draw, n, samples, 0.99, ws.p99)
            && IsFloorMean(ws.mean, Window(w.draw, 0, samples * n), samples)
            && IsFloorOf(ws.naiveP95, NaiveTotal(w, n))
  {
    hide TokensAt, Totals, SumReal, Window, MeanTokens, NaiveTokens, NaiveTotal, IsTokenPercentile, IsFloorMean, IsFloorOf;
    var n: nat := Concurrency(w, concurrency).value;
    PercentilesAre(w.draw, n, samples, 0.50);
    PercentilesAre(w.draw, n, samples, 0.95);
    PercentilesAre(w.draw, n, samples, 0.99);
    TotalsUseEveryRequest(w.draw, n, samples);
    WindowSign(w.draw, 0, samples * n);
    MeanIs(Window(w.draw, 0, samples * n), samples);
    NaiveIs(w, n);
  }

  ghost predicate IsFloorMean(m: int, sum: real, samples: nat) {
    m as real * samples as real <= sum < (m + 1) as real * samples as real
  }

  ghost predicate IsFloorOf(m: int, x: real) { m as real <= x < (m + 1) as real }

  lemma PercentilesAre(draw: Stream, n: nat, samples: nat, q: real)
    requires samples >= 1 && 0.0 < q < 1.0
    ensures IsTokenPercentile(draw, n, samples, q, TokensAt(draw, n, samples, q))
  {
    forall bound: nat
      ensures TokensAt(draw, n, samples, q) <= bound <==> CountWithin(draw, n, samples, bound) >= Rank(samples, q)
    {
      TokensAtMost(draw, n, samples, q, bound);
    }
  }

  lemma WindowSign(draw: Stream, start: nat, n: nat)
    requires NonNegative(draw)
    ensures Window(draw, start, n) >= 0.0
  {
    WindowExtends(draw, start, 0, n);
  }

  lemma MeanIs(sum: real, samples: nat)
    requires sum >= 0.0 && samples >= 1
    ensures IsFloorMean(MeanTokens(sum, samples), sum, samples)
  {
    var m := MeanTokens(sum, samples);
    DivNonNegative(sum, samples as real);
    DivLe(sum, samples as real, m as real);
    DivLe(sum, samples as real, (m + 1) as real);
  }

  lemma NaiveIs(w: Workload, n: nat)
    requires w.inputP95 >= 0.0 && w.outputP95 >= 0.0
    ensures IsFloorOf(NaiveTokens(w, n), NaiveTotal(w, n))
  {
    MulNonNegative(n as real, w.inputP95 + w.outputP95);
    assert NaiveTotal(w, n) >= 0.0;
    hide NaiveTotal;
    TruncIsOdd(NaiveTotal(w, n));
  }

  /** The naive total holds every sequence at both marginal percentiles. */
  lemma NaiveAddsUp(w: Workload, n: nat)
    ensures NaiveTotal(w, 0) == 0.0 && NaiveTotal(w, n + 1) == NaiveTotal(w, n) + w.inputP95 + w.outputP95
  {
    Expand(n as real, 1.0, w.inputP95 + w.outputP95);
    assert (n + 1) as real == n as real + 1.0;
  }
}
