/**
 Headroom: the largest concurrency whose charged cache fits a byte budget
 (estimator/memory.py `max_concurrency_for_budget`), and what that answer is worth.
 */
module CacheCapacity {
  import opened Results
  import opened Arithmetic
  import opened DTypes
  import opened CacheSpecs
  import opened OrderStatistics
  import opened WorkingSets
  import H = Headroom

  /** Which sampled percentile a requested quantile selects. */
  function EffectiveQuantile(q: real): real {
    if q >= 0.99 then 0.99 else if q >= 0.95 then 0.95 else 0.50
  }

  /** One evaluation of the closure `fits`: fixed state per sequence plus paged tokens. */
  predicate Fits(draw: Stream, samples: nat, quantile: real, perSequence: nat, perToken: nat, budget: int, c: nat)
    requires samples >= 1
  {
    c * perSequence + TokensAt(draw, c, samples, EffectiveQuantile(quantile)) * perToken <= budget
  }

  function FitsFor(draw: Stream, samples: nat, quantile: real, perSequence: nat, perToken: nat, budget: int)
    : nat -> bool
    requires samples >= 1
  {
    (c: nat) => Fits(draw, samples, quantile, perSequence, perToken, budget, c)
  }

  function Headroom(spec: CacheSpec, draw: Stream, budget: int, dtype: DType, tp: nat,
                    quantile: real, ceiling: int, samples: int): Result<nat>
    requires Valid(spec) && tp >= 1
  {
    if budget < 0 then Err(ValueError)
    else if budget == 0 then Ok(0)
    else if samples < 1 then Err(ValueError)
    else Ok(H.Search(FitsFor(draw, samples, quantile, FixedBytes(spec, dtype, tp),
                             PerToken(spec, dtype, tp), budget), ceiling))
  }

  /**
   What one evaluation means, by counting samples: the fixed state of every sequence, and the token price of
   each of the whole tokens in flight at the percentile asked for, fit the budget. Quantiles from 0.95 up
   read the 95th percentile, from 0.99 up the 99th, and all others the median.
   */
  lemma FitsByCounting(draw: Stream, samples: nat, quantile: real, perSequence: nat, perToken: nat, budget: int, c: nat)
    requires samples >= 1 && perToken >= 1 && c * perSequence <= budget
    ensures var q := if quantile < 0.95 then 0.50 else if quantile < 0.99 then 0.95 else 0.99;
            var room := (budget - c * perSequence) / perToken;
            Fits(draw, samples, quantile, perSequence, perToken, budget, c)
            <==> CountLt(Totals(draw, c, samples), room as real + 1.0) >= Rank(samples, q)
  {
    var q := EffectiveQuantile(quantile);
    FloorDivGalois(TokensAt(draw, c, samples, q), budget - c * perSequence, perToken);
    FloorDivGalois(0, budget - c * perSequence, perToken);
    TokensAtMost(draw, c, samples, q, (budget - c * perSequence) / perToken);
  }

  /** The errors and the early answer of a headroom query. */
  lemma HeadroomAnswers(spec: CacheSpec, draw: Stream, budget: int, dtype: DType, tp: nat,
                        quantile: real, ceiling: int, samples: int)
    requires Valid(spec) && tp >= 1
    ensures var h := Headroom(spec, draw, budget, dtype, tp, quantile, ceiling, samples);
            && (h.Err? <==> budget < 0 || (budget > 0 && samples < 1)) && (h.Err? ==> h.error == ValueError)
            && (budget == 0 ==> h == Ok(0))
  {}

  const DEFAULT_CEILING := 4096

  lemma DefaultCeilingIsPowerOfTwo()
    ensures H.IsPowerOfTwo(DEFAULT_CEILING)
  {
    assert H.Pow2(4) == 16;
    assert H.Pow2(8) == 256;
    assert H.Pow2(12) == 4096;
  }

  // ---------------------------------------------------------------- is the predicate monotone?

  lemma FitsIsDownClosed(draw: Stream, samples: nat, quantile: real, perSequence: nat, perToken: nat, budget: int,
                         ceiling: int)
    requires samples >= 1 && TotalsGrow(draw, samples)
    ensures H.DownClosed(FitsFor(draw, samples, quantile, perSequence, perToken, budget), ceiling)
  {
    var fits := FitsFor(draw, samples, quantile, perSequence, perToken, budget);
    forall a: nat, b: nat | 1 <= a <= b <= ceiling && fits(b) ensures fits(a) {
      var q := EffectiveQuantile(quantile);
      TokensGrow(draw, samples, a, b, q);
      MulMonotone(a, b, perSequence, perSequence);
      ScaleTokens(TokensAt(draw, a, samples, q), TokensAt(draw, b, samples, q), perToken);
    }
  }

  lemma ScaleTokens(t: int, t': int, p: nat)
    requires t <= t'
    ensures t * p <= t' * p
  {}

  /** How many samples must be large for a percentile to be large. */
  function TailCount(samples: nat, q: real): (m: nat)
    requires samples >= 1 && 0.0 < q < 1.0
    ensures 1 <= m <= samples && m == samples - Rank(samples, q) + 1
  {
    samples - Rank(samples, q) + 1
  }

  /** `size` tokens for each of the first `m` requests. */
  function EarlyStream(m: nat, size: nat): Stream { k => if k < m then size as real else 0.0 }

  /** One at a time the large requests fill `m` windows; two at a time they fill about half as many. */
  lemma EarlyFallsAtTwo(samples: nat, q: real, size: nat)
    requires samples >= 1 && 0.0 < q < 1.0 && size >= 1 && TailCount(samples, q) >= 2
    ensures var draw := EarlyStream(TailCount(samples, q), size);
            TokensAt(draw, 1, samples, q) >= size && TokensAt(draw, 2, samples, q) <= 0
  {
    var m := TailCount(samples, q);
    var draw := EarlyStream(m, size);
    var one, two := Totals(draw, 1, samples), Totals(draw, 2, samples);
    forall i | 0 <= i < m ensures one[i] >= size as real { assert one[i] == Window(draw, i, 0) + draw(i); }
    forall i | m - 1 <= i < samples ensures two[i] < 1.0 {
      assert two[i] == Window(draw, i * 2, 1) + draw(i * 2 + 1);
      assert Window(draw, i * 2, 1) == Window(draw, i * 2, 0) + draw(i * 2);
    }
    CountLtAround(one, 0, m, size as real);
    CountLtAround(two, 0, m - 1, 1.0);
    TokensAtMost(draw, 1, samples, q, size - 1);
    TokensAtMost(draw, 2, samples, q, 0);
  }

  /** `size` tokens for the third and fourth requests, together at concurrency two and apart at one and three. */
  function PairStream(size: nat): Stream { k => if 2 <= k < 4 then size as real else 0.0 }

  lemma PairAloneAtOneAndThree(size: nat, i: nat)
    ensures Window(PairStream(size), i, 1) <= size as real
    ensures Window(PairStream(size), i * 3, 3) <= size as real
  {
    var draw := PairStream(size);
    assert Window(draw, i, 1) == Window(draw, i, 0) + draw(i);
    assert Window(draw, i * 3, 1) == Window(draw, i * 3, 0) + draw(i * 3);
    assert Window(draw, i * 3, 2) == Window(draw, i * 3, 1) + draw(i * 3 + 1);
    assert Window(draw, i * 3, 3) == Window(draw, i * 3, 2) + draw(i * 3 + 2);
  }

  lemma PairTogetherAtTwo(size: nat)
    ensures Window(PairStream(size), 2, 2) >= (2 * size) as real
  {
    var draw := PairStream(size);
    assert Window(draw, 2, 1) == Window(draw, 2, 0) + draw(2);
    assert Window(draw, 2, 2) == Window(draw, 2, 1) + draw(3);
  }

  lemma PairPeaksAtTwo(samples: nat, q: real, size: nat)
    requires samples >= 2 && 0.0 < q < 1.0 && size >= 1 && TailCount(samples, q) == 1
    ensures var draw := PairStream(size);
            && TokensAt(draw, 1, samples, q) <= size
            && TokensAt(draw, 2, samples, q) >= 2 * size
            && TokensAt(draw, 3, samples, q) <= size
  {
    hide PairStream, Window;
    var draw := PairStream(size);
    var one, two, three := Totals(draw, 1, samples), Totals(draw, 2, samples), Totals(draw, 3, samples);
    forall i | 0 <= i < samples ensures one[i] < size as real + 1.0 && three[i] < size as real + 1.0 {
      PairAloneAtOneAndThree(size, i);
    }
    PairTogetherAtTwo(size);
    CountLtAll(one, size as real + 1.0);
    CountLtAll(three, size as real + 1.0);
    CountLtAround(two, 1, 2, (2 * size) as real);
    TokensAtMost(draw, 1, samples, q, size);
    TokensAtMost(draw, 2, samples, q, 2 * size - 1);
    TokensAtMost(draw, 3, samples, q, size);
  }

  /** When the percentile is the maximum, pairing requests up cannot lower it. */
  lemma MaximumGrowsToTwo(draw: Stream, samples: nat, q: real)
    requires samples >= 1 && 0.0 < q < 1.0 && NonNegative(draw) && TailCount(samples, q) == 1
    ensures TokensAt(draw, 1, samples, q) <= TokensAt(draw, 2, samples, q)
  {
    var one, two := Totals(draw, 1, samples), Totals(draw, 2, samples);
    PercentileIsNearestRank(one, q);
    PercentileIsNearestRank(two, q);
    var p, p' := Percentile(one, q).value, Percentile(two, q).value;
    var k: nat :| k < samples && one[k] == p;
    PairHoldsEach(draw, k);
    hide Window;
    assert two[k / 2] == Window(draw, k / 2 * 2, 2);
    CountLeAllBelow(two, p', k / 2);
    TruncMonotone(p, p');
  }

  lemma PairHoldsEach(draw: Stream, k: nat)
    requires NonNegative(draw)
    ensures Window(draw, k * 1, 1) <= Window(draw, k / 2 * 2, 2)
  {
    var h := k / 2 * 2;
    assert Window(draw, k, 1) == Window(draw, k, 0) + draw(k);
    assert Window(draw, h, 1) == Window(draw, h, 0) + draw(h);
    assert Window(draw, h, 2) == Window(draw, h, 1) + draw(h + 1);
  }

  function ZeroStream(): Stream { k => 0.0 }

  lemma {:induction false} ZeroWindow(draw: Stream, start: nat, n: nat)
    requires forall k :: start <= k < start + n ==> draw(k) == 0.0
    ensures Window(draw, start, n) == 0.0
    decreases n
  {
    if n > 0 { ZeroWindow(draw, start, n - 1); }
  }

  lemma ZeroTokens(n: nat, samples: nat, q: real)
    requires samples >= 1 && 0.0 < q < 1.0
    ensures TokensAt(ZeroStream(), n, samples, q) == 0
  {
    var t := Totals(ZeroStream(), n, samples);
    forall i | 0 <= i < samples ensures t[i] == 0.0 { ZeroWindow(ZeroStream(), i * n, n); }
    PercentileIsNearestRank(t, q);
    assert Percentile(t, q).value in t;
  }

  lemma TokensNonNegative(draw: Stream, n: nat, samples: nat, q: real)
    requires samples >= 1 && 0.0 < q < 1.0 && NonNegative(draw)
    ensures TokensAt(draw, n, samples, q) >= 0
  {
    var t := Totals(draw, n, samples);
    forall i | 0 <= i < samples ensures t[i] >= 0.0 { WindowExtends(draw, i * n, 0, n); }
    PercentileIsNearestRank(t, q);
    assert Percentile(t, q).value in t;
  }

  /** "Largest concurrency that fits", for one cache, workload and budget. */
  ghost predicate HeadroomIsLargest(spec: CacheSpec, dtype: DType, tp: nat, draw: Stream, samples: nat,
                                    quantile: real, ceiling: int, budget: int)
    requires Valid(spec) && tp >= 1 && samples >= 1
  {
    var h := Headroom(spec, draw, budget, dtype, tp, quantile, ceiling, samples);
    h.Ok? && H.IsLargestFitting(h.value, FitsFor(draw, samples, quantile, FixedBytes(spec, dtype, tp),
                                                 PerToken(spec, dtype, tp), budget), ceiling)
  }

  /** A percentile short of the maximum can rise at one and fall at two, so the search gives up at once. */
  lemma EarlyMisleads(samples: nat, quantile: real, ceiling: int, perSequence: nat, perToken: nat)
    requires samples >= 1 && TailCount(samples, EffectiveQuantile(quantile)) >= 2 && ceiling >= 2 && perToken >= 1
    ensures var draw := EarlyStream(TailCount(samples, EffectiveQuantile(quantile)), perSequence + 2);
            var fits := FitsFor(draw, samples, quantile, perSequence, perToken, 2 * perSequence + 1);
            NonNegative(draw) && !H.IsLargestFitting(H.Search(fits, ceiling), fits, ceiling)
  {
    var q, size := EffectiveQuantile(quantile), perSequence + 2;
    var draw := EarlyStream(TailCount(samples, q), size);
    var fits := FitsFor(draw, samples, quantile, perSequence, perToken, 2 * perSequence + 1);
    EarlyFallsAtTwo(samples, q, size);
    hide TokensAt;
    ScaleTokens(size, TokensAt(draw, 1, samples, q), perToken);
    ScaleTokens(TokensAt(draw, 2, samples, q), 0, perToken);
    MulMonotone(size, size, 1, perToken);
    assert !fits(1) && fits(2);
  }

  /** The maximum of several samples can fit at one and three but not at two, where the search stops. */
  lemma PairMisleads(samples: nat, quantile: real, ceiling: int, perSequence: nat, perToken: nat)
    requires samples >= 2 && TailCount(samples, EffectiveQuantile(quantile)) == 1 && ceiling >= 3 && perToken >= 1
    ensures var draw, budget := PairStream(perSequence + 1), 3 * perSequence + (perSequence + 1) * perToken;
            var fits := FitsFor(draw, samples, quantile, perSequence, perToken, budget);
            NonNegative(draw) && budget > 0 && !H.IsLargestFitting(H.Search(fits, ceiling), fits, ceiling)
  {
    var q, size := EffectiveQuantile(quantile), perSequence + 1;
    var draw, budget := PairStream(size), 3 * perSequence + size * perToken;
    var fits := FitsFor(draw, samples, quantile, perSequence, perToken, budget);
    assert NonNegative(draw);
    PairPeaksAtTwo(samples, q, size);
    hide TokensAt, PairStream, H.Search, H.IsLargestFitting;
    PairBudget(perSequence, perToken, TokensAt(draw, 1, samples, q), TokensAt(draw, 2, samples, q),
               TokensAt(draw, 3, samples, q));
    MissesThree(fits, ceiling);
  }

  lemma PairBudget(perSequence: nat, perToken: nat, t1: int, t2: int, t3: int)
    requires perToken >= 1
    requires t1 <= perSequence + 1 && t2 >= 2 * (perSequence + 1) && t3 <= perSequence + 1
    ensures var budget := 3 * perSequence + (perSequence + 1) * perToken;
            && budget > 0
            && 1 * perSequence + t1 * perToken <= budget
            && 2 * perSequence + t2 * perToken > budget
            && 3 * perSequence + t3 * perToken <= budget
  {
    var size := perSequence + 1;
    ScaleTokens(t1, size, perToken);
    ScaleTokens(2 * size, t2, perToken);
    ScaleTokens(t3, size, perToken);
    Distribute(size, size, perToken);
    MulMonotone(size, size, 1, perToken);
  }

  lemma MissesThree(fits: nat -> bool, ceiling: int)
    requires fits(1) && !fits(2) && fits(3) && ceiling >= 3
    ensures !H.IsLargestFitting(H.Search(fits, ceiling), fits, ceiling)
  {
    assert H.Gallop(fits, 1, 2, ceiling) == (1, 2);
    assert H.Search(fits, ceiling) == 1;
  }

  /** One sample: the totals grow, so only the ceiling matters; and an empty workload shows that it does. */
  lemma OneSampleIsLargest(draw: Stream, quantile: real, ceiling: int, perSequence: nat, perToken: nat, budget: int)
    requires NonNegative(draw) && H.IsPowerOfTwo(ceiling) && ceiling >= 1
    ensures var fits := FitsFor(draw, 1, quantile, perSequence, perToken, budget);
            H.IsLargestFitting(H.Search(fits, ceiling), fits, ceiling)
  {
    OneSampleGrows(draw);
    FitsIsDownClosed(draw, 1, quantile, perSequence, perToken, budget, ceiling);
    H.SearchIsLargestExactly(FitsFor(draw, 1, quantile, perSequence, perToken, budget), ceiling);
  }

  lemma OddCeilingMisleads(samples: nat, quantile: real, ceiling: int, perSequence: nat, perToken: nat)
    requires samples >= 1 && (ceiling < 1 || !H.IsPowerOfTwo(ceiling))
    ensures var fits := FitsFor(ZeroStream(), samples, quantile, perSequence, perToken,
                                1 + perSequence * Max(1, ceiling));
            !H.IsLargestFitting(H.Search(fits, ceiling), fits, ceiling)
  {
    var q := EffectiveQuantile(quantile);
    var fits := FitsFor(ZeroStream(), samples, quantile, perSequence, perToken, 1 + perSequence * Max(1, ceiling));
    forall c: nat | 1 <= c <= Max(1, ceiling) ensures fits(c) {
      ZeroTokens(c, samples, q);
      MulMonotone(c, Max(1, ceiling), perSequence, perSequence);
    }
    if ceiling >= 1 {
      H.SearchIsLargestExactly(fits, ceiling);
    } else {
      H.SearchIgnoresEmptyCeiling(fits, ceiling);
    }
  }

  /** Up to a ceiling of two the search looks at everything, unless one is refused and two is not. */
  lemma SmallCeilingIsExhaustive(fits: nat -> bool, ceiling: int)
    requires 1 <= ceiling <= 2 && (ceiling == 2 && fits(2) ==> fits(1))
    ensures H.IsLargestFitting(H.Search(fits, ceiling), fits, ceiling)
  {
    if fits(1) {
      assert H.Gallop(fits, 1, 2, ceiling) == if ceiling == 2 && fits(2) then (2, 4) else (1, 2);
    }
  }

  /** "Largest concurrency that fits", over every workload and budget. */
  ghost predicate AlwaysLargest(spec: CacheSpec, dtype: DType, tp: nat, samples: nat, quantile: real, ceiling: int)
    requires Valid(spec) && tp >= 1 && samples >= 1
  {
    forall draw: Stream, budget: int :: NonNegative(draw) && budget > 0 ==>
      HeadroomIsLargest(spec, dtype, tp, draw, samples, quantile, ceiling, budget)
  }

  /** Where the promise is safe: nothing to search, the maximum of a pair, or one sample and a power of two. */
  ghost predicate SearchIsSound(samples: nat, quantile: real, ceiling: int)
    requires samples >= 1
  {
    || ceiling == 1
    || (ceiling == 2 && TailCount(samples, EffectiveQuantile(quantile)) == 1)
    || (samples == 1 && H.IsPowerOfTwo(ceiling))
  }

  /**
   For every cache, type and rank count, "the largest concurrency that fits" holds over all workloads
   and budgets exactly for a sound search. With the default ceiling of 4096 that means a single
   sample: with two or more, raising the concurrency regroups the stream and the tail can fall.
   */
  lemma HeadroomIsLargestExactly(spec: CacheSpec, dtype: DType, tp: nat, samples: nat, quantile: real, ceiling: int)
    requires Valid(spec) && tp >= 1 && samples >= 1
    ensures AlwaysLargest(spec, dtype, tp, samples, quantile, ceiling) <==> SearchIsSound(samples, quantile, ceiling)
  {
    if SearchIsSound(samples, quantile, ceiling) {
      forall draw: Stream, budget: int | NonNegative(draw) && budget > 0
        ensures HeadroomIsLargest(spec, dtype, tp, draw, samples, quantile, ceiling, budget)
      {
        SoundSearchIsLargest(spec, dtype, tp, draw, samples, quantile, ceiling, budget);
      }
    } else {
      UnsoundSearchMisleads(spec, dtype, tp, samples, quantile, ceiling);
    }
  }

  /** With bytes to spend, what the promise says is what the search finds. */
  lemma HeadroomSearches(spec: CacheSpec, dtype: DType, tp: nat, draw: Stream, samples: nat, quantile: real,
                         ceiling: int, budget: int)
    requires Valid(spec) && tp >= 1 && samples >= 1 && budget > 0
    ensures var fits := FitsFor(draw, samples, quantile, FixedBytes(spec, dtype, tp), PerToken(spec, dtype, tp), budget);
            HeadroomIsLargest(spec, dtype, tp, draw, samples, quantile, ceiling, budget)
            <==> H.IsLargestFitting(H.Search(fits, ceiling), fits, ceiling)
  {
    hide FixedBytes, PerToken, FitsFor, H.Search, H.IsLargestFitting;
  }

  lemma SoundSearchIsLargest(spec: CacheSpec, dtype: DType, tp: nat, draw: Stream, samples: nat, quantile: real,
                             ceiling: int, budget: int)
    requires Valid(spec) && tp >= 1 && samples >= 1 && SearchIsSound(samples, quantile, ceiling)
    requires NonNegative(draw) && budget > 0
    ensures HeadroomIsLargest(spec, dtype, tp, draw, samples, quantile, ceiling, budget)
  {
    hide FixedBytes, PerToken, HeadroomIsLargest, H.Search, H.IsLargestFitting, FitsFor;
    var f, p := FixedBytes(spec, dtype, tp), PerToken(spec, dtype, tp);
    HeadroomSearches(spec, dtype, tp, draw, samples, quantile, ceiling, budget);
    if samples == 1 && H.IsPowerOfTwo(ceiling) {
      OneSampleIsLargest(draw, quantile, ceiling, f, p, budget);
    } else {
      if ceiling == 2 { TwoImpliesOne(draw, samples, quantile, f, p, budget); }
      SmallCeilingIsExhaustive(FitsFor(draw, samples, quantile, f, p, budget), ceiling);
    }
  }

  lemma TwoImpliesOne(draw: Stream, samples: nat, quantile: real, perSequence: nat, perToken: nat, budget: int)
    requires samples >= 1 && NonNegative(draw) && TailCount(samples, EffectiveQuantile(quantile)) == 1
    ensures var fits := FitsFor(draw, samples, quantile, perSequence, perToken, budget); fits(2) ==> fits(1)
  {
    hide TokensAt;
    var q := EffectiveQuantile(quantile);
    MaximumGrowsToTwo(draw, samples, q);
    ScaleTokens(TokensAt(draw, 1, samples, q), TokensAt(draw, 2, samples, q), perToken);
  }

  lemma UnsoundSearchMisleads(spec: CacheSpec, dtype: DType, tp: nat, samples: nat, quantile: real, ceiling: int)
    requires Valid(spec) && tp >= 1 && samples >= 1 && !SearchIsSound(samples, quantile, ceiling)
    ensures !AlwaysLargest(spec, dtype, tp, samples, quantile, ceiling)
  {
    hide FixedBytes, PerToken, HeadroomIsLargest, H.Search, H.IsLargestFitting, FitsFor;
    var f, p := FixedBytes(spec, dtype, tp), PerToken(spec, dtype, tp);
    var m := TailCount(samples, EffectiveQuantile(quantile));
    if ceiling >= 2 && m >= 2 {
      EarlyMisleads(samples, quantile, ceiling, f, p);
      HeadroomSearches(spec, dtype, tp, EarlyStream(m, f + 2), samples, quantile, ceiling, 2 * f + 1);
    } else if ceiling >= 3 && samples >= 2 {
      PairMisleads(samples, quantile, ceiling, f, p);
      HeadroomSearches(spec, dtype, tp, PairStream(f + 1), samples, quantile, ceiling, 3 * f + (f + 1) * p);
    } else {
      OddCeilingMisleads(samples, quantile, ceiling, f, p);
      MulMonotone(0, f, 0, Max(1, ceiling));
      HeadroomSearches(spec, dtype, tp, ZeroStream(), samples, quantile, ceiling, 1 + f * Max(1, ceiling));
    }
  }

  /** The default ceiling of 4096: sound for one sample only. */
  lemma DefaultSearchIsSoundExactly(samples: nat, quantile: real)
    requires samples >= 1
    ensures SearchIsSound(samples, quantile, DEFAULT_CEILING) <==> samples == 1
  {
    DefaultCeilingIsPowerOfTwo();
  }

  /** An empty budget is answered without looking: largest exactly when no concurrency costs nothing. */
  lemma EmptyBudgetIsLargestExactly(spec: CacheSpec, dtype: DType, tp: nat, draw: Stream, samples: nat,
                                    quantile: real, ceiling: int)
    requires Valid(spec) && tp >= 1 && samples >= 1 && NonNegative(draw)
    ensures HeadroomIsLargest(spec, dtype, tp, draw, samples, quantile, ceiling, 0)
            <==> FixedBytes(spec, dtype, tp) > 0
                 || forall c: nat :: 1 <= c <= ceiling ==> TokensAt(draw, c, samples, EffectiveQuantile(quantile)) > 0
  {
    var f, p, q := FixedBytes(spec, dtype, tp), PerToken(spec, dtype, tp), EffectiveQuantile(quantile);
    hide FixedBytes, PerToken, TokensAt, EffectiveQuantile;
    var fits := FitsFor(draw, samples, quantile, f, p, 0);
    forall c: nat | 1 <= c <= ceiling ensures fits(c) <==> f == 0 && TokensAt(draw, c, samples, q) == 0 {
      TokensNonNegative(draw, c, samples, q);
      NothingIsFree(c, f, TokensAt(draw, c, samples, q), p);
    }
  }

  lemma NothingIsFree(c: nat, f: nat, tokens: nat, p: nat)
    requires c >= 1 && p >= 1
    ensures c * f + tokens * p <= 0 <==> f == 0 && tokens == 0
  {
    MulMonotone(1, c, f, f);
    MulMonotone(tokens, tokens, 1, p);
  }

  // ---------------------------------------------------------------- does a fitting answer fit?

  /** The reported concurrency really fits: any in-flight lengths within the p95 total stay in budget. */
  ghost predicate HeadroomIsSafe(spec: CacheSpec, dtype: DType, tp: nat, draw: Stream, samples: nat,
                                 budget: int, lens: seq<nat>)
    requires Valid(spec) && tp >= 1 && samples >= 1
  {
    var h := Headroom(spec, draw, budget, dtype, tp, 0.95, DEFAULT_CEILING, samples);
    h.Ok? && 1 <= h.value == |lens| && Sum(lens) <= TokensAt(draw, h.value, samples, 0.95)
    ==> Footprint(spec, lens, dtype, tp) <= budget
  }

  lemma CoveredHeadroomIsSafe(spec: CacheSpec, dtype: DType, tp: nat, draw: Stream, samples: nat,
                              budget: int, lens: seq<nat>)
    requires Valid(spec) && tp >= 1 && samples >= 1 && FirstTokenCovered(spec, dtype, tp)
    ensures HeadroomIsSafe(spec, dtype, tp, draw, samples, budget, lens)
  {
    hide FirstTokenCovered;
    var h := Headroom(spec, draw, budget, dtype, tp, 0.95, DEFAULT_CEILING, samples);
    if h.Ok? && 1 <= h.value == |lens| && Sum(lens) <= TokensAt(draw, h.value, samples, 0.95) {
      var f, p := FixedBytes(spec, dtype, tp), PerToken(spec, dtype, tp);
      H.SearchIsLocallyMaximal(FitsFor(draw, samples, 0.95, f, p, budget), DEFAULT_CEILING);
      CoveredChargeCovers(spec, lens, dtype, tp);
      ScaleTokens(Sum(lens), TokensAt(draw, h.value, samples, 0.95), p);
    }
  }

  function UnitStream(): Stream { k => 1.0 }

  lemma UnitTokens(n: nat, samples: nat)
    requires samples >= 1
    ensures TokensAt(UnitStream(), n, samples, 0.95) == n
  {
    var t := Totals(UnitStream(), n, samples);
    forall i | 0 <= i < samples ensures t[i] == n as real {
      WindowBounds(UnitStream(), i * n, n, 1.0, 1.0);
    }
    PercentileIsNearestRank(t, 0.95);
    assert Percentile(t, 0.95).value in t;
  }

  /**
   The reported headroom is safe for every workload and budget exactly when the price of a token covers a
   first token, so for whole-byte types exactly when no layer slides a window; otherwise the cache of even
   a single one-token request can exceed the budget it was said to fit.
   */
  lemma HeadroomIsSafeExactly(spec: CacheSpec, dtype: DType, tp: nat, samples: nat)
    requires Valid(spec) && tp >= 1 && samples >= 1
    ensures (forall draw: Stream, budget: int, lens: seq<nat> ::
               HeadroomIsSafe(spec, dtype, tp, draw, samples, budget, lens))
            <==> FirstTokenCovered(spec, dtype, tp)
    ensures !dtype.IsSubByte() ==> (FirstTokenCovered(spec, dtype, tp) <==> Caps(spec, dtype, tp) == [])
  {
    FirstTokenCoveredExactly(spec, dtype, tp);
    if FirstTokenCovered(spec, dtype, tp) {
      forall draw: Stream, budget: int, lens: seq<nat>
        ensures HeadroomIsSafe(spec, dtype, tp, draw, samples, budget, lens)
      {
        CoveredHeadroomIsSafe(spec, dtype, tp, draw, samples, budget, lens);
      }
    } else {
      UncoveredHeadroomUnsafe(spec, dtype, tp, samples);
    }
  }

  lemma UncoveredHeadroomUnsafe(spec: CacheSpec, dtype: DType, tp: nat, samples: nat)
    requires Valid(spec) && tp >= 1 && samples >= 1 && !FirstTokenCovered(spec, dtype, tp)
    ensures var budget := Charge(spec, 1, 1, dtype, tp);
            !HeadroomIsSafe(spec, dtype, tp, UnitStream(), samples, budget, [1])
  {
    OneTokenFootprint(spec, dtype, tp);
    var f, p := FixedBytes(spec, dtype, tp), PerToken(spec, dtype, tp);
    var budget := Charge(spec, 1, 1, dtype, tp);
    var fits := FitsFor(UnitStream(), samples, 0.95, f, p, budget);
    UnitTokens(1, samples);
    UnitTokens(2, samples);
    hide TokensAt, Footprint, Charge;
    assert fits(1) && !fits(2);
    assert H.Gallop(fits, 1, 2, DEFAULT_CEILING) == (1, 2);
    assert H.Search(fits, DEFAULT_CEILING) == 1;
    assert Headroom(spec, UnitStream(), budget, dtype, tp, 0.95, DEFAULT_CEILING, samples) == Ok(1);
  }
}
