/**
 Galloping and bisection for the largest feasible concurrency
 (estimator/memory.py `max_concurrency_for_budget`), over any predicate.
 */
module Headroom {
  import opened Arithmetic

  function Pow2(j: nat): (p: nat)
    ensures p >= 1
  {
    if j == 0 then 1 else 2 * Pow2(j - 1)
  }

  ghost predicate IsPowerOfTwo(n: int) {
    exists j: nat :: Pow2(j) == n
  }

  function Log2(n: int): nat {
    if n < 2 then 0 else 1 + Log2(n / 2)
  }

  /** The doubling loop: double `high` while it stays in range and fits. */
  function Gallop(fits: nat -> bool, low: nat, high: nat, ceiling: int): (nat, nat)
    requires 1 <= high
    decreases ceiling - high
  {
    if high <= ceiling && fits(high) then Gallop(fits, high, high * 2, ceiling) else (low, high)
  }

  /** The bisection loop, with `low` known to fit. */
  function Bisect(fits: nat -> bool, low: nat, high: int): nat
    decreases high - low
  {
    if low + 1 < high then
      var mid := (low + high) / 2;
      if fits(mid) then Bisect(fits, mid, high) else Bisect(fits, low, mid)
    else low
  }

  function Search(fits: nat -> bool, ceiling: int): nat {
    if !fits(1) then 0
    else
      var (low, high) := Gallop(fits, 1, 2, ceiling);
      Bisect(fits, low, Min(high, ceiling))
  }

  /** The loops themselves, counting how often the Monte-Carlo predicate is evaluated. */
  method MaxConcurrency(fits: nat -> bool, ceiling: int) returns (h: nat, ghost evaluations: nat)
    ensures h == Search(fits, ceiling)
    ensures evaluations <= 2 * Log2(ceiling) + 1
  {
    evaluations := 1;
    if !fits(1) { return 0, evaluations; }
    var low, high: int := 1, 2;
    ghost var j: nat := 0;
    while true
      invariant low == Pow2(j) && high == 2 * low && evaluations == 1 + j
      invariant j <= Log2(ceiling)
      invariant Gallop(fits, low, high, ceiling) == Gallop(fits, 1, 2, ceiling)
      decreases ceiling - high
    {
      if high > ceiling { break; }
      evaluations := evaluations + 1;
      Log2Bounds(j + 1, ceiling);
      if !fits(high) { break; }
      low, high, j := high, high * 2, j + 1;
    }
    high := Min(high, ceiling);
    ghost var fuel: nat := j;
    ghost var bottom, top := low, high;
    while low + 1 < high
      invariant low >= 1 && high - low <= Pow2(fuel)
      invariant evaluations + fuel <= 2 * Log2(ceiling) + 1
      invariant Bisect(fits, low, high) == Bisect(fits, bottom, top)
      decreases high - low
    {
      var mid := (low + high) / 2;
      evaluations, fuel := evaluations + 1, fuel - 1;
      if fits(mid) { low := mid; } else { high := mid; }
    }
    h := low;
  }

  lemma {:induction false} Log2Bounds(j: nat, n: int)
    requires Pow2(j) <= n
    ensures j <= Log2(n)
    decreases j
  {
    if j > 0 { Log2Bounds(j - 1, n / 2); }
  }

  lemma {:induction false} Pow2Strict(i: nat, j: nat)
    requires i < j
    ensures 2 * Pow2(i) <= Pow2(j)
    decreases j
  {
    if i < j - 1 { Pow2Strict(i, j - 1); }
  }

  lemma {:induction false} GallopStops(fits: nat -> bool, low: nat, high: nat, ceiling: int, j: nat)
    requires fits(low) && low == Pow2(j) && high == 2 * low && (low <= ceiling || low == 1)
    ensures var (l, h) := Gallop(fits, low, high, ceiling);
            && fits(l) && h == 2 * l && IsPowerOfTwo(l) && (l <= ceiling || l == 1)
            && (h > ceiling || !fits(h))
    decreases ceiling - high
  {
    if high <= ceiling && fits(high) {
      GallopStops(fits, high, high * 2, ceiling, j + 1);
    }
  }

  lemma {:induction false} BisectStops(fits: nat -> bool, low: nat, high: int)
    requires fits(low) && low < high
    ensures var r := Bisect(fits, low, high);
            low <= r < high && fits(r) && (r + 1 == high || !fits(r + 1))
    decreases high - low
  {
    if low + 1 < high {
      var mid := (low + high) / 2;
      if fits(mid) { BisectStops(fits, mid, high); } else { BisectStops(fits, low, mid); }
    }
  }

  lemma PowersBetween(l: int, c: int)
    requires IsPowerOfTwo(l) && IsPowerOfTwo(c) && l <= c < 2 * l
    ensures l == c
  {
    var i: nat :| Pow2(i) == l;
    var j: nat :| Pow2(j) == c;
    if i < j { Pow2Strict(i, j); } else if j < i { Pow2Strict(j, i); }
  }

  /** What the answer is worth for an arbitrary predicate, monotone or not. */
  lemma SearchIsLocallyMaximal(fits: nat -> bool, ceiling: int)
    requires ceiling >= 1
    ensures var h := Search(fits, ceiling);
            && h <= ceiling
            && (h == 0 <==> !fits(1))
            && (h > 0 ==> fits(h))
            && (0 < h < ceiling ==> !fits(h + 1) || (h + 1 == ceiling && !IsPowerOfTwo(ceiling)))
  {
    if fits(1) {
      GallopStops(fits, 1, 2, ceiling, 0);
      var (l, t) := Gallop(fits, 1, 2, ceiling);
      var top := Min(t, ceiling);
      if l < top {
        BisectStops(fits, l, top);
        if t > ceiling && IsPowerOfTwo(ceiling) { PowersBetween(l, ceiling); }
      }
    }
  }

  /** A ceiling below 1 is not honoured: a fitting single request is still reported. */
  lemma SearchIgnoresEmptyCeiling(fits: nat -> bool, ceiling: int)
    requires ceiling < 1
    ensures Search(fits, ceiling) == if fits(1) then 1 else 0
  {}

  ghost predicate DownClosed(fits: nat -> bool, ceiling: int) {
    forall a: nat, b: nat :: 1 <= a <= b <= ceiling && fits(b) ==> fits(a)
  }

  ghost predicate IsLargestFitting(h: nat, fits: nat -> bool, ceiling: int) {
    && (h == 0 || (h <= ceiling && fits(h)))
    && forall c: nat :: h < c <= ceiling ==> !fits(c)
  }

  /**
   For a downward-closed predicate the answer is the largest fitting concurrency exactly when the
   ceiling is a power of two or does not itself fit; otherwise it is one short.
   */
  lemma SearchIsLargestExactly(fits: nat -> bool, ceiling: int)
    requires ceiling >= 1 && DownClosed(fits, ceiling)
    ensures IsLargestFitting(Search(fits, ceiling), fits, ceiling)
            <==> IsPowerOfTwo(ceiling) || !fits(ceiling)
    ensures !IsPowerOfTwo(ceiling) && fits(ceiling) ==> Search(fits, ceiling) == ceiling - 1
  {
    SearchIsLocallyMaximal(fits, ceiling);
    var h := Search(fits, ceiling);
    if IsPowerOfTwo(ceiling) || !fits(ceiling) {
      if h == 0 {
        forall c: nat | h < c <= ceiling ensures !fits(c) {}
      } else if h < ceiling {
        assert !fits(h + 1);
        forall c: nat | h < c <= ceiling ensures !fits(c) {}
      }
    } else {
      SearchStopsShort(fits, ceiling);
    }
  }

  lemma SearchStopsShort(fits: nat -> bool, ceiling: int)
    requires ceiling >= 1 && DownClosed(fits, ceiling) && !IsPowerOfTwo(ceiling) && fits(ceiling)
    ensures Search(fits, ceiling) == ceiling - 1
  {
    assert Pow2(0) == 1;
    assert fits(1);
    GallopStops(fits, 1, 2, ceiling, 0);
    var (l, t) := Gallop(fits, 1, 2, ceiling);
    assert t > ceiling && l < ceiling;
    BisectStops(fits, l, ceiling);
  }
}
