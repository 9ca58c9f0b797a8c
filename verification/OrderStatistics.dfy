/** Nearest-rank percentiles (bench/metrics.py `percentile`, core/workload.py `Empirical.percentile`). */
module OrderStatistics {
  import opened Results
  import opened Arithmetic
  import opened Selection

  function AsIs(): real -> real { (x: real) => x }

  function Sort(s: seq<real>): seq<real> { SortBy(s, AsIs()) }

  ghost predicate Ascending(s: seq<real>) {
    forall i, j :: 0 <= i < j < |s| ==> s[i] <= s[j]
  }

  ghost function CountLe(s: seq<real>, v: real): (n: nat)
    ensures n <= |s|
  {
    if s == [] then 0 else (if s[0] <= v then 1 else 0) + CountLe(s[1..], v)
  }

  ghost function CountLt(s: seq<real>, v: real): (n: nat)
    ensures n <= |s|
  {
    if s == [] then 0 else (if s[0] < v then 1 else 0) + CountLt(s[1..], v)
  }

  lemma SortSorts(s: seq<real>)
    ensures Ascending(Sort(s)) && multiset(Sort(s)) == multiset(s) && |Sort(s)| == |s|
  {
    SortBySorts(s, AsIs());
    var r := Sort(s);
    forall i, j | 0 <= i < j < |r| ensures r[i] <= r[j] { assert AsIs()(r[i]) <= AsIs()(r[j]); }
  }

  lemma {:induction false} CountsConcat(a: seq<real>, b: seq<real>, v: real)
    ensures CountLe(a + b, v) == CountLe(a, v) + CountLe(b, v)
    ensures CountLt(a + b, v) == CountLt(a, v) + CountLt(b, v)
    decreases |a|
  {
    if a == [] {
      assert a + b == b;
    } else {
      assert (a + b)[1..] == a[1..] + b;
      CountsConcat(a[1..], b, v);
    }
  }

  lemma {:induction false} CountsPermute(a: seq<real>, b: seq<real>, v: real)
    requires multiset(a) == multiset(b)
    ensures CountLe(a, v) == CountLe(b, v) && CountLt(a, v) == CountLt(b, v)
    decreases |a|
  {
    assert |multiset(a)| == |a| && |multiset(b)| == |b|;
    if a != [] {
      var i := MatchFirst(a, b);
      CountsPermute(a[1..], b[..i] + b[i+1..], v);
      CountsRemove(b, i, v);
    }
  }

  lemma MatchFirst(a: seq<real>, b: seq<real>) returns (i: nat)
    requires a != [] && multiset(a) == multiset(b)
    ensures i < |b| && b[i] == a[0] && multiset(a[1..]) == multiset(b[..i] + b[i+1..])
  {
    RemoveFirst(a);
    i := FindIn(a[0], b);
    RemoveOne(b, i);
  }

  lemma RemoveFirst(s: seq<real>)
    requires s != []
    ensures s[0] in multiset(s) && multiset(s[1..]) == multiset(s) - multiset{s[0]}
  {
    assert s == [s[0]] + s[1..];
  }

  lemma FindIn(x: real, b: seq<real>) returns (i: nat)
    requires x in multiset(b)
    ensures i < |b| && b[i] == x
  {
    i :| i < |b| && b[i] == x;
  }

  lemma RemoveOne(s: seq<real>, i: nat)
    requires i < |s|
    ensures multiset(s[..i] + s[i+1..]) == multiset(s) - multiset{s[i]}
  {
    assert s == s[..i] + [s[i]] + s[i+1..];
  }

  lemma CountsRemove(s: seq<real>, i: nat, v: real)
    requires i < |s|
    ensures CountLe(s, v) == CountLe(s[..i] + s[i+1..], v) + (if s[i] <= v then 1 else 0)
    ensures CountLt(s, v) == CountLt(s[..i] + s[i+1..], v) + (if s[i] < v then 1 else 0)
  {
    assert s == s[..i] + s[i..] && s[i..][1..] == s[i+1..];
    CountsConcat(s[..i], s[i..], v);
    CountsConcat(s[..i], s[i+1..], v);
  }

  /** Everything at most `w` is below anything greater. */
  lemma {:induction false} CountsOrder(s: seq<real>, w: real, v: real)
    requires w < v
    ensures CountLe(s, w) <= CountLt(s, v) <= CountLe(s, v)
    decreases |s|
  {
    if s != [] { CountsOrder(s[1..], w, v); }
  }

  lemma {:induction false} CountLeAll(s: seq<real>, v: real)
    requires forall i :: 0 <= i < |s| ==> s[i] <= v
    ensures CountLe(s, v) == |s|
    decreases |s|
  {
    if s != [] { CountLeAll(s[1..], v); }
  }

  lemma {:induction false} CountLeAllBelow(s: seq<real>, v: real, i: nat)
    requires CountLe(s, v) == |s| && i < |s|
    ensures s[i] <= v
    decreases |s|
  {
    if i > 0 { CountLeAllBelow(s[1..], v, i - 1); }
  }

  lemma {:induction false} CountLtAll(s: seq<real>, v: real)
    requires forall i :: 0 <= i < |s| ==> s[i] < v
    ensures CountLt(s, v) == |s|
    decreases |s|
  {
    if s != [] { CountLtAll(s[1..], v); }
  }

  lemma {:induction false} CountLtNone(s: seq<real>, v: real)
    requires forall i :: 0 <= i < |s| ==> s[i] >= v
    ensures CountLt(s, v) == 0
    decreases |s|
  {
    if s != [] { CountLtNone(s[1..], v); }
  }

  lemma CountLtParts(s: seq<real>, lo: nat, hi: nat, v: real)
    requires lo <= hi <= |s|
    ensures CountLt(s, v) == CountLt(s[..lo], v) + CountLt(s[lo..hi], v) + CountLt(s[hi..], v)
  {
    assert s == s[..lo] + s[lo..] && s[lo..] == s[lo..hi] + s[hi..];
    CountsConcat(s[..lo], s[lo..], v);
    CountsConcat(s[lo..hi], s[hi..], v);
  }

  /** A run of large elements keeps the count below `v` down; small elements around a run keep it up. */
  lemma CountLtAround(s: seq<real>, lo: nat, hi: nat, v: real)
    requires lo <= hi <= |s|
    ensures (forall i :: lo <= i < hi ==> s[i] >= v) ==> CountLt(s, v) <= |s| - (hi - lo)
    ensures (forall i :: 0 <= i < lo || hi <= i < |s| ==> s[i] < v) ==> CountLt(s, v) >= |s| - (hi - lo)
  {
    hide CountLt;
    var a, b, c := s[..lo], s[lo..hi], s[hi..];
    CountLtParts(s, lo, hi, v);
    if forall i :: lo <= i < hi ==> s[i] >= v { CountLtNone(b, v); }
    if forall i :: 0 <= i < lo || hi <= i < |s| ==> s[i] < v {
      forall i | 0 <= i < |c| ensures c[i] < v { assert c[i] == s[hi + i]; }
      CountLtAll(a, v);
      CountLtAll(c, v);
    }
  }

  lemma {:induction false} CountLePointwise(a: seq<real>, b: seq<real>, v: real)
    requires |a| == |b| && forall i :: 0 <= i < |a| ==> a[i] <= b[i]
    ensures CountLe(b, v) <= CountLe(a, v)
    decreases |a|
  {
    if a != [] { CountLePointwise(a[1..], b[1..], v); }
  }

  /** The nearest rank ceil(q * n), which lies in 1..n for a quantile strictly between 0 and 1. */
  function Rank(n: nat, q: real): (k: int)
    requires n > 0 && 0.0 < q < 1.0
    ensures 1 <= k <= n
  {
    RankBounds(n, q);
    Ceil(q * n as real)
  }

  lemma RankBounds(n: nat, q: real)
    requires n > 0 && 0.0 < q < 1.0
    ensures 0.0 < q * n as real <= n as real
  {}

  lemma RankMonotone(n: nat, q: real, q': real)
    requires n > 0 && 0.0 < q <= q' < 1.0
    ensures Rank(n, q) <= Rank(n, q')
  {
    ScaleMonotone(n as real, q, q');
    CeilMonotone(q * n as real, q' * n as real);
  }

  lemma ScaleMonotone(n: real, q: real, q': real)
    requires n >= 0.0 && q <= q'
    ensures q * n <= q' * n
  {}

  /** The clamped index the code computes into the sorted list. */
  function NearestIndex(n: nat, q: real): (i: int)
    requires n > 0 && 0.0 < q < 1.0
    ensures i == Rank(n, q) - 1
  {
    Max(0, Min(n - 1, Ceil(q * n as real) - 1))
  }

  function Percentile(values: seq<real>, q: real): Result<real> {
    if values == [] then Err(ValueError)
    else if !(0.0 < q < 1.0) then Err(ValueError)
    else
      SortSorts(values);
      var ordered := Sort(values);
      Ok(ordered[NearestIndex(|ordered|, q)])
  }

  /** `p` is the k-th smallest element, stated by counting and without sorting. */
  ghost predicate IsKthSmallest(values: seq<real>, k: int, p: real) {
    p in values && CountLt(values, p) < k <= CountLe(values, p)
  }

  /** What the sorted index means: at least ceil(qn) elements are at most p, fewer are below it. */
  lemma PercentileIsNearestRank(values: seq<real>, q: real)
    requires values != [] && 0.0 < q < 1.0
    ensures Percentile(values, q).Ok?
    ensures IsKthSmallest(values, Rank(|values|, q), Percentile(values, q).value)
  {
    var s, k := PercentileIndexesSorted(values, q);
    AscendingCounts(s, k);
    CountsPermute(s, values, s[k - 1]);
    assert s[k - 1] in multiset(values);
  }

  lemma PercentileIndexesSorted(values: seq<real>, q: real) returns (s: seq<real>, k: int)
    requires values != [] && 0.0 < q < 1.0
    ensures s == Sort(values) && Ascending(s) && multiset(s) == multiset(values) && |s| == |values|
    ensures k == Rank(|values|, q) && Percentile(values, q) == Ok(s[k - 1])
  {
    SortSorts(values);
    s, k := Sort(values), Rank(|values|, q);
  }

  lemma {:induction false} AscendingCounts(s: seq<real>, k: int)
    requires Ascending(s) && 1 <= k <= |s|
    ensures CountLt(s, s[k - 1]) < k <= CountLe(s, s[k - 1])
    decreases |s|
  {
    if k == 1 {
      CountLtNone(s, s[0]);
    } else {
      var tail := s[1..];
      assert tail[k - 2] == s[k - 1];
      AscendingCounts(tail, k - 1);
    }
  }

  lemma KthSmallestIsUnique(values: seq<real>, k: int, p: real, p': real)
    requires IsKthSmallest(values, k, p) && IsKthSmallest(values, k, p')
    ensures p == p'
  {
    if p < p' {
      CountsOrder(values, p, p');
    } else if p' < p {
      CountsOrder(values, p', p);
    }
  }

  lemma PercentilePermutes(a: seq<real>, b: seq<real>, q: real)
    requires multiset(a) == multiset(b)
    ensures Percentile(a, q) == Percentile(b, q)
  {
    assert |multiset(a)| == |a| && |multiset(b)| == |b|;
    if a != [] && 0.0 < q < 1.0 {
      PercentileIsNearestRank(a, q);
      PercentileIsNearestRank(b, q);
      var p := Percentile(a, q).value;
      CountsPermute(a, b, p);
      assert p in multiset(a);
      KthSmallestIsUnique(b, Rank(|b|, q), p, Percentile(b, q).value);
    }
  }

  lemma PercentileMonotoneInQuantile(values: seq<real>, q: real, q': real)
    requires values != [] && 0.0 < q <= q' < 1.0
    ensures Percentile(values, q).Ok? && Percentile(values, q').Ok?
    ensures Percentile(values, q).value <= Percentile(values, q').value
  {
    PercentileIsNearestRank(values, q);
    PercentileIsNearestRank(values, q');
    RankMonotone(|values|, q, q');
    var p, p' := Percentile(values, q).value, Percentile(values, q').value;
    if p' < p { CountsOrder(values, p', p); }
  }

  /** Raising samples one by one can only raise a percentile. */
  lemma PercentileMonotoneInSamples(a: seq<real>, b: seq<real>, q: real)
    requires |a| == |b| > 0 && 0.0 < q < 1.0
    requires forall i :: 0 <= i < |a| ==> a[i] <= b[i]
    ensures Percentile(a, q).Ok? && Percentile(b, q).Ok?
    ensures Percentile(a, q).value <= Percentile(b, q).value
  {
    PercentileIsNearestRank(a, q);
    PercentileIsNearestRank(b, q);
    var pa, pb := Percentile(a, q).value, Percentile(b, q).value;
    if pb < pa {
      CountsOrder(a, pb, pa);
      CountLePointwise(a, b, pb);
    }
  }

  /** A percentile stays below a bound exactly when enough samples do. */
  lemma PercentileBelow(values: seq<real>, q: real, v: real)
    requires values != [] && 0.0 < q < 1.0
    ensures Percentile(values, q).Ok?
    ensures Percentile(values, q).value < v <==> CountLt(values, v) >= Rank(|values|, q)
  {
    PercentileIsNearestRank(values, q);
    var p := Percentile(values, q).value;
    if p < v {
      CountsOrder(values, p, v);
    } else if v < p {
      CountsOrder(values, v, p);
      CountLtWithinCountLe(values, v);
    }
  }

  lemma PercentileAtMost(values: seq<real>, q: real, v: real)
    requires values != [] && 0.0 < q < 1.0
    ensures Percentile(values, q).Ok?
    ensures Percentile(values, q).value <= v <==> CountLe(values, v) >= Rank(|values|, q)
  {
    PercentileIsNearestRank(values, q);
    var p := Percentile(values, q).value;
    if p < v {
      CountsOrder(values, p, v);
    } else if v < p {
      CountsOrder(values, v, p);
    }
  }

  lemma {:induction false} CountLtWithinCountLe(s: seq<real>, v: real)
    ensures CountLt(s, v) <= CountLe(s, v)
    decreases |s|
  {
    if s != [] { CountLtWithinCountLe(s[1..], v); }
  }

  // ---------------------------------------------------------------- the median

  /** `statistics.median`: the middle element, or the mean of the middle two. */
  function Median(values: seq<real>): real
    requires values != []
  {
    SortSorts(values);
    var s := Sort(values);
    var n := |s|;
    if n % 2 == 1 then s[n / 2] else (s[n / 2 - 1] + s[n / 2]) / 2.0
  }

  lemma SortedElementIsKth(values: seq<real>, k: int)
    requires 1 <= k <= |values|
    ensures |Sort(values)| == |values| && IsKthSmallest(values, k, Sort(values)[k - 1])
  {
    SortSorts(values);
    var s := Sort(values);
    AscendingCounts(s, k);
    CountsPermute(s, values, s[k - 1]);
    assert s[k - 1] in multiset(values);
  }

  /** The element of the middle rank, or twice the median is the sum of the two middle ones. */
  lemma MedianExactly(values: seq<real>) returns (lo: real, hi: real)
    requires values != []
    ensures |values| % 2 == 1 ==> IsKthSmallest(values, (|values| + 1) / 2, Median(values))
    ensures |values| % 2 == 0 ==>
              IsKthSmallest(values, |values| / 2, lo) && IsKthSmallest(values, |values| / 2 + 1, hi)
              && 2.0 * Median(values) == lo + hi
  {
    var n := |values|;
    SortedElementIsKth(values, n / 2 + 1);
    lo, hi := Median(values), Sort(values)[n / 2];
    if n % 2 == 0 {
      SortedElementIsKth(values, n / 2);
      lo := Sort(values)[n / 2 - 1];
    }
  }

  lemma MedianWithin(values: seq<real>, lo: real, hi: real)
    requires values != [] && forall v :: v in values ==> lo <= v <= hi
    ensures lo <= Median(values) <= hi
  {
    var n := |values|;
    SortedElementIsKth(values, n / 2 + 1);
    if n % 2 == 0 { SortedElementIsKth(values, n / 2); }
  }

  ghost function CountEq(s: seq<real>, v: real): nat {
    if s == [] then 0 else (if s[0] == v then 1 else 0) + CountEq(s[1..], v)
  }

  lemma {:induction false} CountsSplit(s: seq<real>, v: real)
    ensures CountLe(s, v) == CountLt(s, v) + CountEq(s, v)
    ensures CountEq(s, v) > 0 ==> v in s
    decreases |s|
  {
    if s != [] { CountsSplit(s[1..], v); }
  }

  /** A value held by more than half of the samples is the median, however wild the others are. */
  lemma MajorityIsMedian(values: seq<real>, v: real)
    requires values != [] && 2 * CountEq(values, v) > |values|
    ensures Median(values) == v
  {
    var n := |values|;
    CountsSplit(values, v);
    SortedElementIsKth(values, n / 2 + 1);
    KthSmallestIsUnique(values, n / 2 + 1, v, Sort(values)[n / 2]);
    if n % 2 == 0 {
      SortedElementIsKth(values, n / 2);
      KthSmallestIsUnique(values, n / 2, v, Sort(values)[n / 2 - 1]);
    }
  }
}
