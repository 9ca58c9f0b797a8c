/** Scoring, Pareto pruning and the boot budget (search/space.py). */
module SearchSpace {
  import opened Results
  import opened Arithmetic
  import opened Selection
  import opened DTypes

  datatype Candidate = Candidate(tensorParallel: nat, maxModelLen: int, maxNumSeqs: int, kvDtype: DType, enforceEager: bool)

  datatype Scored = Scored(candidate: Candidate, kvTokens: nat, predicted: real, ttft: real, tpot: real, headroom: nat)

  /** A candidate's analytic score, or none when it cannot fit. */
  type Scorer = Candidate -> Option<Scored>

  function FeasibleOf(candidates: seq<Candidate>, scorer: Scorer): seq<Scored> {
    if candidates == [] then []
    else
      FeasibleOf(candidates[..|candidates|-1], scorer)
      + (var r := scorer(candidates[|candidates|-1]); if r.Some? then [r.value] else [])
  }

  method ScoreAll(candidates: seq<Candidate>, scorer: Scorer) returns (scored: seq<Scored>, infeasible: nat)
    ensures scored == FeasibleOf(candidates, scorer)
    ensures infeasible + |scored| == |candidates|
  {
    scored, infeasible := [], 0;
    for i := 0 to |candidates|
      invariant scored == FeasibleOf(candidates[..i], scorer)
      invariant infeasible + |scored| == i
    {
      assert candidates[..i+1][..i] == candidates[..i];
      var result := scorer(candidates[i]);
      if result.None? {
        infeasible := infeasible + 1;
      } else {
        scored := scored + [result.value];
      }
    }
    assert candidates[..|candidates|] == candidates;
  }

  lemma {:induction false} FeasibleMembers(candidates: seq<Candidate>, scorer: Scorer, s: Scored)
    ensures s in FeasibleOf(candidates, scorer) <==> exists c :: c in candidates && scorer(c) == Some(s)
    decreases |candidates|
  {
    if candidates != [] {
      var front, last := candidates[..|candidates|-1], candidates[|candidates|-1];
      FeasibleMembers(front, scorer, s);
      assert candidates == front + [last];
      if scorer(last) == Some(s) { assert last in candidates; }
    }
  }

  // ---------------------------------------------------------------- dominance

  predicate WeaklyDominates(b: Scored, a: Scored) { b.kvTokens >= a.kvTokens && b.predicted >= a.predicted }

  predicate Dominates(b: Scored, a: Scored) {
    WeaklyDominates(b, a) && (b.kvTokens > a.kvTokens || b.predicted > a.predicted)
  }

  predicate Dominated(a: Scored, scored: seq<Scored>) {
    exists i :: 0 <= i < |scored| && Dominates(scored[i], a)
  }

  function Undominated(scored: seq<Scored>): Scored -> bool { (a: Scored) => !Dominated(a, scored) }

  function ParetoFront(scored: seq<Scored>): seq<Scored> { Filter(scored, Undominated(scored)) }

  method ComputeFront(scored: seq<Scored>) returns (front: seq<Scored>)
    ensures front == ParetoFront(scored)
  {
    front := [];
    for i := 0 to |scored|
      invariant front + Filter(scored[i..], Undominated(scored)) == ParetoFront(scored)
    {
      var a := scored[i];
      var beaten := false;
      for j := 0 to |scored|
        invariant beaten <==> exists k :: 0 <= k < j && k != i && Dominates(scored[k], a)
      {
        if j != i && Dominates(scored[j], a) { beaten := true; }
      }
      assert beaten <==> Dominated(a, scored);
      assert scored[i..][1..] == scored[i+1..];
      ghost var before := front;
      if !beaten { front := front + [a]; }
      ghost var tail := Filter(scored[i+1..], Undominated(scored));
      assert before + ([a] + tail) == (before + [a]) + tail;
      assert before + ([] + tail) == before + tail;
    }
    assert scored[|scored|..] == [];
  }

  /** How many elements beat `a`; a chain of dominators shortens it. */
  ghost function Dominators(a: Scored, scored: seq<Scored>): nat {
    if scored == [] then 0 else (if Dominates(scored[0], a) then 1 else 0) + Dominators(a, scored[1..])
  }

  lemma {:induction false} FewerDominators(b: Scored, a: Scored, scored: seq<Scored>)
    requires Dominates(b, a)
    ensures Dominators(b, scored) <= Dominators(a, scored)
    ensures b in scored ==> Dominators(b, scored) < Dominators(a, scored)
    decreases |scored|
  {
    if scored != [] {
      FewerDominators(b, a, scored[1..]);
      assert scored == [scored[0]] + scored[1..];
    }
  }

  /** Soundness: the front holds exactly the candidates nothing beats. */
  lemma FrontIsUndominated(scored: seq<Scored>, a: Scored)
    ensures a in ParetoFront(scored) <==> a in scored && forall b :: b in scored ==> !Dominates(b, a)
    ensures a in ParetoFront(scored) <==>
              && a in scored
              && !exists b :: b in scored && b.kvTokens >= a.kvTokens && b.predicted >= a.predicted
                              && (b.kvTokens > a.kvTokens || b.predicted > a.predicted)
  {
    FilterKeeps(scored, Undominated(scored), a);
    assert Dominated(a, scored) <==> exists b :: b in scored && Dominates(b, a);
  }

  /** Completeness: every candidate is matched on both axes by some member of the front. */
  lemma {:induction false} FrontCovers(scored: seq<Scored>, a: Scored) returns (m: Scored)
    requires a in scored
    ensures m in ParetoFront(scored) && WeaklyDominates(m, a)
    ensures m.kvTokens >= a.kvTokens && m.predicted >= a.predicted
    decreases Dominators(a, scored)
  {
    FrontIsUndominated(scored, a);
    if a in ParetoFront(scored) {
      m := a;
    } else {
      var b :| b in scored && Dominates(b, a);
      FewerDominators(b, a, scored);
      m := FrontCovers(scored, b);
    }
  }

  /** On a front, equality on one axis forces equality on both. */
  lemma FrontIsAntichain(scored: seq<Scored>, a: Scored, b: Scored)
    requires a in ParetoFront(scored) && b in ParetoFront(scored)
    ensures a.predicted >= b.predicted ==> a.kvTokens <= b.kvTokens
    ensures a.predicted == b.predicted <==> a.kvTokens == b.kvTokens
  {
    FrontIsUndominated(scored, a);
    FrontIsUndominated(scored, b);
  }

  // ---------------------------------------------------------------- the boot budget

  /** `sorted(..., reverse=True)` by predicted throughput, keeping equals in order. */
  function FastestFirst(s: seq<Scored>): seq<Scored> { SortBy(s, Slowness()) }

  function Slowness(): Scored -> real { (s: Scored) => -s.predicted }

  ghost predicate Falling(s: seq<Scored>) {
    forall i, j :: 0 <= i < j < |s| ==> s[i].predicted >= s[j].predicted
  }

  lemma FastestFirstSorts(s: seq<Scored>)
    ensures Falling(FastestFirst(s)) && multiset(FastestFirst(s)) == multiset(s) && |FastestFirst(s)| == |s|
  {
    SortBySorts(s, Slowness());
    var r := FastestFirst(s);
    forall i, j | 0 <= i < j < |r| ensures r[i].predicted >= r[j].predicted {
      assert Slowness()(r[i]) <= Slowness()(r[j]);
    }
  }

  lemma FastestFirstMembers(s: seq<Scored>, x: Scored)
    ensures x in FastestFirst(s) <==> x in s
  {
    FastestFirstSorts(s);
    assert x in multiset(FastestFirst(s)) <==> x in multiset(s);
  }

  /** The sorted front is a staircase: throughput falls while cache capacity rises, and both tie together. */
  lemma FrontIsStaircase(scored: seq<Scored>, i: nat, j: nat)
    requires i < j < |FastestFirst(ParetoFront(scored))|
    ensures var s := FastestFirst(ParetoFront(scored));
            && s[i].predicted >= s[j].predicted
            && s[i].kvTokens <= s[j].kvTokens
            && (s[i].predicted == s[j].predicted <==> s[i].kvTokens == s[j].kvTokens)
  {
    var front := ParetoFront(scored);
    var s := FastestFirst(front);
    FastestFirstSorts(front);
    FastestFirstMembers(front, s[i]);
    FastestFirstMembers(front, s[j]);
    FrontIsAntichain(scored, s[i], s[j]);
  }

  datatype PruneReport = PruneReport(enumerated: nat, infeasible: nat, dominated: int, survivors: seq<Scored>, truncated: bool)

  function PruneOf(candidates: seq<Candidate>, scorer: Scorer, keep: nat): PruneReport {
    var scored := FeasibleOf(candidates, scorer);
    FeasibleLength(candidates, scorer);
    var infeasible := |candidates| - |scored|;
    if scored == [] then PruneReport(|candidates|, infeasible, 0, [], false)
    else
      var front := ParetoFront(scored);
      var sorted := FastestFirst(front);
      PruneReport(|candidates|, infeasible, |scored| - |front|,
                  if |sorted| > keep then sorted[..keep] else sorted, |front| > keep)
  }

  lemma {:induction false} FeasibleLength(candidates: seq<Candidate>, scorer: Scorer)
    ensures |FeasibleOf(candidates, scorer)| <= |candidates|
    decreases |candidates|
  {
    if candidates != [] { FeasibleLength(candidates[..|candidates|-1], scorer); }
  }

  method Prune(candidates: seq<Candidate>, scorer: Scorer, keep: nat) returns (report: PruneReport)
    ensures report == PruneOf(candidates, scorer, keep)
  {
    var scored, infeasible := ScoreAll(candidates, scorer);
    if scored == [] {
      return PruneReport(|candidates|, infeasible, 0, [], false);
    }
    var front := ComputeFront(scored);
    var sorted := FastestFirst(front);
    var survivors := if |sorted| > keep then sorted[..keep] else sorted;
    report := PruneReport(|candidates|, infeasible, |scored| - |front|, survivors, |front| > keep);
  }

  /** Nothing is lost in the report: every candidate is infeasible, dominated, or on the front. */
  lemma PruneAccountsForAll(candidates: seq<Candidate>, scorer: Scorer, keep: nat)
    ensures var r := PruneOf(candidates, scorer, keep);
            var front := ParetoFront(FeasibleOf(candidates, scorer));
            && r.enumerated == r.infeasible + r.dominated + |front| == |candidates|
            && r.dominated >= 0
            && |r.survivors| == Min(keep, |front|)
            && (r.survivors == [] <==> keep == 0 || r.infeasible == r.enumerated)
            && (r.truncated <==> |front| > keep)
            && forall s :: s in r.survivors ==> s in front
  {
    var scored := FeasibleOf(candidates, scorer);
    var front := ParetoFront(scored);
    FeasibleLength(candidates, scorer);
    FastestFirstSorts(front);
    if scored != [] {
      var m := FrontCovers(scored, scored[0]);
      forall s | s in PruneOf(candidates, scorer, keep).survivors ensures s in front { FastestFirstMembers(front, s); }
    }
  }

  /** The survivors are the fastest points of the front, up to the boot budget. */
  lemma SurvivorsAreFastest(candidates: seq<Candidate>, scorer: Scorer, keep: nat)
    requires FeasibleOf(candidates, scorer) != []
    ensures var sorted := FastestFirst(ParetoFront(FeasibleOf(candidates, scorer)));
            PruneOf(candidates, scorer, keep).survivors == sorted[..Min(keep, |sorted|)]
  {
    hide ParetoFront, FastestFirst, FeasibleOf;
    var sorted := FastestFirst(ParetoFront(FeasibleOf(candidates, scorer)));
    assert sorted[..|sorted|] == sorted;
  }

  /** The first of the sorted front has the highest predicted throughput of anything feasible. */
  lemma FirstOfFrontIsFastest(scored: seq<Scored>)
    requires scored != []
    ensures var sorted := FastestFirst(ParetoFront(scored));
            && sorted != [] && sorted[0] in scored
            && forall s :: s in scored ==> s.predicted <= sorted[0].predicted
  {
    hide ParetoFront, FastestFirst;
    var front := ParetoFront(scored);
    var sorted := FastestFirst(front);
    FastestFirstSorts(front);
    var some := FrontCovers(scored, scored[0]);
    FastestFirstMembers(front, some);
    FastestFirstMembers(front, sorted[0]);
    FrontIsUndominated(scored, sorted[0]);
    forall s | s in scored ensures s.predicted <= sorted[0].predicted {
      var m := FrontCovers(scored, s);
      FastestFirstMembers(front, m);
      var k :| 0 <= k < |sorted| && sorted[k] == m;
    }
  }

  /** The first survivor has the highest predicted throughput of anything feasible. */
  lemma FirstSurvivorIsFastest(candidates: seq<Candidate>, scorer: Scorer, keep: nat)
    requires keep >= 1 && FeasibleOf(candidates, scorer) != []
    ensures var r := PruneOf(candidates, scorer, keep);
            && r.survivors != []
            && r.survivors[0] in FeasibleOf(candidates, scorer)
            && forall s :: s in FeasibleOf(candidates, scorer) ==> s.predicted <= r.survivors[0].predicted
  {
    SurvivorsAreFastest(candidates, scorer, keep);
    FirstOfFrontIsFastest(FeasibleOf(candidates, scorer));
    hide PruneOf, FeasibleOf, ParetoFront, FastestFirst;
  }

  /** The last of the sorted front has the most cache capacity of anything feasible. */
  lemma LastOfFrontIsLargest(scored: seq<Scored>)
    requires scored != []
    ensures var sorted := FastestFirst(ParetoFront(scored));
            && sorted != [] && sorted[|sorted|-1] in scored
            && forall s :: s in scored ==> s.kvTokens <= sorted[|sorted|-1].kvTokens
  {
    hide ParetoFront, FastestFirst;
    var front := ParetoFront(scored);
    var sorted := FastestFirst(front);
    var m := FrontCovers(scored, scored[0]);
    FastestFirstMembers(front, m);
    var last := sorted[|sorted|-1];
    FastestFirstMembers(front, last);
    FrontIsUndominated(scored, last);
    forall s | s in scored ensures s.kvTokens <= last.kvTokens {
      var m := FrontCovers(scored, s);
      FastestFirstMembers(front, m);
      var k :| 0 <= k < |sorted| && sorted[k] == m;
      if k < |sorted| - 1 { FrontIsStaircase(scored, k, |sorted| - 1); }
    }
  }

  ghost predicate HoldsLargest(some: seq<Scored>, all: seq<Scored>) {
    exists k :: k in some && forall s :: s in all ==> s.kvTokens <= k.kvTokens
  }

  /** Along the sorted front, the first `keep` points hold the largest cache exactly when the last of them ties. */
  lemma PrefixHoldsLargest(scored: seq<Scored>, keep: nat)
    requires scored != [] && 1 <= keep <= |FastestFirst(ParetoFront(scored))|
    ensures var sorted := FastestFirst(ParetoFront(scored));
            HoldsLargest(sorted[..keep], scored) <==> sorted[keep - 1].kvTokens == sorted[|sorted|-1].kvTokens
  {
    var sorted := FastestFirst(ParetoFront(scored));
    var kept, last := sorted[keep - 1], sorted[|sorted|-1];
    LastOfFrontIsLargest(scored);
    assert kept in sorted[..keep] by { assert sorted[..keep][keep - 1] == kept; }
    if keep < |sorted| { FrontIsStaircase(scored, keep - 1, |sorted| - 1); }
    forall k | k in sorted[..keep] ensures k.kvTokens <= kept.kvTokens {
      var i :| 0 <= i < keep && sorted[i] == k;
      if i < keep - 1 { FrontIsStaircase(scored, i, keep - 1); }
    }
  }

  /**
   The front attains the best of both axes, but the survivors trimmed to the boot budget keep the best
   cache capacity exactly when the front fits the budget or the last point kept ties with the front's last.
   */
  lemma TrimmingKeepsCapacityExactly(candidates: seq<Candidate>, scorer: Scorer, keep: nat)
    requires keep >= 1 && FeasibleOf(candidates, scorer) != []
    ensures var scored := FeasibleOf(candidates, scorer);
            var sorted := FastestFirst(ParetoFront(scored));
            && sorted != []
            && (HoldsLargest(PruneOf(candidates, scorer, keep).survivors, scored)
                <==> |sorted| <= keep || sorted[keep - 1].kvTokens == sorted[|sorted|-1].kvTokens)
  {
    hide PruneOf, FeasibleOf, ParetoFront, FastestFirst, HoldsLargest;
    var scored := FeasibleOf(candidates, scorer);
    var sorted := FastestFirst(ParetoFront(scored));
    LastOfFrontIsLargest(scored);
    PrefixHoldsLargest(scored, Min(keep, |sorted|));
    SurvivorsAreFastest(candidates, scorer, keep);
  }

  /** Faster with less cache, and slower with more: a front of two. */
  function TwoSided(): Scorer {
    (c: Candidate) => Some(if c.enforceEager then Scored(c, 20, 1.0, 1.0, 1.0, 1) else Scored(c, 10, 2.0, 1.0, 1.0, 1))
  }

  /** With a single boot the search space's largest cache is trimmed away. */
  lemma TrimmingCanLoseLargest() returns (candidates: seq<Candidate>)
    ensures |candidates| == 2 && FeasibleOf(candidates, TwoSided()) != []
    ensures !HoldsLargest(PruneOf(candidates, TwoSided(), 1).survivors, FeasibleOf(candidates, TwoSided()))
  {
    var fast, large := Candidate(1, 1, 1, BF16, false), Candidate(1, 1, 1, BF16, true);
    candidates := [fast, large];
    var a, b := Scored(fast, 10, 2.0, 1.0, 1.0, 1), Scored(large, 20, 1.0, 1.0, 1.0, 1);
    assert candidates[..1] == [fast] && [fast][..0] == [];
    assert FeasibleOf([fast], TwoSided()) == [a];
    var scored := FeasibleOf(candidates, TwoSided());
    assert scored == [a, b];
    PruneAccountsForAll(candidates, TwoSided(), 1);
    FirstSurvivorIsFastest(candidates, TwoSided(), 1);
    var survivors := PruneOf(candidates, TwoSided(), 1).survivors;
    assert a in scored && b in scored;
    assert |survivors| == 1 && survivors[0] == a;
    assert survivors == [a];
  }
}
