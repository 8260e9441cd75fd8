/** The search for the cutoff of a continuous power law in src/plfit.c: the linear scan, and the
    stratified one that looks at every tenth distinct value first. */
module ContinuousSearch {
  import opened SortedSamples
  import opened XminScan

  /** Fitted exponent and KS distance of a tail of samples, its first element being the cutoff. */
  datatype Score = Score(alpha: real, d: real)
  type Scorer = seq<real> -> Score

  function FitAt(score: Scorer, xs: seq<real>, j: nat): Fit
    requires j < |xs|
  {
    var s := score(xs[j..]);
    Fit(s.d, s.alpha, xs[j], |xs| - j)
  }

  ghost predicate Inside(probes: seq<nat>, xs: seq<real>) {
    forall k :: 0 <= k < |probes| ==> probes[k] < |xs|
  }

  /** What a scan over numProbes probes sees: all but the last. */
  function FitsAt(score: Scorer, xs: seq<real>, probes: seq<nat>, numProbes: nat): seq<Fit>
    requires 0 < numProbes <= |probes| && Inside(probes, xs)
  {
    seq(numProbes - 1, k requires 0 <= k < numProbes - 1 => FitAt(score, xs, probes[k]))
  }

  /** The samples, the probed positions and the result of the last evaluation. */
  class OptData {
    const xs: seq<real>
    const score: Scorer
    var probes: seq<nat>
    var numProbes: nat
    var alpha: real
    var xmin: real
    var d: real

    ghost predicate Valid()
      reads this
    {
      0 < numProbes <= |probes| && Inside(probes, xs)
    }

    constructor (xs: seq<real>, score: Scorer, probes: seq<nat>, numProbes: nat)
      ensures this.xs == xs && this.score == score && this.probes == probes && this.numProbes == numProbes
    {
      this.xs, this.score, this.probes, this.numProbes := xs, score, probes, numProbes;
    }

    method Evaluate(x: nat)
      requires Valid() && x < |probes|
      modifies this`alpha, this`xmin, this`d
      ensures Fit(d, alpha, xmin, |xs| - probes[x]) == FitAt(score, xs, probes[x])
    {
      var begin := probes[x];
      xmin := xs[begin];
      var s := score(xs[begin..]);
      alpha := s.alpha;
      d := s.d;
    }
  }

  /** The loop with a single thread. The scan works on a copy of the data it is given. */
  method LinearScan(data: OptData, big: real) returns (best: Fit)
    requires data.Valid()
    ensures best == Scan(FitsAt(data.score, data.xs, data.probes, data.numProbes), big)
  {
    var local := new OptData(data.xs, data.score, data.probes, data.numProbes);
    ghost var fits := FitsAt(data.score, data.xs, data.probes, data.numProbes);
    best := Start(big);
    var i := 0;
    while i < local.numProbes - 1
      invariant local.xs == data.xs && local.score == data.score
      invariant local.probes == data.probes && local.numProbes == data.numProbes
      invariant i <= |fits| && best == Fold(Start(big), fits, 0, i)
    {
      local.Evaluate(i);
      if local.d < best.d {
        best := Fit(local.d, local.alpha, local.xmin, |local.xs| - local.probes[i]);
      }
      i := i + 1;
    }
  }

  // ----- the searches as functions of the samples -----

  const SUBDIVISION: nat := 10

  function Strata(us: seq<nat>): seq<nat> {
    seq(|us| / SUBDIVISION, i requires 0 <= i < |us| / SUBDIVISION => us[i * SUBDIVISION])
  }

  /** The first stratum from the given one on whose value is xmin; their number if there is none. */
  function Match(xs: seq<real>, strata: seq<nat>, xmin: real, from: nat): nat
    requires Inside(strata, xs) && from <= |strata|
    decreases |strata| - from
  {
    if from == |strata| || xs[strata[from]] == xmin then from else Match(xs, strata, xmin, from + 1)
  }

  function WindowStart(i: nat): nat {
    if i > 0 then (i - 1) * SUBDIVISION else 0
  }

  function WindowProbes(i: nat, numStrata: nat): nat {
    (if i != 0 then SUBDIVISION else 0) + (if i != numStrata - 1 then SUBDIVISION else 0)
  }

  ghost predicate Samples(xs: seq<real>) {
    |xs| > 0 && Sorted(xs)
  }

  lemma WindowInside(us: seq<nat>, i: nat)
    requires |us| >= 50 && i < |us| / SUBDIVISION
    ensures 0 < WindowProbes(i, |us| / SUBDIVISION) && WindowStart(i) + WindowProbes(i, |us| / SUBDIVISION) <= |us|
    ensures i < |us| / SUBDIVISION - 1 ==>
              WindowStart(i) <= i * SUBDIVISION < WindowStart(i) + WindowProbes(i, |us| / SUBDIVISION) - 1
  {}

  lemma UniquesInside(xs: seq<real>)
    requires |xs| > 0
    ensures Inside(Uniques(xs), xs) && Inside(Strata(Uniques(xs)), xs) && |Uniques(xs)| > 0
  {
    BlockStartsExact(xs, |xs|);
  }

  ghost function LinearBest(score: Scorer, xs: seq<real>, big: real): Fit
    requires Samples(xs)
  {
    UniquesInside(xs);
    Scan(FitsAt(score, xs, Uniques(xs), |Uniques(xs)|), big)
  }

  ghost function CoarseBest(score: Scorer, xs: seq<real>, big: real): Fit
    requires Samples(xs) && |Uniques(xs)| >= 50
  {
    UniquesInside(xs);
    Scan(FitsAt(score, xs, Strata(Uniques(xs)), |Strata(Uniques(xs))|), big)
  }

  ghost function FineBest(score: Scorer, xs: seq<real>, i: nat, big: real): Fit
    requires Samples(xs) && |Uniques(xs)| >= 50 && i < |Uniques(xs)| / SUBDIVISION
  {
    UniquesInside(xs);
    WindowInside(Uniques(xs), i);
    Scan(FitsAt(score, xs, Uniques(xs)[WindowStart(i)..], WindowProbes(i, |Uniques(xs)| / SUBDIVISION)), big)
  }

  ghost function Winner(score: Scorer, xs: seq<real>, big: real): nat
    requires Samples(xs) && |Uniques(xs)| >= 50
  {
    UniquesInside(xs);
    Match(xs, Strata(Uniques(xs)), CoarseBest(score, xs, big).xmin, 0)
  }

  ghost function StratifiedBest(score: Scorer, xs: seq<real>, big: real): Fit
    requires Samples(xs)
  {
    if |Uniques(xs)| >= 50 && Winner(score, xs, big) < |Uniques(xs)| / SUBDIVISION then
      FineBest(score, xs, Winner(score, xs, big), big)
    else
      LinearBest(score, xs, big)
  }

  // ----- the search as the source runs it -----

  datatype XminMethod = Linear | Stratified

  datatype SearchResult = NoDataPoints | Found(best: Fit)

  /** The array without its guard. */
  method UniquePositions(xs: seq<real>) returns (us: seq<nat>)
    ensures us == Uniques(xs)
  {
    var result, length := UniqueElementPointers(xs);
    us := [];
    var k := 0;
    while k < length
      invariant k <= length && us == Uniques(xs)[..k]
    {
      assert result[..length][k] == Pointers(Uniques(xs))[k];
      us := us + [result[k].index];
      k := k + 1;
    }
  }

  /** Narrowing down to the neighbourhood of the best stratum. */
  method StratifiedScan(xs: seq<real>, us: seq<nat>, score: Scorer, big: real) returns (success: bool, best: Fit)
    requires Samples(xs) && us == Uniques(xs) && |us| >= 50
    ensures success <==> Winner(score, xs, big) < |us| / SUBDIVISION
    ensures success ==> best == FineBest(score, xs, Winner(score, xs, big), big)
  {
    UniquesInside(xs);
    var numStrata := |us| / SUBDIVISION;
    var strata := Strata(us);
    var coarse := new OptData(xs, score, strata, numStrata);
    best := LinearScan(coarse, big);
    assert best == CoarseBest(score, xs, big);
    var i := 0;
    while i < numStrata && xs[strata[i]] != best.xmin
      invariant i <= numStrata && Match(xs, strata, best.xmin, 0) == Match(xs, strata, best.xmin, i)
    {
      i := i + 1;
    }
    success := i < numStrata;
    if success {
      WindowInside(us, i);
      var fine := new OptData(xs, score, us[WindowStart(i)..], WindowProbes(i, numStrata));
      best := LinearScan(fine, big);
    }
  }

  method Search(xs: seq<real>, xminMethod: XminMethod, score: Scorer, big: real) returns (r: SearchResult)
    requires Sorted(xs)
    ensures r == NoDataPoints <==> |xs| == 0
    ensures r.Found? && xminMethod.Linear? ==> r.best == LinearBest(score, xs, big)
    ensures r.Found? && xminMethod.Stratified? ==> r.best == StratifiedBest(score, xs, big)
  {
    if |xs| == 0 { return NoDataPoints; }
    UniquesInside(xs);
    var us := UniquePositions(xs);
    var success := false;
    var best := Start(big);
    if xminMethod.Stratified? && |us| >= 50 {
      success, best := StratifiedScan(xs, us, score, big);
    }
    if !success {
      var data := new OptData(xs, score, us, |us|);
      best := LinearScan(data, big);
    }
    return Found(best);
  }

  // ----- what the searches find -----

  ghost function AllFits(score: Scorer, xs: seq<real>): (r: seq<Fit>)
    requires Samples(xs)
    ensures |r| == |Uniques(xs)| - 1
  {
    UniquesInside(xs);
    FitsAt(score, xs, Uniques(xs), |Uniques(xs)|)
  }

  lemma MatchFirst(xs: seq<real>, strata: seq<nat>, xmin: real, from: nat)
    requires Inside(strata, xs) && from <= |strata|
    ensures var i := Match(xs, strata, xmin, from);
      && from <= i <= |strata|
      && (i < |strata| ==> xs[strata[i]] == xmin)
      && forall k :: from <= k < i ==> xs[strata[k]] != xmin
    decreases |strata| - from
  {}

  /** Exactly one stratum has the value the coarse scan found, and it is never the last; when the scan
      found nothing, none has. */
  lemma CoarseWinner(score: Scorer, xs: seq<real>, big: real)
    requires Samples(xs) && 0.0 < xs[0] && |Uniques(xs)| >= 50
    ensures var us, c, i := Uniques(xs), CoarseBest(score, xs, big), Winner(score, xs, big);
      && (i < |us| / SUBDIVISION <==> c != Start(big))
      && (c != Start(big) ==>
           && i < |us| / SUBDIVISION - 1 && i * SUBDIVISION < |us| - 1
           && c == AllFits(score, xs)[i * SUBDIVISION] && c.d < big
           && forall k :: 0 <= k < |us| / SUBDIVISION && k != i ==> xs[Strata(us)[k]] != c.xmin)
  {
    hide Fold, BlockStarts, Match;
    UniquesInside(xs);
    var us, c, i := Uniques(xs), CoarseBest(score, xs, big), Winner(score, xs, big);
    var strata := Strata(us);
    var fits := FitsAt(score, xs, strata, |strata|);
    ScanIsFirstMinimum(fits, big);
    MatchFirst(xs, strata, c.xmin, 0);
    if c == Start(big) {
      forall k | 0 <= k < |strata| ensures xs[strata[k]] != c.xmin {
        assert xs[0] <= xs[strata[k]];
      }
    } else {
      var w :| FirstMinimal(fits, w) && c == fits[w];
      assert c == FitAt(score, xs, strata[w]);
      forall k | 0 <= k < |strata| && k != w ensures xs[strata[k]] != c.xmin {
        StrataDiffer(xs, k, w);
      }
      assert i == w;
    }
  }

  lemma StrataDiffer(xs: seq<real>, j: nat, k: nat)
    requires Samples(xs) && j < |Strata(Uniques(xs))| && k < |Strata(Uniques(xs))| && j != k
    ensures Inside(Strata(Uniques(xs)), xs)
    ensures xs[Strata(Uniques(xs))[j]] != xs[Strata(Uniques(xs))[k]]
  {
    UniquesInside(xs);
    if j < k {
      UniquesIncrease(xs, j * SUBDIVISION, k * SUBDIVISION);
    } else {
      UniquesIncrease(xs, k * SUBDIVISION, j * SUBDIVISION);
    }
  }

  /** The fine scan sees a window of the full list of fits that holds the coarse winner. */
  lemma FineIsWindow(score: Scorer, xs: seq<real>, i: nat)
    requires Samples(xs) && |Uniques(xs)| >= 50 && i < |Uniques(xs)| / SUBDIVISION
    ensures var us := Uniques(xs);
      var lo, num := WindowStart(i), WindowProbes(i, |us| / SUBDIVISION);
      && 0 < num <= |us| - lo && Inside(us[lo..], xs)
      && FitsAt(score, xs, us[lo..], num) == AllFits(score, xs)[lo..lo + num - 1]
  {
    UniquesInside(xs);
    WindowInside(Uniques(xs), i);
  }

  /** With fewer than 50 distinct values the default search is the linear one. From 50 on, the fine scan around
      stratum i looks at the cutoffs from ten distinct values before its value to nine after it, those that
      exist and, around the last stratum, only at the ones before it. */
  lemma WindowExact(score: Scorer, xs: seq<real>, big: real, i: nat)
    requires Samples(xs)
    ensures |Uniques(xs)| < 50 ==> StratifiedBest(score, xs, big) == Scan(AllFits(score, xs), big)
    ensures |Uniques(xs)| >= 50 && i < |Uniques(xs)| / 10 ==>
              var lo := if i == 0 then 0 else 10 * i - 10;
              var hi := if i == |Uniques(xs)| / 10 - 1 then 10 * i - 1 else 10 * i + 9;
              lo <= hi <= |AllFits(score, xs)| && FineBest(score, xs, i, big) == Scan(AllFits(score, xs)[lo..hi], big)
  {
    hide Fold, BlockStarts;
    if |Uniques(xs)| >= 50 && i < |Uniques(xs)| / 10 { FineIsWindow(score, xs, i); }
  }

  /** The coarse scan looks at every tenth distinct value but the last of them. */
  lemma CoarseExact(score: Scorer, xs: seq<real>, big: real) returns (fits: seq<Fit>)
    requires Samples(xs) && |Uniques(xs)| >= 50
    ensures CoarseBest(score, xs, big) == Scan(fits, big) && |fits| == |Uniques(xs)| / 10 - 1
    ensures forall k :: 0 <= k < |fits| ==> 10 * k < |AllFits(score, xs)| && fits[k] == AllFits(score, xs)[10 * k]
  {
    UniquesInside(xs);
    fits := FitsAt(score, xs, Strata(Uniques(xs)), |Strata(Uniques(xs))|);
    hide Scan, BlockStarts;
  }

  /** The result is never better than the linear scan and never worse than the coarse one. */
  lemma StratifiedBounds(score: Scorer, xs: seq<real>, big: real)
    requires Samples(xs) && 0.0 < xs[0]
    ensures LinearBest(score, xs, big).d <= StratifiedBest(score, xs, big).d
    ensures |Uniques(xs)| >= 50 ==> StratifiedBest(score, xs, big).d <= CoarseBest(score, xs, big).d
  {
    hide Sorted, Fold, BlockStarts, Match;
    var us := Uniques(xs);
    if |us| >= 50 {
      CoarseWinner(score, xs, big);
      var all, c, i := AllFits(score, xs), CoarseBest(score, xs, big), Winner(score, xs, big);
      ScanBelow(all, big);
      if c != Start(big) {
        WindowInside(us, i);
        FineIsWindow(score, xs, i);
        var lo, num := WindowStart(i), WindowProbes(i, |us| / SUBDIVISION);
        ScanBelow(all[lo..lo + num - 1], big);
        assert all[lo..lo + num - 1][i * SUBDIVISION - lo] == c;
      }
    }
  }

  lemma ScanBelow(fits: seq<Fit>, big: real)
    ensures Scan(fits, big).d <= big && forall k :: 0 <= k < |fits| ==> Scan(fits, big).d <= fits[k].d
    ensures Scan(fits, big) == Start(big) || Scan(fits, big) in fits
  {
    FoldFirst(Start(big), fits, 0, |fits|);
  }

  /** The first of the best fits lies in [lo, hi). */
  ghost predicate FirstIn(fits: seq<Fit>, lo: nat, hi: nat) {
    exists p :: lo <= p < hi && FirstMinimal(fits, p)
  }

  lemma {:induction false} FirstMinimalUnique(fits: seq<Fit>, p: nat, q: nat)
    requires FirstMinimal(fits, p) && FirstMinimal(fits, q)
    ensures p == q
  {
    assert fits[p].d <= fits[q].d;
  }

  /** The shortcut returns the very record of the linear scan exactly when the first of the best cutoffs
      lies in the window around the coarse winner, or the coarse scan found nothing. */
  lemma StratifiedIsLinear(score: Scorer, xs: seq<real>, big: real)
    requires Samples(xs) && 0.0 < xs[0] && |Uniques(xs)| >= 50
    ensures var i := Winner(score, xs, big);
      var lo, num := WindowStart(i), WindowProbes(i, |Uniques(xs)| / SUBDIVISION);
      var found := CoarseBest(score, xs, big) != Start(big);
      StratifiedBest(score, xs, big) == LinearBest(score, xs, big) <==>
      !found || FirstIn(AllFits(score, xs), lo, lo + num - 1)
  {
    hide AllFits, FineBest, Match, BlockStarts, Fold;
    if CoarseBest(score, xs, big) == Start(big) {
      CoarseWinner(score, xs, big);
    } else {
      WindowedIsLinear(score, xs, big);
    }
  }

  lemma WindowedIsLinear(score: Scorer, xs: seq<real>, big: real)
    requires Samples(xs) && 0.0 < xs[0] && |Uniques(xs)| >= 50 && CoarseBest(score, xs, big) != Start(big)
    ensures var i := Winner(score, xs, big);
      var lo, num := WindowStart(i), WindowProbes(i, |Uniques(xs)| / SUBDIVISION);
      StratifiedBest(score, xs, big) == LinearBest(score, xs, big) <==> FirstIn(AllFits(score, xs), lo, lo + num - 1)
  {
    hide Samples, AllFits, Scan, Winner, CoarseBest, StratifiedBest, LinearBest, WindowStart, WindowProbes, FirstIn;
    var all := AllFits(score, xs);
    var lo, hi := WindowScanned(score, xs, big);
    forall p, q | 0 <= p < |all| && 0 <= q < |all| && all[p] == all[q] ensures p == q {
      SameFitSamePlace(score, xs, p, q);
    }
    ScansAgree(all, lo, hi, big);
  }

  /** Scanning a window of distinct records. */
  lemma ScansAgree(all: seq<Fit>, lo: nat, hi: nat, big: real)
    requires lo <= hi <= |all| && Scan(all, big) != Start(big) && Scan(all[lo..hi], big) != Start(big)
    requires forall p, q :: 0 <= p < |all| && 0 <= q < |all| && all[p] == all[q] ==> p == q
    ensures Scan(all[lo..hi], big) == Scan(all, big) <==> FirstIn(all, lo, hi)
  {
    hide Fold;
    ScanIsFirstMinimum(all, big);
    ScanIsFirstMinimum(all[lo..hi], big);
    var p :| FirstMinimal(all, p) && Scan(all, big) == all[p];
    var w :| FirstMinimal(all[lo..hi], w) && Scan(all[lo..hi], big) == all[lo..hi][w];
    assert all[lo..hi][w] == all[lo + w];
    WindowHoldsFirst(all, lo, hi, p, w);
  }

  /** What the fine scan of a successful stratified search looks at; it finds something. */
  lemma WindowScanned(score: Scorer, xs: seq<real>, big: real) returns (lo: nat, hi: nat)
    requires Samples(xs) && 0.0 < xs[0] && |Uniques(xs)| >= 50 && CoarseBest(score, xs, big) != Start(big)
    ensures lo == WindowStart(Winner(score, xs, big)) && lo <= hi <= |AllFits(score, xs)|
    ensures hi == lo + WindowProbes(Winner(score, xs, big), |Uniques(xs)| / SUBDIVISION) - 1
    ensures LinearBest(score, xs, big) == Scan(AllFits(score, xs), big)
    ensures StratifiedBest(score, xs, big) == Scan(AllFits(score, xs)[lo..hi], big)
    ensures LinearBest(score, xs, big) != Start(big) && StratifiedBest(score, xs, big) != Start(big)
  {
    hide Sorted, Fold, BlockStarts, Match;
    StratifiedBounds(score, xs, big);
    CoarseWinner(score, xs, big);
    var i := Winner(score, xs, big);
    lo, hi := WindowStart(i), WindowStart(i) + WindowProbes(i, |Uniques(xs)| / SUBDIVISION) - 1;
    FineIsWindow(score, xs, i);
  }

  /** The first minimum of a window is the first minimum overall exactly when the latter is inside. */
  lemma WindowHoldsFirst(all: seq<Fit>, lo: nat, hi: nat, p: nat, w: nat)
    requires lo <= hi <= |all| && FirstMinimal(all, p) && FirstMinimal(all[lo..hi], w)
    ensures p == lo + w <==> FirstIn(all, lo, hi)
  {
    var window := all[lo..hi];
    if q :| lo <= q < hi && FirstMinimal(all, q) {
      FirstMinimalUnique(all, p, q);
      assert window[p - lo] == all[p];
    }
  }

  lemma SameFitSamePlace(score: Scorer, xs: seq<real>, p: nat, q: nat)
    requires Samples(xs) && p < |AllFits(score, xs)| && q < |AllFits(score, xs)|
    ensures AllFits(score, xs)[p] == AllFits(score, xs)[q] <==> p == q
  {
    UniquesInside(xs);
    if p < q {
      UniquesIncrease(xs, p, q);
    } else if q < p {
      UniquesIncrease(xs, q, p);
    }
  }

  /** Either search returns exponent and distance of the tail of all samples at or above its cutoff, and the
      cutoff leaves a larger sample value. */
  lemma BestIsTail(score: Scorer, xs: seq<real>, big: real, best: Fit)
    requires Samples(xs) && 0.0 < xs[0]
    requires best == LinearBest(score, xs, big) || best == StratifiedBest(score, xs, big)
    ensures best == Start(big) ||
      (best.xmin < xs[|xs| - 1] && best.d < big && best.n == NumAtLeast(xs, best.xmin) <= |xs|
       && (var tail := xs[|xs| - best.n..];
           |tail| > 0 && best.xmin == tail[0] && best.alpha == score(tail).alpha && best.d == score(tail).d))
  {
    if best != Start(big) {
      BestIsProbed(score, xs, big, best);
      ProbedIsTail(score, xs, best);
    }
  }

  lemma ProbedIsTail(score: Scorer, xs: seq<real>, best: Fit)
    requires Samples(xs) && best in AllFits(score, xs)
    ensures best.xmin < xs[|xs| - 1] && 0 < best.n == NumAtLeast(xs, best.xmin) <= |xs|
    ensures var tail := xs[|xs| - best.n..];
      best.xmin == tail[0] && best.alpha == score(tail).alpha && best.d == score(tail).d
  {
    hide BlockStarts, CountAtLeast;
    var all, us := AllFits(score, xs), Uniques(xs);
    var p :| 0 <= p < |all| && all[p] == best;
    UniquesInside(xs);
    UniquesIncrease(xs, p, |us| - 1);
    UniqueIsStart(xs, p);
    TailIsCount(xs, us[p]);
    assert xs[us[|us| - 1]] <= xs[|xs| - 1];
    assert best == FitAt(score, xs, us[p]);
  }

  lemma BestIsProbed(score: Scorer, xs: seq<real>, big: real, best: Fit)
    requires Samples(xs) && 0.0 < xs[0] && best != Start(big)
    requires best == LinearBest(score, xs, big) || best == StratifiedBest(score, xs, big)
    ensures best in AllFits(score, xs) && best.d < big
  {
    hide Fold, BlockStarts, Match;
    var all := AllFits(score, xs);
    ScanBelow(all, big);
    ScanIsFirstMinimum(all, big);
    if best != LinearBest(score, xs, big) {
      CoarseWinner(score, xs, big);
      var us, i := Uniques(xs), Winner(score, xs, big);
      FineIsWindow(score, xs, i);
      var lo, num := WindowStart(i), WindowProbes(i, |us| / SUBDIVISION);
      ScanBelow(all[lo..lo + num - 1], big);
      ScanIsFirstMinimum(all[lo..lo + num - 1], big);
    }
  }
}
